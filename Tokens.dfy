/**
 * The skill-label normaliser `slug` of app.js: trim, lower-case, turn every run of
 * whitespace or underscores into one hyphen, then drop everything outside [a-z0-9-].
 * Its result is the identity of a skill for matching and for the `skill` query value.
 */
module Tokens {
  import opened Wrappers
  import opened Seqs

  /**
   * The characters ECMAScript's `\s` matches and `String.prototype.trim` strips:
   * the WhiteSpace and LineTerminator code points.
   */
  predicate IsSpace(c: char) {
    c == ' ' || c == '\t' || c == '\n' || c == '\r' || c == '\U{0B}' || c == '\U{0C}'
    || c == '\U{A0}' || c == '\U{1680}' || '\U{2000}' <= c <= '\U{200A}'
    || c == '\U{2028}' || c == '\U{2029}' || c == '\U{202F}' || c == '\U{205F}'
    || c == '\U{3000}' || c == '\U{FEFF}'
  }

  /** The class `[\s_]` of the run-collapsing regular expression. */
  predicate IsSeparator(c: char) {
    IsSpace(c) || c == '_'
  }

  /** The class `[a-z0-9-]` that survives the last step. */
  predicate IsTokenChar(c: char) {
    'a' <= c <= 'z' || '0' <= c <= '9' || c == '-'
  }

  /** A string that is already in slug form. */
  predicate IsSlugNormal(s: string) {
    forall i :: 0 <= i < |s| ==> IsTokenChar(s[i])
  }

  /** A selection token: a non-empty string in slug form. */
  predicate IsToken(s: string) {
    |s| > 0 && IsSlugNormal(s)
  }

  /** Drops the leading whitespace. */
  function TrimStart(s: string): (r: string)
    ensures |r| <= |s| && r == s[|s| - |r|..]
    ensures forall i :: 0 <= i < |s| - |r| ==> IsSpace(s[i])
    ensures r == [] || !IsSpace(r[0])
  {
    if |s| > 0 && IsSpace(s[0]) then TrimStart(s[1..]) else s
  }

  /** Drops the trailing whitespace. */
  function TrimEnd(s: string): (r: string)
    ensures |r| <= |s| && r == s[..|r|]
    ensures forall i :: |r| <= i < |s| ==> IsSpace(s[i])
    ensures r == [] || !IsSpace(r[|r| - 1])
  {
    if |s| > 0 && IsSpace(s[|s| - 1]) then TrimEnd(s[..|s| - 1]) else s
  }

  /** `r` is `s` with `i` whitespace characters cut from the front and only whitespace cut from the back. */
  predicate TrimmedAt(s: string, r: string, i: nat) {
    && i + |r| <= |s| && r == s[i..i + |r|]
    && (forall k :: 0 <= k < i ==> IsSpace(s[k]))
    && (forall k :: i + |r| <= k < |s| ==> IsSpace(s[k]))
  }

  /** `String.prototype.trim`: the result neither starts nor ends with whitespace. */
  function Trim(s: string): (r: string)
    ensures r == [] || (!IsSpace(r[0]) && !IsSpace(r[|r| - 1]))
  {
    TrimEnd(TrimStart(s))
  }

  /** What `trim` removes is whitespace at both ends, and it keeps the middle as it was. */
  lemma TrimIsMiddle(s: string)
    ensures TrimmedAt(s, Trim(s), |s| - |TrimStart(s)|)
  {
    var front := TrimStart(s);
    var i := |s| - |front|;
    var r := TrimEnd(front);
    SliceOfSuffix(s, front, i, |r|);
    SpacesOfSuffix(s, front, i, |r|);
  }

  lemma SliceOfSuffix(s: string, front: string, i: nat, n: nat)
    requires i <= |s| && front == s[i..] && n <= |front|
    ensures front[..n] == s[i..i + n]
  {
  }

  lemma SpacesOfSuffix(s: string, front: string, i: nat, n: nat)
    requires i <= |s| && front == s[i..] && n <= |front|
    requires forall j :: n <= j < |front| ==> IsSpace(front[j])
    ensures forall k :: i + n <= k < |s| ==> IsSpace(s[k])
  {
    forall k | i + n <= k < |s| ensures IsSpace(s[k]) {
      assert s[k] == front[k - i];
    }
  }

  predicate IsUpper(c: char) {
    'A' <= c <= 'Z'
  }

  /** `toLowerCase` on one character, over the ASCII letters. */
  function LowerChar(c: char): (r: char)
    ensures !IsUpper(r)
    ensures !IsUpper(c) ==> r == c
    ensures IsUpper(c) ==> 'a' <= r <= 'z' && r as int - 'a' as int == c as int - 'A' as int
  {
    if IsUpper(c) then (c as int - 'A' as int + 'a' as int) as char else c
  }

  /** `String.prototype.toLowerCase`, over the ASCII letters. */
  function Lower(s: string): (r: string)
    ensures |r| == |s|
    ensures forall i :: 0 <= i < |s| ==> r[i] == LowerChar(s[i])
  {
    seq(|s|, i requires 0 <= i < |s| => LowerChar(s[i]))
  }

  /** Lower-casing twice is lower-casing once. */
  lemma LowerIdempotent(s: string)
    ensures Lower(Lower(s)) == Lower(s)
  {
    var once := Lower(s);
    forall i | 0 <= i < |s| ensures Lower(once)[i] == once[i] {
      assert !IsUpper(once[i]);
    }
  }

  /** The lower-cased string has no upper-case letter, and only upper-case letters changed. */
  lemma LowerOnlyLetters(s: string)
    ensures forall i :: 0 <= i < |s| ==> !IsUpper(Lower(s)[i])
    ensures forall i :: 0 <= i < |s| && !IsUpper(s[i]) ==> Lower(s)[i] == s[i]
  {
  }

  /** Drops the run of separators at the front of `s`. */
  function DropSeparatorRun(s: string): (r: string)
    ensures |r| <= |s| && r == s[|s| - |r|..]
    ensures forall i :: 0 <= i < |s| - |r| ==> IsSeparator(s[i])
    ensures r == [] || !IsSeparator(r[0])
  {
    if |s| > 0 && IsSeparator(s[0]) then DropSeparatorRun(s[1..]) else s
  }

  /**
   * `s.replace(/[\s_]+/g, "-")`: the global search takes the leftmost match and
   * the greedy `+` takes the whole run of separators, so each maximal run becomes
   * one hyphen.
   */
  function CollapseSeparators(s: string): (r: string)
    ensures forall i :: 0 <= i < |r| ==> !IsSeparator(r[i])
    ensures |r| <= |s|
    decreases |s|
  {
    if s == [] then []
    else if IsSeparator(s[0]) then
      var rest := DropSeparatorRun(s);
      assert |rest| < |s| by { assert s[0..] == s; }
      "-" + CollapseSeparators(rest)
    else [s[0]] + CollapseSeparators(s[1..])
  }

  /** Collapsing keeps the count of every character other than a separator or `-`. */
  lemma {:induction false} CollapseKeepsOthers(s: string, c: char)
    requires !IsSeparator(c) && c != '-'
    ensures multiset(CollapseSeparators(s))[c] == multiset(s)[c]
    decreases |s|
  {
    if s != [] {
      if IsSeparator(s[0]) {
        var rest := DropSeparatorRun(s);
        assert |rest| < |s| by { assert s[0..] == s; }
        SeparatorPrefixCounts(s, rest);
        CollapseKeepsOthers(rest, c);
        assert multiset("-" + CollapseSeparators(rest))[c] == multiset(CollapseSeparators(rest))[c];
      } else {
        assert s == [s[0]] + s[1..];
        CollapseKeepsOthers(s[1..], c);
      }
    }
  }

  /** Cutting a prefix of separators keeps the count of every other character. */
  lemma SeparatorPrefixCounts(s: string, rest: string)
    requires |rest| <= |s| && rest == s[|s| - |rest|..]
    requires forall i :: 0 <= i < |s| - |rest| ==> IsSeparator(s[i])
    ensures forall c :: !IsSeparator(c) ==> multiset(rest)[c] == multiset(s)[c]
  {
    var head := s[..|s| - |rest|];
    assert s == head + rest;
    forall c | !IsSeparator(c) ensures multiset(head)[c] == 0 {
      assert forall k :: 0 <= k < |head| ==> head[k] != c;
    }
  }

  /** A whole run of separators becomes a single hyphen (the `+` is greedy). */
  lemma CollapseRun(run: string)
    requires |run| > 0 && forall i :: 0 <= i < |run| ==> IsSeparator(run[i])
    ensures CollapseSeparators(run) == "-"
  {
    assert DropSeparatorRun(run) == [];
  }

  /** A run of separators in front of a string that does not start with one is cut off exactly. */
  lemma {:induction false} DropRunThen(run: string, b: string)
    requires forall i :: 0 <= i < |run| ==> IsSeparator(run[i])
    requires b == [] || !IsSeparator(b[0])
    ensures DropSeparatorRun(run + b) == b
    decreases |run|
  {
    if run == [] {
      assert run + b == b;
    } else {
      assert (run + b)[0] == run[0] && (run + b)[1..] == run[1..] + b;
      DropRunThen(run[1..], b);
    }
  }

  /**
   * A run of separators of any length, followed by text that does not start with one,
   * becomes a single hyphen in front of the collapsed text (the `+` is greedy).
   */
  lemma CollapseRunThen(run: string, b: string)
    requires |run| > 0 && forall i :: 0 <= i < |run| ==> IsSeparator(run[i])
    requires b == [] || !IsSeparator(b[0])
    ensures CollapseSeparators(run + b) == "-" + CollapseSeparators(b)
  {
    assert (run + b)[0] == run[0];
    DropRunThen(run, b);
    CollapseAtSeparator(run + b);
  }

  /** A separator run at the front ends before the first non-separator, whatever follows. */
  lemma {:induction false} DropRunAppend(a: string, b: string)
    requires a != [] && !IsSeparator(a[|a| - 1])
    ensures DropSeparatorRun(a + b) == DropSeparatorRun(a) + b
    decreases |a|
  {
    if IsSeparator(a[0]) {
      assert |a| > 1;
      assert (a + b)[0] == a[0] && (a + b)[1..] == a[1..] + b;
      DropRunAppend(a[1..], b);
    }
  }

  /**
   * A string that does not end inside a separator run collapses on its own: the
   * runs of `a` and of `b` are collapsed independently.
   */
  lemma {:induction false} CollapseAppend(a: string, b: string)
    requires a == [] || !IsSeparator(a[|a| - 1])
    ensures CollapseSeparators(a + b) == CollapseSeparators(a) + CollapseSeparators(b)
    decreases |a|, 1
  {
    if a == [] {
      assert a + b == b;
    } else if IsSeparator(a[0]) {
      CollapseAppendRun(a, b);
    } else {
      CollapseAppendOther(a, b);
    }
  }

  lemma {:induction false} CollapseAppendRun(a: string, b: string)
    requires a != [] && IsSeparator(a[0]) && !IsSeparator(a[|a| - 1])
    ensures CollapseSeparators(a + b) == CollapseSeparators(a) + CollapseSeparators(b)
    decreases |a|, 0
  {
    var rest := DropSeparatorRun(a);
    assert |rest| < |a| && rest != [] && rest[|rest| - 1] == a[|a| - 1] by {
      assert a[0..] == a;
    }
    ConsAppend(a, b);
    calc {
      CollapseSeparators(a + b);
      { CollapseAtSeparator(a + b); }
      "-" + CollapseSeparators(DropSeparatorRun(a + b));
      { DropRunAppend(a, b); }
      "-" + CollapseSeparators(rest + b);
      { CollapseAppend(rest, b); }
      "-" + (CollapseSeparators(rest) + CollapseSeparators(b));
      ("-" + CollapseSeparators(rest)) + CollapseSeparators(b);
      { CollapseAtSeparator(a); }
      CollapseSeparators(a) + CollapseSeparators(b);
    }
  }

  lemma {:induction false} CollapseAppendOther(a: string, b: string)
    requires a != [] && !IsSeparator(a[0]) && !IsSeparator(a[|a| - 1])
    ensures CollapseSeparators(a + b) == CollapseSeparators(a) + CollapseSeparators(b)
    decreases |a|, 0
  {
    ConsAppend(a, b);
    calc {
      CollapseSeparators(a + b);
      { CollapseAtOther(a + b); }
      [a[0]] + CollapseSeparators(a[1..] + b);
      { CollapseAppend(a[1..], b); }
      [a[0]] + (CollapseSeparators(a[1..]) + CollapseSeparators(b));
      ([a[0]] + CollapseSeparators(a[1..])) + CollapseSeparators(b);
      { CollapseAtOther(a); }
      CollapseSeparators(a) + CollapseSeparators(b);
    }
  }

  lemma CollapseAtSeparator(s: string)
    requires s != [] && IsSeparator(s[0])
    ensures CollapseSeparators(s) == "-" + CollapseSeparators(DropSeparatorRun(s))
  {
  }

  lemma CollapseAtOther(s: string)
    requires s != [] && !IsSeparator(s[0])
    ensures CollapseSeparators(s) == [s[0]] + CollapseSeparators(s[1..])
  {
  }

  /** `s.replace(/[^a-z0-9-]/g, "")`. */
  function KeepTokenChars(s: string): (r: string)
    ensures IsSlugNormal(r)
    ensures |r| <= |s|
  {
    if s == [] then []
    else if IsTokenChar(s[0]) then [s[0]] + KeepTokenChars(s[1..])
    else KeepTokenChars(s[1..])
  }

  /**
   * The filter keeps exactly the `[a-z0-9-]` characters: they stay in their order
   * (a subsequence), each as often as it occurs.
   */
  lemma {:induction false} KeepTokenCharsKeepsOrder(s: string)
    ensures IsSubseq(KeepTokenChars(s), s)
    ensures forall c :: IsTokenChar(c) ==> multiset(KeepTokenChars(s))[c] == multiset(s)[c]
    decreases |s|
  {
    if s != [] {
      assert s == [s[0]] + s[1..];
      var rest := KeepTokenChars(s[1..]);
      KeepTokenCharsKeepsOrder(s[1..]);
      if IsTokenChar(s[0]) {
        assert ([s[0]] + rest)[1..] == rest;
      } else {
        SubseqOfTail(rest, s);
      }
    }
  }

  /** `slug(s)` applied to a string. */
  function Slug(s: string): (r: string)
    ensures IsSlugNormal(r)
  {
    KeepTokenChars(CollapseSeparators(Lower(Trim(s))))
  }

  /** `slug(v)` on a possibly absent value: `String(v || "")` turns absence into "". */
  function SlugOf(v: Option<string>): (r: string)
    ensures v.None? ==> r == ""
    ensures IsSlugNormal(r)
  {
    Slug(v.GetOr(""))
  }

  /** `slug` of every element, in order (`xs.map(slug)`). */
  function SlugAll(xs: seq<string>): (r: seq<string>)
    ensures |r| == |xs|
    ensures forall i :: 0 <= i < |xs| ==> r[i] == Slug(xs[i])
  {
    if xs == [] then []
    else
      var rest := SlugAll(xs[1..]);
      MapStep(xs, Slug(xs[0]), rest, Slug);
      [Slug(xs[0])] + rest
  }

  // ---- every step leaves a string in slug form unchanged ----

  lemma {:induction false} CollapseKeepsSeparatorFree(s: string)
    requires forall i :: 0 <= i < |s| ==> !IsSeparator(s[i])
    ensures CollapseSeparators(s) == s
    decreases |s|
  {
    if s != [] {
      CollapseKeepsSeparatorFree(s[1..]);
    }
  }

  lemma {:induction false} KeepTokenCharsKeepsNormal(s: string)
    requires IsSlugNormal(s)
    ensures KeepTokenChars(s) == s
    decreases |s|
  {
    if s != [] {
      KeepTokenCharsKeepsNormal(s[1..]);
    }
  }

  /** The strings `slug` leaves unchanged are exactly those already in slug form. */
  lemma SlugFixpoint(s: string)
    ensures Slug(s) == s <==> IsSlugNormal(s)
  {
    if IsSlugNormal(s) {
      TrimKeepsNormal(s);
      LowerKeepsNormal(s);
      CollapseKeepsSeparatorFree(s);
      KeepTokenCharsKeepsNormal(s);
    }
  }

  lemma TrimKeepsNormal(s: string)
    requires IsSlugNormal(s)
    ensures Trim(s) == s
  {
    assert s == [] || !IsSpace(s[0]);
    assert TrimStart(s) == s;
    assert s == [] || !IsSpace(s[|s| - 1]);
  }

  lemma LowerKeepsNormal(s: string)
    requires IsSlugNormal(s)
    ensures Lower(s) == s
  {
    assert forall i :: 0 <= i < |s| ==> !IsUpper(s[i]);
  }

  /** A label whose trimmed, lower-cased text is already in slug form has that text as its token. */
  lemma SlugOfLowered(raw: string, t: string)
    requires Lower(Trim(raw)) == t && IsSlugNormal(t)
    ensures Slug(raw) == t
  {
    LastStepsKeepNormal(t);
  }

  /** The last two steps of `slug` leave a string in slug form unchanged. */
  lemma LastStepsKeepNormal(t: string)
    requires IsSlugNormal(t)
    ensures KeepTokenChars(CollapseSeparators(t)) == t
  {
    CollapseKeepsSeparatorFree(t);
    KeepTokenCharsKeepsNormal(t);
  }

  /** Normalising a normalised string yields itself. */
  lemma SlugIdempotent(s: string)
    ensures Slug(Slug(s)) == Slug(s)
  {
    SlugFixpoint(Slug(s));
  }

  /** Absent and empty labels both give the empty token. */
  lemma SlugOfEmpty()
    ensures SlugOf(None) == "" && SlugOf(Some("")) == ""
  {
  }

  /** A run of two underscores between letters becomes one hyphen, not two. */
  lemma CollapseDoubleRun(s: string)
    requires s == "a__b"
    ensures CollapseSeparators(s) == "a-b"
  {
    var run, rest := s[1..3], s[3..];
    assert IsSeparator(run[0]) && IsSeparator(run[1]) && !IsSeparator(rest[0]);
    assert s[1..] == run + rest;
    CollapseAtOther(s);
    CollapseRunThen(run, rest);
    CollapseKeepsSeparatorFree(rest);
  }

  /** One separator between two separator-free parts becomes one hyphen. */
  lemma {:induction false} CollapseOneSeparator(a: string, c: char, b: string)
    requires forall i :: 0 <= i < |a| ==> !IsSeparator(a[i])
    requires forall i :: 0 <= i < |b| ==> !IsSeparator(b[i])
    requires IsSeparator(c)
    ensures CollapseSeparators(a + [c] + b) == a + "-" + b
    decreases |a|
  {
    var s := a + [c] + b;
    if a == [] {
      assert s[0] == c && s[1..] == b;
      assert DropSeparatorRun(b) == b;
      assert DropSeparatorRun(s) == b;
      CollapseKeepsSeparatorFree(b);
    } else {
      assert s[0] == a[0] && s[1..] == a[1..] + [c] + b;
      CollapseOneSeparator(a[1..], c, b);
    }
  }

  /** The labels "Machine Learning", "machine_learning" and "  Machine-Learning " name one skill. */
  lemma SlugExamples()
    ensures Slug("Machine Learning") == "machine-learning"
    ensures Slug("machine_learning") == "machine-learning"
    ensures Slug("  Machine-Learning ") == "machine-learning"
  {
    SlugOfSpaced();
    SlugOfSnake();
    SlugOfPadded();
  }

  lemma SlugOfSpaced()
    ensures Slug("Machine Learning") == "machine-learning"
  {
    assert Lower("Machine Learning") == "machine" + [' '] + "learning";
    SlugOfTwoWords("Machine Learning", ' ');
  }

  lemma SlugOfSnake()
    ensures Slug("machine_learning") == "machine-learning"
  {
    assert Lower("machine_learning") == "machine" + ['_'] + "learning";
    SlugOfTwoWords("machine_learning", '_');
  }

  lemma SlugOfPadded()
    ensures Slug("  Machine-Learning ") == "machine-learning"
  {
    TrimPadded();
    LowerHyphenated();
    SlugOfHyphenated("  Machine-Learning ");
  }

  lemma SlugOfHyphenated(raw: string)
    requires Lower(Trim(raw)) == "machine-learning"
    ensures Slug(raw) == "machine-learning"
  {
    CollapseHyphenated();
    KeepsMachineLearning();
  }

  lemma CollapseHyphenated()
    ensures CollapseSeparators("machine-learning") == "machine-learning"
  {
    CollapseKeepsSeparatorFree("machine-learning");
  }

  lemma TrimPadded()
    ensures Trim("  Machine-Learning ") == "Machine-Learning"
  {
    assert "  Machine-Learning " == "  " + "Machine-Learning" + " ";
    TrimSpacesAround("  ", "Machine-Learning", " ");
  }

  /** Whitespace on both sides of an unpadded string is what `trim` removes. */
  lemma {:induction false} TrimSpacesAround(before: string, core: string, after: string)
    requires forall i :: 0 <= i < |before| ==> IsSpace(before[i])
    requires forall i :: 0 <= i < |after| ==> IsSpace(after[i])
    requires |core| > 0 && !IsSpace(core[0]) && !IsSpace(core[|core| - 1])
    ensures Trim(before + core + after) == core
    decreases |before| + |after|
  {
    var s := before + core + after;
    if before != [] {
      assert s[0] == before[0] && s[1..] == before[1..] + core + after;
      TrimSpacesAround(before[1..], core, after);
    } else if after != [] {
      assert TrimStart(s) == s;
      assert s[..|s| - 1] == core + after[..|after| - 1];
      TrimSpacesAround(before, core, after[..|after| - 1]);
    } else {
      assert s == core;
    }
  }

  lemma LowerHyphenated()
    ensures Lower("Machine-Learning") == "machine-learning"
  {
  }

  lemma SlugOfTwoWords(raw: string, c: char)
    requires |raw| > 0 && !IsSpace(raw[0]) && !IsSpace(raw[|raw| - 1])
    requires IsSeparator(c) && Lower(raw) == "machine" + [c] + "learning"
    ensures Slug(raw) == "machine-learning"
  {
    TrimKeepsUnpadded(raw);
    CollapseTwoWords(c);
    KeepsMachineLearning();
  }

  lemma CollapseTwoWords(c: char)
    requires IsSeparator(c)
    ensures CollapseSeparators("machine" + [c] + "learning") == "machine-learning"
  {
    CollapseOneSeparator("machine", c, "learning");
  }

  lemma KeepsMachineLearning()
    ensures KeepTokenChars("machine-learning") == "machine-learning"
  {
    KeepTokenCharsKeepsNormal("machine-learning");
  }

  lemma TrimKeepsUnpadded(s: string)
    requires |s| > 0 && !IsSpace(s[0]) && !IsSpace(s[|s| - 1])
    ensures Trim(s) == s
  {
  }
}
