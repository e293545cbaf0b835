/**
 * The value of the `skill` query parameter: `getSelectedSkillsFromURL` reads it as
 * comma-separated tokens, `setSkillsToURL` writes a selection back. The parameter
 * is modelled as an optional string: `None` is a URL without a `skill` parameter.
 */
module Query {
  import opened Wrappers
  import opened Seqs
  import opened Tokens

  /** `s.split(",")`: never empty; "" gives [""], and each comma opens a new piece. */
  function Split(s: string): (parts: seq<string>)
    ensures |parts| >= 1
    ensures forall i :: 0 <= i < |parts| ==> ',' !in parts[i]
  {
    if s == [] then [""]
    else
      var rest := Split(s[1..]);
      if s[0] == ',' then [""] + rest
      else [[s[0]] + rest[0]] + rest[1..]
  }

  /** `xs.join(",")`: the pieces with single commas between them. */
  function Join(xs: seq<string>): (r: string)
    ensures xs == [] ==> r == ""
    ensures |xs| >= 1 ==> |xs[0]| <= |r| && r[..|xs[0]|] == xs[0]
    ensures |xs| >= 2 ==> |xs[0]| < |r| && r[|xs[0]|] == ','
  {
    if xs == [] then ""
    else if |xs| == 1 then xs[0]
    else
      var r := xs[0] + "," + Join(xs[1..]);
      assert r[..|xs[0]|] == xs[0];
      r
  }

  /** Joining the pieces of a split gives back the original string. */
  lemma {:induction false} JoinSplit(s: string)
    ensures Join(Split(s)) == s
  {
    if s != [] {
      JoinSplit(s[1..]);
      var rest := Split(s[1..]);
      if s[0] != ',' && |rest| > 1 {
        assert [[s[0]] + rest[0]] + rest[1..] == [[s[0]] + rest[0]] + rest[1..];
        assert ([s[0]] + rest[0]) + "," + Join(rest[1..]) == [s[0]] + (rest[0] + "," + Join(rest[1..]));
      }
      assert s == [s[0]] + s[1..];
    }
  }

  /** A comma-free prefix stays inside the first piece. */
  lemma {:induction false} SplitCommaFreePrefix(a: string, b: string)
    requires ',' !in a
    ensures Split(a + b) == [a + Split(b)[0]] + Split(b)[1..]
  {
    if a != [] {
      assert a[0] in a && (a + b)[0] == a[0];
      assert (a + b)[1..] == a[1..] + b;
      SplitCommaFreePrefix(a[1..], b);
      var rest := Split(a[1..] + b);
      assert rest[0] == a[1..] + Split(b)[0] && rest[1..] == Split(b)[1..];
      assert a[0] != ',';
      assert Split(a + b) == [[a[0]] + rest[0]] + rest[1..];
      assert a + Split(b)[0] == [a[0]] + (a[1..] + Split(b)[0]);
    } else {
      assert a + b == b && a + Split(b)[0] == Split(b)[0];
      assert Split(b) == [Split(b)[0]] + Split(b)[1..];
    }
  }

  /** Splitting a join of comma-free pieces gives back the pieces. */
  lemma {:induction false} SplitJoin(xs: seq<string>)
    requires |xs| >= 1
    requires forall i :: 0 <= i < |xs| ==> ',' !in xs[i]
    ensures Split(Join(xs)) == xs
  {
    if |xs| == 1 {
      SplitCommaFreePrefix(xs[0], "");
      assert xs[0] + "" == xs[0] && Split("") == [""];
      assert xs == [xs[0]];
    } else {
      SplitJoin(xs[1..]);
      var tail := Join(xs[1..]);
      assert xs[0] + "," + tail == xs[0] + ("," + tail);
      SplitCommaFreePrefix(xs[0], "," + tail);
      assert ("," + tail)[0] == ',' && ("," + tail)[1..] == tail;
      assert Split("," + tail) == [""] + xs[1..];
      assert xs[0] + "" == xs[0];
      assert xs == [xs[0]] + xs[1..];
    }
  }

  /** `filter(Boolean)`: drops the empty strings, keeping the order and the duplicates. */
  function DropEmpty(xs: seq<string>): (r: seq<string>)
    ensures IsSubseq(r, xs)
    ensures forall i :: 0 <= i < |r| ==> r[i] != "" && r[i] in xs
    ensures forall x :: x != "" ==> multiset(r)[x] == multiset(xs)[x]
  {
    if xs == [] then []
    else
      var rest := DropEmpty(xs[1..]);
      if xs[0] == "" then
        DropEmptySkip(xs, rest);
        rest
      else
        DropEmptyKeep(xs, rest);
        [xs[0]] + rest
  }

  /** The step of `DropEmpty` that drops an empty head. */
  lemma DropEmptySkip(xs: seq<string>, rest: seq<string>)
    requires xs != [] && xs[0] == ""
    requires IsSubseq(rest, xs[1..]) && forall i :: 0 <= i < |rest| ==> rest[i] in xs[1..]
    requires forall x :: x != "" ==> multiset(rest)[x] == multiset(xs[1..])[x]
    ensures IsSubseq(rest, xs) && forall i :: 0 <= i < |rest| ==> rest[i] in xs
    ensures forall x :: x != "" ==> multiset(rest)[x] == multiset(xs)[x]
  {
    SubseqOfTail(rest, xs);
    assert xs == [xs[0]] + xs[1..];
  }

  /** The step of `DropEmpty` that keeps a non-empty head. */
  lemma DropEmptyKeep(xs: seq<string>, rest: seq<string>)
    requires xs != [] && xs[0] != ""
    requires IsSubseq(rest, xs[1..]) && forall i :: 0 <= i < |rest| ==> rest[i] in xs[1..]
    requires forall x :: x != "" ==> multiset(rest)[x] == multiset(xs[1..])[x]
    ensures IsSubseq([xs[0]] + rest, xs) && forall i :: 0 <= i < |rest| + 1 ==> ([xs[0]] + rest)[i] in xs
    ensures forall x :: x != "" ==> multiset([xs[0]] + rest)[x] == multiset(xs)[x]
  {
    var r := [xs[0]] + rest;
    assert r[1..] == rest;
    assert xs == [xs[0]] + xs[1..];
  }

  /**
   * `getSelectedSkillsFromURL` on the value of the `skill` parameter: an absent or
   * empty value gives no tokens; otherwise the slug of every comma-separated piece,
   * in order, with the empty slugs dropped and duplicates kept.
   */
  function ParseSkillParam(raw: Option<string>): (tokens: seq<string>)
    ensures raw.None? || raw == Some("") ==> tokens == []
    ensures forall i :: 0 <= i < |tokens| ==> IsToken(tokens[i])
    ensures raw.Some? && raw.value != "" ==>
      var slugs := SlugAll(Split(raw.value));
      && IsSubseq(tokens, slugs)
      && forall x :: x != "" ==> multiset(tokens)[x] == multiset(slugs)[x]
  {
    if raw.None? || raw.value == "" then []
    else DropEmpty(SlugAll(Split(raw.value)))
  }

  /**
   * `setSkillsToURL` on the `skill` parameter: a non-empty selection is stored as
   * its comma-join, an empty one removes the parameter.
   */
  function SerializeSkillParam(skills: seq<string>): (v: Option<string>)
    ensures v.None? <==> skills == []
  {
    if |skills| > 0 then Some(Join(skills)) else None
  }

  lemma TokenHasNoComma(t: string)
    requires IsSlugNormal(t)
    ensures ',' !in t
  {
  }

  /** `slug` leaves a list of slug-form strings unchanged. */
  lemma SlugAllKeepsNormal(xs: seq<string>)
    requires forall i :: 0 <= i < |xs| ==> IsSlugNormal(xs[i])
    ensures SlugAll(xs) == xs
  {
    forall i | 0 <= i < |xs| ensures Slug(xs[i]) == xs[i] {
      SlugFixpoint(xs[i]);
    }
  }

  /** Writing a selection of tokens and reading it back yields the same selection. */
  lemma SkillParamRoundTrip(skills: seq<string>)
    requires forall i :: 0 <= i < |skills| ==> IsToken(skills[i])
    ensures ParseSkillParam(SerializeSkillParam(skills)) == skills
  {
    if |skills| > 0 {
      var joined := Join(skills);
      assert joined != "" && SlugAll(Split(joined)) == skills by {
        JoinOfTokens(skills);
        SlugAllKeepsNormal(skills);
      }
      assert DropEmpty(skills) == skills by {
        DropEmptyOfTokens(skills);
      }
      assert ParseSkillParam(Some(joined)) == DropEmpty(SlugAll(Split(joined)));
    }
  }

  /** The join of tokens is non-empty and splits back into the tokens. */
  lemma JoinOfTokens(skills: seq<string>)
    requires |skills| > 0
    requires forall i :: 0 <= i < |skills| ==> IsToken(skills[i])
    ensures Join(skills) != "" && Split(Join(skills)) == skills
  {
    forall i | 0 <= i < |skills| ensures ',' !in skills[i] {
      TokenHasNoComma(skills[i]);
    }
    SplitJoin(skills);
  }

  /** A list without empty strings is left as it is. */
  lemma {:induction false} DropEmptyOfTokens(skills: seq<string>)
    requires forall i :: 0 <= i < |skills| ==> skills[i] != ""
    ensures DropEmpty(skills) == skills
  {
    if skills != [] {
      DropEmptyOfTokens(skills[1..]);
      assert skills == [skills[0]] + skills[1..];
    }
  }

  /** An empty string written after a selection of tokens is lost when the value is read back. */
  lemma TrailingEmptyLost(skills: seq<string>)
    requires forall i :: 0 <= i < |skills| ==> IsToken(skills[i])
    ensures ParseSkillParam(SerializeSkillParam(skills + [""])) == skills
  {
    var next := skills + [""];
    if skills == [] {
      assert next == [""];
    } else {
      var joined := Join(next);
      assert joined != "" && SlugAll(Split(joined)) == next by {
        TokensThenEmpty(skills);
      }
      DropTrailingEmpty(skills);
      ParseInSteps(joined, Split(joined), skills);
    }
  }

  /** A non-empty list of tokens followed by "" joins to a non-empty value that splits and slugs back. */
  lemma TokensThenEmpty(skills: seq<string>)
    requires |skills| > 0
    requires forall i :: 0 <= i < |skills| ==> IsToken(skills[i])
    ensures Join(skills + [""]) != "" && SlugAll(Split(Join(skills + [""]))) == skills + [""]
  {
    var next := skills + [""];
    forall i | 0 <= i < |next| ensures ',' !in next[i] && IsSlugNormal(next[i]) {
      if i < |skills| {
        TokenHasNoComma(skills[i]);
      }
    }
    SplitJoin(next);
    SlugAllKeepsNormal(next);
    assert |next[0]| > 0;
  }

  /** An empty string at the end of a list of non-empty strings is dropped, and only it. */
  lemma {:induction false} DropTrailingEmpty(xs: seq<string>)
    requires forall i :: 0 <= i < |xs| ==> xs[i] != ""
    ensures DropEmpty(xs + [""]) == xs
  {
    if xs == [] {
      assert xs + [""] == [""];
    } else {
      DropTrailingEmpty(xs[1..]);
      ConsAppend(xs, [""]);
      assert xs == [xs[0]] + xs[1..];
    }
  }

  /** Re-writing what was read and reading it again changes nothing. */
  lemma ParseSerializeParse(raw: Option<string>)
    ensures ParseSkillParam(SerializeSkillParam(ParseSkillParam(raw))) == ParseSkillParam(raw)
  {
    SkillParamRoundTrip(ParseSkillParam(raw));
  }

  /** An empty selection removes the parameter, and the missing parameter reads as empty. */
  lemma EmptySelectionRoundTrip()
    ensures SerializeSkillParam([]) == None && ParseSkillParam(SerializeSkillParam([])) == []
  {
  }

  /** Reading does not deduplicate: "go,rust,go" reads as three tokens. */
  lemma ParseKeepsDuplicates()
    ensures ParseSkillParam(Some("go,rust,go")) == ["go", "rust", "go"]
  {
    var skills := ["go", "rust", "go"];
    assert IsToken("go") && IsToken("rust");
    assert Join(skills) == "go,rust,go";
    SkillParamRoundTrip(skills);
  }

  /** "Go, Rust" reads as the tokens `go` and `rust`: each piece is slugged, so case and padding vanish. */
  lemma ParseGoRust()
    ensures ParseSkillParam(Some("Go, Rust")) == ["go", "rust"]
  {
    SplitGoRust("Go, Rust");
    SlugAllGoRust(["Go", " Rust"]);
    TokensGoRust(["go", "rust"]);
    assert DropEmpty(SlugAll(["Go", " Rust"])) == ["go", "rust"];
    ParseInSteps("Go, Rust", ["Go", " Rust"], ["go", "rust"]);
  }

  /** Unfolding step: a present, non-empty value is split, slugged and filtered. */
  lemma ParseInSteps(raw: string, pieces: seq<string>, tokens: seq<string>)
    requires raw != "" && Split(raw) == pieces && DropEmpty(SlugAll(pieces)) == tokens
    ensures ParseSkillParam(Some(raw)) == tokens
  {
  }

  lemma SplitGoRust(raw: string)
    requires raw == "Go, Rust"
    ensures Split(raw) == ["Go", " Rust"]
  {
    var pieces := ["Go", " Rust"];
    assert Join(pieces) == raw;
    assert ',' !in pieces[0] && ',' !in pieces[1];
    SplitJoin(pieces);
  }

  lemma SlugAllGoRust(pieces: seq<string>)
    requires pieces == ["Go", " Rust"]
    ensures SlugAll(pieces) == ["go", "rust"]
  {
    SlugOfGo();
    SlugOfPaddedRust();
    SlugAllPair(pieces[0], pieces[1], "go", "rust");
    assert pieces == [pieces[0], pieces[1]];
  }

  lemma SlugAllPair(a: string, b: string, ta: string, tb: string)
    requires Slug(a) == ta && Slug(b) == tb
    ensures SlugAll([a, b]) == [ta, tb]
  {
    var r := SlugAll([a, b]);
    PairByIndex(r, ta, tb);
  }

  lemma TokensGoRust(tokens: seq<string>)
    requires tokens == ["go", "rust"]
    ensures DropEmpty(tokens) == tokens
  {
    DropEmptyOfTokens(tokens);
  }

  lemma SlugOfGo()
    ensures Slug("Go") == "go"
  {
    TrimGo("Go");
    LowerOfWord("Go", "go");
    SlugOfLowered("Go", "go");
  }

  lemma SlugOfPaddedRust()
    ensures Slug(" Rust") == "rust"
  {
    TrimRust(" Rust");
    LowerOfWord("Rust", "rust");
    SlugOfLowered(" Rust", "rust");
  }

  lemma LowerOfWord(w: string, t: string)
    requires (w == "Go" && t == "go") || (w == "Rust" && t == "rust")
    ensures Lower(w) == t && IsSlugNormal(t)
  {
  }

  lemma TrimGo(g: string)
    requires g == "Go"
    ensures Trim(g) == "Go"
  {
    assert g[0] == 'G' && g[|g| - 1] == 'o';
    TrimKeepsUnpadded(g);
  }

  lemma TrimRust(r: string)
    requires r == " Rust"
    ensures Trim(r) == "Rust"
  {
    assert r == " " + "Rust" + "";
    TrimSpacesAround(" ", "Rust", "");
  }
}
