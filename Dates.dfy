/**
 * The ordering helpers of app.js: `parseEndYear` extracts a sortable end year from a
 * free-text date range, `sortLatestFirst` orders a copy of a list by it, latest first.
 */
module Dates {
  import opened Wrappers
  import opened Tokens

  /** The year for ongoing entries ("present"), above every real year. */
  const Ongoing: int := 9999
  /** The year for entries without a 4-digit group, below every real year. */
  const Unknown: int := -1

  /** `\d` without the `u` flag: the ASCII digits. */
  predicate IsDigit(c: char) {
    '0' <= c <= '9'
  }

  function DigitValue(c: char): nat
    requires IsDigit(c)
  {
    c as int - '0' as int
  }

  /** `pat` occurs in `d` at position `i`. */
  predicate OccursAt(d: string, pat: string, i: nat) {
    i + |pat| <= |d| && d[i..i + |pat|] == pat
  }

  /** `d.includes(pat)`. */
  function Includes(d: string, pat: string): (b: bool)
    ensures b <==> exists i :: OccursAt(d, pat, i)
    decreases |d|
  {
    if |d| < |pat| then false
    else if d[..|pat|] == pat then (assert OccursAt(d, pat, 0); true)
    else
      var b := Includes(d[1..], pat);
      assert forall i: nat :: OccursAt(d[1..], pat, i) <==> OccursAt(d, pat, i + 1) by {
        forall i: nat ensures OccursAt(d[1..], pat, i) <==> OccursAt(d, pat, i + 1) {
          if i + |pat| <= |d[1..]| {
            assert d[1..][i..i + |pat|] == d[i + 1..i + 1 + |pat|];
          }
        }
      }
      assert !OccursAt(d, pat, 0);
      assert b ==> exists i :: OccursAt(d, pat, i) by {
        if b {
          var i: nat :| OccursAt(d[1..], pat, i);
          assert OccursAt(d, pat, i + 1);
        }
      }
      assert (exists i :: OccursAt(d, pat, i)) ==> b by {
        if exists i :: OccursAt(d, pat, i) {
          var i: nat :| OccursAt(d, pat, i);
          assert i > 0 && OccursAt(d[1..], pat, i - 1);
        }
      }
      b
  }

  /** `(\d{4})` matches at position `i`. */
  predicate FourDigitsAt(d: string, i: nat) {
    i + 4 <= |d| && forall k :: i <= k < i + 4 ==> IsDigit(d[k])
  }

  /** `Number(...)` of the four digits at `i`. */
  function YearAt(d: string, i: nat): (y: int)
    requires FourDigitsAt(d, i)
    ensures 0 <= y <= 9999
  {
    1000 * DigitValue(d[i]) + 100 * DigitValue(d[i + 1]) + 10 * DigitValue(d[i + 2]) + DigitValue(d[i + 3])
  }

  /** `(\d{4})\s*$` matches at position `i`: four digits, then only whitespace to the end. */
  predicate EndMatchAt(d: string, i: nat) {
    FourDigitsAt(d, i) && forall k :: i + 4 <= k < |d| ==> IsSpace(d[k])
  }

  /** At most one position matches `(\d{4})\s*$`. */
  lemma EndMatchUnique(d: string, i: nat, j: nat)
    requires EndMatchAt(d, i) && EndMatchAt(d, j)
    ensures i == j
  {
    if i < j {
      TailHasNoDigit(d, i, j + 3);
    } else if j < i {
      TailHasNoDigit(d, j, i + 3);
    }
  }

  lemma TailHasNoDigit(d: string, i: nat, k: nat)
    requires EndMatchAt(d, i) && i + 4 <= k < |d|
    ensures !IsDigit(d[k])
  {
    assert IsSpace(d[k]);
  }

  /** A match of `(\d{4})\s*$` ends exactly where the trailing whitespace begins. */
  lemma EndMatchEndsTrimmed(d: string, i: nat)
    requires EndMatchAt(d, i)
    ensures |TrimEnd(d)| == i + 4 && FourDigitsAt(TrimEnd(d), i)
  {
    var t := TrimEnd(d);
    assert !IsSpace(d[i + 3]);
    assert i + 4 <= |t|;
    assert |t| == 0 || !IsSpace(d[|t| - 1]);
    assert |t| <= i + 4;
  }

  /** The position where `d.match(/(\d{4})\s*$/)` matches, if it does. */
  function EndMatch(d: string): (m: Option<nat>)
    ensures m.Some? ==> EndMatchAt(d, m.value)
    ensures m.None? ==> forall i :: !EndMatchAt(d, i)
  {
    var t := TrimEnd(d);
    if |t| >= 4 && FourDigitsAt(t, |t| - 4) then
      assert FourDigitsAt(d, |t| - 4);
      Some(|t| - 4)
    else
      assert forall i :: !EndMatchAt(d, i) by {
        forall i | EndMatchAt(d, i) ensures false {
          EndMatchEndsTrimmed(d, i);
        }
      }
      None
  }

  /**
   * The group at `m` is reached by a scan that entered its run of digits at `a`: the
   * scan start `from` or a run start after a non-digit. The digits from `a` through the
   * group are consecutive and `m` lies a multiple of 4 past `a`, since each match
   * resumes right after the previous one.
   */
  predicate ScanAligned(d: string, from: nat, a: nat, m: nat) {
    && from <= a <= m && m + 4 <= |d|
    && (a == from || !IsDigit(d[a - 1]))
    && (m - a) % 4 == 0
    && forall k :: a <= k < m + 4 ==> IsDigit(d[k])
  }

  /**
   * The position of the last match of `d.match(/(\d{4})/g)` when the global search
   * starts at `from`: each match is sought from the end of the previous one, so the
   * matches do not overlap.
   */
  function LastMatchFrom(d: string, from: nat): (m: Option<nat>)
    ensures m.Some? ==> from <= m.value && FourDigitsAt(d, m.value)
    ensures m.Some? ==> exists a :: ScanAligned(d, from, a, m.value)
    ensures m.Some? ==> forall j :: m.value + 4 <= j ==> !FourDigitsAt(d, j)
    ensures m.None? <==> forall j :: from <= j ==> !FourDigitsAt(d, j)
    decreases |d| - from
  {
    if from + 4 > |d| then None
    else if FourDigitsAt(d, from) then
      match LastMatchFrom(d, from + 4)
      case None =>
        assert ScanAligned(d, from, from, from);
        Some(from)
      case Some(j) =>
        var a :| ScanAligned(d, from + 4, a, j);
        if a == from + 4 then
          assert ScanAligned(d, from, from, j);
          Some(j)
        else
          assert ScanAligned(d, from, a, j);
          Some(j)
    else
      var m := LastMatchFrom(d, from + 1);
      if m.Some? then
        var a :| ScanAligned(d, from + 1, a, m.value);
        ScanPastNonGroup(d, from, a, m.value);
        m
      else m
  }

  /** A scan that moved one step past a position without a group still sees a run start. */
  lemma ScanPastNonGroup(d: string, from: nat, a: nat, m: nat)
    requires !FourDigitsAt(d, from) && from + 4 <= |d|
    requires ScanAligned(d, from + 1, a, m)
    ensures ScanAligned(d, from, a, m)
  {
    if a == from + 1 && IsDigit(d[from]) {
      assert FourDigitsAt(d, from);
    }
  }

  /** The last scanned group is unique: at most one position meets the contract above. */
  lemma LastMatchUnique(d: string, from: nat, a1: nat, m1: nat, a2: nat, m2: nat)
    requires ScanAligned(d, from, a1, m1) && ScanAligned(d, from, a2, m2)
    requires forall j :: m1 + 4 <= j ==> !FourDigitsAt(d, j)
    requires forall j :: m2 + 4 <= j ==> !FourDigitsAt(d, j)
    ensures m1 == m2
  {
    assert FourDigitsAt(d, m1) && FourDigitsAt(d, m2);
  }

  /** `parseEndYear(dates)`. */
  function ParseEndYear(dates: Option<string>): (y: int)
    ensures var d := Lower(dates.GetOr(""));
      && (Includes(d, "present") ==> y == Ongoing)
      && (!Includes(d, "present") ==>
            (forall i :: EndMatchAt(d, i) ==> y == YearAt(d, i))
            && ((forall i :: !EndMatchAt(d, i)) && LastMatchFrom(d, 0).Some? ==> y == YearAt(d, LastMatchFrom(d, 0).value))
            && (y == Unknown <==> forall i :: !FourDigitsAt(d, i)))
    ensures Unknown <= y <= Ongoing
  {
    var d := Lower(dates.GetOr(""));
    if Includes(d, "present") then Ongoing
    else match EndMatch(d)
      case Some(i) =>
        assert forall j :: EndMatchAt(d, j) ==> j == i by {
          forall j | EndMatchAt(d, j) ensures j == i { EndMatchUnique(d, i, j); }
        }
        YearAt(d, i)
      case None =>
        match LastMatchFrom(d, 0)
        case Some(j) => YearAt(d, j)
        case None => Unknown
  }

  /** A pattern whose first character never appears does not occur. */
  lemma FirstCharAbsent(d: string, pat: string)
    requires |pat| > 0 && pat[0] !in d
    ensures !Includes(d, pat)
  {
    forall i: nat | i + |pat| <= |d| ensures !OccursAt(d, pat, i) {
      assert d[i..i + |pat|][0] == d[i] && d[i] in d;
    }
  }

  /** A string without digits has no 4-digit group. */
  lemma NoDigitsNoGroup(d: string)
    requires forall k :: 0 <= k < |d| ==> !IsDigit(d[k])
    ensures forall i :: !FourDigitsAt(d, i)
  {
    forall i: nat | i + 4 <= |d| ensures !FourDigitsAt(d, i) {
      assert !IsDigit(d[i]);
    }
  }

  /** A lower-cased range without "present" that ends in a group yields that group. */
  lemma EndYearOfLowered(dates: string, d: string, i: nat)
    requires Lower(dates) == d && 'p' !in d && EndMatchAt(d, i)
    ensures ParseEndYear(Some(dates)) == YearAt(d, i)
  {
    FirstCharAbsent(d, "present");
  }

  /** A lower-cased range without "present" or a trailing group yields its last group. */
  lemma EndYearOfLastGroup(dates: string, d: string, j: nat)
    requires Lower(dates) == d && 'p' !in d && (forall i :: !EndMatchAt(d, i))
    requires LastMatchFrom(d, 0) == Some(j)
    ensures ParseEndYear(Some(dates)) == YearAt(d, j)
  {
    FirstCharAbsent(d, "present");
  }

  /** A string whose last character is neither whitespace nor a digit has no trailing group. */
  lemma NoTrailingGroup(d: string)
    requires |d| > 0 && !IsSpace(d[|d| - 1]) && !IsDigit(d[|d| - 1])
    ensures forall i :: !EndMatchAt(d, i)
  {
    forall i: nat | FourDigitsAt(d, i) ensures !EndMatchAt(d, i) {
      assert IsDigit(d[i + 3]);
      assert i + 4 <= |d| - 1;
    }
  }

  /** "Jun 2017 - Aug 2019" ends in 2019. */
  lemma EndYearOfClosedRange()
    ensures ParseEndYear(Some("Jun 2017 - Aug 2019")) == 2019
  {
    var d := "jun 2017 - aug 2019";
    assert Lower("Jun 2017 - Aug 2019") == d;
    assert EndMatchAt(d, 15) && YearAt(d, 15) == 2019;
    EndYearOfLowered("Jun 2017 - Aug 2019", d, 15);
  }

  /** "2021 - Present" is ongoing. */
  lemma EndYearOfOngoingRange()
    ensures ParseEndYear(Some("2021 - Present")) == Ongoing
  {
    var d := "2021 - present";
    assert Lower("2021 - Present") == d;
    assert OccursAt(d, "present", 7);
  }

  /** "unknown" has no year. */
  lemma EndYearOfUndated()
    ensures ParseEndYear(Some("unknown")) == Unknown
  {
    var d := "unknown";
    assert Lower(d) == d;
    FirstCharAbsent(d, "present");
    NoDigitsNoGroup(d);
  }

  /**
   * The anchored rule and the global rule disagree on "12345": the anchored match is
   * "2345", the last non-overlapping group is "1234". The anchored rule wins.
   */
  lemma EndYearPrefersAnchoredGroup()
    ensures EndMatch("12345") == Some(1) && LastMatchFrom("12345", 0) == Some(0)
    ensures ParseEndYear(Some("12345")) == 2345
  {
    var d := "12345";
    assert Lower(d) == d;
    FirstCharAbsent(d, "present");
    assert EndMatchAt(d, 1);
    EndMatchUnique(d, 1, EndMatch(d).value);
    assert FourDigitsAt(d, 0) && !FourDigitsAt(d, 4);
    assert YearAt(d, 1) == 2345;
  }

  /** Without a trailing group the last group counts: "2016-2018 remote" ends in 2018. */
  lemma EndYearFallsBackToLastGroup()
    ensures ParseEndYear(Some("2016-2018 remote")) == 2018
  {
    var d := "2016-2018 remote";
    FallbackLowered(d);
    FallbackHasNoTrailingGroup(d);
    FallbackLastGroup(d);
    EndYearOfLastGroup(d, d, 5);
  }

  lemma FallbackLowered(d: string)
    requires d == "2016-2018 remote"
    ensures Lower(d) == d && 'p' !in d
  {
  }

  lemma FallbackHasNoTrailingGroup(d: string)
    requires d == "2016-2018 remote"
    ensures forall i :: !EndMatchAt(d, i)
  {
    assert !IsSpace(d[|d| - 1]) && !IsDigit(d[|d| - 1]);
    NoTrailingGroup(d);
  }

  lemma FallbackLastGroup(d: string)
    requires d == "2016-2018 remote"
    ensures LastMatchFrom(d, 0) == Some(5) && FourDigitsAt(d, 5) && YearAt(d, 5) == 2018
  {
    assert d[4] == '-';
    assert FourDigitsAt(d, 0) && !FourDigitsAt(d, 4) && FourDigitsAt(d, 5);
    forall j: nat | 9 <= j ensures !FourDigitsAt(d, j) {
      if j + 4 <= |d| {
        assert d[j] in " rem";
      }
    }
    assert LastMatchFrom(d, 9) == None;
    assert LastMatchFrom(d, 5) == Some(5);
    assert LastMatchFrom(d, 4) == Some(5);
  }

  // ---- sortLatestFirst ----

  /** Keys never increase from left to right. */
  ghost predicate NonIncreasing<T>(s: seq<T>, key: T -> int) {
    forall i, j :: 0 <= i < j < |s| ==> key(s[i]) >= key(s[j])
  }

  /** The elements of `s` whose key is `k`, in their order in `s`. */
  ghost function WithKey<T>(s: seq<T>, key: T -> int, k: int): seq<T> {
    if s == [] then [] else (if key(s[0]) == k then [s[0]] else []) + WithKey(s[1..], key, k)
  }

  /** Puts `x` in front of the first element whose key is not larger than its own. */
  function InsertByKey<T>(x: T, s: seq<T>, key: T -> int): (r: seq<T>)
    ensures multiset(r) == multiset(s) + multiset{x}
    ensures forall i :: 0 <= i < |r| ==> r[i] == x || r[i] in s
    ensures NonIncreasing(s, key) ==> NonIncreasing(r, key)
  {
    if s == [] then [x]
    else if key(s[0]) <= key(x) then
      InsertInFront(x, s, key);
      [x] + s
    else
      assert s == [s[0]] + s[1..];
      var rest := InsertByKey(x, s[1..], key);
      InsertBehind(x, s, rest, key);
      [s[0]] + rest
  }

  /** A sequence in order stays in order with a first element at least as large. */
  lemma ConsNonIncreasing<T>(h: T, t: seq<T>, key: T -> int)
    requires NonIncreasing(t, key)
    requires forall i :: 0 <= i < |t| ==> key(t[i]) <= key(h)
    ensures NonIncreasing([h] + t, key)
  {
    var r := [h] + t;
    forall i, j | 0 <= i < j < |r| ensures key(r[i]) >= key(r[j]) {
      assert r[j] == t[j - 1];
      if i > 0 {
        assert r[i] == t[i - 1];
      }
    }
  }

  lemma InsertInFront<T>(x: T, s: seq<T>, key: T -> int)
    requires |s| > 0 && key(s[0]) <= key(x)
    ensures NonIncreasing(s, key) ==> NonIncreasing([x] + s, key)
  {
    if NonIncreasing(s, key) {
      forall i | 0 <= i < |s| ensures key(s[i]) <= key(x) {
        if i > 0 {
          assert key(s[0]) >= key(s[i]);
        }
      }
      ConsNonIncreasing(x, s, key);
    }
  }

  lemma InsertBehind<T>(x: T, s: seq<T>, rest: seq<T>, key: T -> int)
    requires |s| > 0 && key(s[0]) > key(x)
    requires forall i :: 0 <= i < |rest| ==> rest[i] == x || rest[i] in s[1..]
    requires NonIncreasing(s[1..], key) ==> NonIncreasing(rest, key)
    ensures NonIncreasing(s, key) ==> NonIncreasing([s[0]] + rest, key)
  {
    if NonIncreasing(s, key) {
      var t := s[1..];
      assert NonIncreasing(t, key) by {
        forall i, j | 0 <= i < j < |t| ensures key(t[i]) >= key(t[j]) {
          assert t[i] == s[i + 1] && t[j] == s[j + 1];
        }
      }
      forall i | 0 <= i < |rest| ensures key(rest[i]) <= key(s[0]) {
        if rest[i] != x {
          var j :| 0 <= j < |t| && t[j] == rest[i];
          assert s[j + 1] == t[j];
        }
      }
      ConsNonIncreasing(s[0], rest, key);
    }
  }

  /**
   * A stable sort, latest first: `Array.prototype.sort` is stable, and the comparator
   * `parseEndYear(b[key]) - parseEndYear(a[key])` orders by decreasing key.
   */
  function SortByKey<T>(s: seq<T>, key: T -> int): (r: seq<T>)
    ensures multiset(r) == multiset(s)
    ensures NonIncreasing(r, key)
  {
    if s == [] then []
    else
      assert s == [s[0]] + s[1..];
      InsertByKey(s[0], SortByKey(s[1..], key), key)
  }

  lemma {:induction false} WithKeyAppend<T>(a: seq<T>, b: seq<T>, key: T -> int, k: int)
    ensures WithKey(a + b, key, k) == WithKey(a, key, k) + WithKey(b, key, k)
  {
    if a == [] {
      assert a + b == b;
    } else {
      var ab := a + b;
      assert ab != [] && ab[0] == a[0] && ab[1..] == a[1..] + b;
      var head := if key(a[0]) == k then [a[0]] else [];
      assert WithKey(ab, key, k) == head + WithKey(a[1..] + b, key, k);
      assert WithKey(a, key, k) == head + WithKey(a[1..], key, k);
      WithKeyAppend(a[1..], b, key, k);
    }
  }

  /** Inserting `x` puts it before every element with its own key. */
  lemma {:induction false} InsertStable<T>(x: T, s: seq<T>, key: T -> int, k: int)
    ensures WithKey(InsertByKey(x, s, key), key, k) == WithKey([x], key, k) + WithKey(s, key, k)
  {
    if s == [] {
      assert WithKey(s, key, k) == [];
    } else if key(s[0]) <= key(x) {
      WithKeyAppend([x], s, key, k);
    } else {
      InsertStable(x, s[1..], key, k);
      InsertStableBehind(x, s, InsertByKey(x, s[1..], key), key, k);
    }
  }

  /** The step of `InsertStable` where `x` goes past the first element. */
  lemma InsertStableBehind<T>(x: T, s: seq<T>, rest: seq<T>, key: T -> int, k: int)
    requires |s| > 0 && key(s[0]) > key(x)
    requires WithKey(rest, key, k) == WithKey([x], key, k) + WithKey(s[1..], key, k)
    ensures WithKey([s[0]] + rest, key, k) == WithKey([x], key, k) + WithKey(s, key, k)
  {
    WithKeyAppend([s[0]], rest, key, k);
    WithKeyAppend([s[0]], s[1..], key, k);
    assert [s[0]] + s[1..] == s;
    WithKeysCommute(x, s[0], key, k);
  }

  /** Two elements with different keys can be listed in either order. */
  lemma WithKeysCommute<T>(x: T, y: T, key: T -> int, k: int)
    requires key(x) != key(y)
    ensures WithKey([x], key, k) + WithKey([y], key, k) == WithKey([y], key, k) + WithKey([x], key, k)
  {
    WithKeySingle(x, key, k);
    WithKeySingle(y, key, k);
  }

  lemma WithKeySingle<T>(y: T, key: T -> int, k: int)
    ensures WithKey([y], key, k) == if key(y) == k then [y] else []
  {
    assert [y][1..] == [];
  }

  /** Sorting keeps the relative order of the elements that share a key. */
  lemma {:induction false} SortStable<T>(s: seq<T>, key: T -> int)
    ensures forall k :: WithKey(SortByKey(s, key), key, k) == WithKey(s, key, k)
  {
    if s != [] {
      SortStable(s[1..], key);
      forall k ensures WithKey(SortByKey(s, key), key, k) == WithKey(s, key, k) {
        SortStableStep(s, SortByKey(s[1..], key), key, k);
      }
    }
  }

  lemma SortStableStep<T>(s: seq<T>, sortedTail: seq<T>, key: T -> int, k: int)
    requires s != []
    requires WithKey(sortedTail, key, k) == WithKey(s[1..], key, k)
    ensures WithKey(InsertByKey(s[0], sortedTail, key), key, k) == WithKey(s, key, k)
  {
    InsertStable(s[0], sortedTail, key, k);
    WithKeyAppend([s[0]], s[1..], key, k);
    assert [s[0]] + s[1..] == s;
  }

  /** The sort key of `sortLatestFirst`: the end year of the entry's date field. */
  function EndYearOf<T>(dates: T -> Option<string>): T -> int {
    t => ParseEndYear(dates(t))
  }

  /**
   * `sortLatestFirst(items, key)`, with `dates` reading the `key` field. `None` is a
   * value that is not an array. The result is a new sequence: the input is unchanged.
   */
  function SortLatestFirst<T>(items: Option<seq<T>>, dates: T -> Option<string>): (r: seq<T>)
    ensures items.None? ==> r == []
    ensures multiset(r) == multiset(items.GetOr([]))
    ensures NonIncreasing(r, EndYearOf(dates))
    ensures forall k :: WithKey(r, EndYearOf(dates), k) == WithKey(items.GetOr([]), EndYearOf(dates), k)
  {
    var arr := items.GetOr([]);
    SortStable(arr, EndYearOf(dates));
    SortByKey(arr, EndYearOf(dates))
  }
}
