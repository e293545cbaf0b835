/**
 * The filtering part of `renderProjects`: which projects are listed for the current
 * selection, and the text of the filter status line.
 */
module Projects {
  import opened Wrappers
  import opened Seqs
  import opened Tokens
  import opened Query

  /** A project record; only the fields the filter reads. `skills` may be absent. */
  datatype Project = Project(title: string, skills: Option<seq<string>>)

  /** `(p.skills || []).map(slug)`: a missing list has no tokens, and every token is in slug form. */
  function ProjectTokens(p: Project): (tokens: seq<string>)
    ensures p.skills.None? ==> tokens == []
    ensures |tokens| == |p.skills.GetOr([])|
    ensures forall i :: 0 <= i < |tokens| ==> tokens[i] == Slug(p.skills.GetOr([])[i]) && IsSlugNormal(tokens[i])
  {
    SlugAll(p.skills.GetOr([]))
  }

  /** `selected.every((ss) => tokens.includes(ss))`: every selected token is among `tokens`. */
  predicate Covers(tokens: seq<string>, selected: seq<string>)
    ensures selected == [] ==> Covers(tokens, selected)
  {
    forall i :: 0 <= i < |selected| ==> selected[i] in tokens
  }

  /** Covering is inclusion of the set of selected tokens in the set of `tokens`. */
  lemma CoversAsSets(tokens: seq<string>, selected: seq<string>)
    ensures Covers(tokens, selected) <==> (set t | t in selected) <= (set t | t in tokens)
  {
    var wanted := set t | t in selected;
    var offered := set t | t in tokens;
    assert Covers(tokens, selected) ==> wanted <= offered;
    assert wanted <= offered ==> Covers(tokens, selected) by {
      if wanted <= offered {
        forall i | 0 <= i < |selected| ensures selected[i] in tokens {
          assert selected[i] in wanted;
        }
      }
    }
  }

  /** A project matches when it has every selected token (AND, not OR). */
  predicate Matches(p: Project, selected: seq<string>)
    ensures selected == [] ==> Matches(p, selected)
  {
    Covers(ProjectTokens(p), selected)
  }

  /** A project matches exactly when, for every selected token, one of its raw skills slugs to it. */
  lemma MatchesByRawSkills(p: Project, selected: seq<string>)
    ensures Matches(p, selected) <==> forall t :: t in selected ==> HasSkillWithToken(p, t)
  {
    forall t ensures t in ProjectTokens(p) <==> HasSkillWithToken(p, t) {
      TokenOfSomeSkill(p, t);
    }
  }

  /** One of the raw skills of `p` slugs to `t`. */
  predicate HasSkillWithToken(p: Project, t: string) {
    exists j :: 0 <= j < |p.skills.GetOr([])| && Slug(p.skills.GetOr([])[j]) == t
  }

  lemma TokenOfSomeSkill(p: Project, t: string)
    ensures t in ProjectTokens(p) <==> HasSkillWithToken(p, t)
  {
    var tokens := ProjectTokens(p);
    if t in tokens {
      var j :| 0 <= j < |tokens| && tokens[j] == t;
      assert Slug(p.skills.GetOr([])[j]) == t;
    }
    if HasSkillWithToken(p, t) {
      var j :| 0 <= j < |p.skills.GetOr([])| && Slug(p.skills.GetOr([])[j]) == t;
      assert tokens[j] == t;
    }
  }

  /** `projects.filter(...)` with the predicate above. */
  function FilterMatching(projects: seq<Project>, selected: seq<string>): (r: seq<Project>)
    ensures IsSubseq(r, projects)
    ensures forall p :: p in r <==> p in projects && Matches(p, selected)
  {
    if projects == [] then []
    else
      assert projects == [projects[0]] + projects[1..];
      var rest := FilterMatching(projects[1..], selected);
      if Matches(projects[0], selected) then [projects[0]] + rest
      else
        SubseqOfTail(rest, projects);
        rest
  }

  /** The projects listed: all of them when nothing is selected, else the matching ones. */
  function FilterProjects(projects: seq<Project>, selected: seq<string>): (r: seq<Project>)
    ensures selected == [] ==> r == projects
    ensures IsSubseq(r, projects) && |r| <= |projects|
    ensures forall p :: p in r <==> p in projects && Matches(p, selected)
  {
    SubseqReflexive(projects);
    var r := if |selected| > 0 then FilterMatching(projects, selected) else projects;
    SubseqLength(r, projects);
    r
  }

  /** The filter keeps every copy of a matching project and no copy of any other. */
  lemma {:induction false} FilterKeepsCopies(projects: seq<Project>, selected: seq<string>, p: Project)
    ensures multiset(FilterMatching(projects, selected))[p]
      == if Matches(p, selected) then multiset(projects)[p] else 0
  {
    if projects != [] {
      FilterKeepsCopies(projects[1..], selected, p);
      assert projects == [projects[0]] + projects[1..];
      FilterCons(projects[0], projects[1..], selected);
    }
  }

  /** The listed projects are the matching ones with their multiplicities; all of them when nothing is selected. */
  lemma ListedCopies(projects: seq<Project>, selected: seq<string>, p: Project)
    ensures multiset(FilterProjects(projects, selected))[p]
      == if Matches(p, selected) then multiset(projects)[p] else 0
  {
    if |selected| > 0 {
      FilterKeepsCopies(projects, selected, p);
    }
  }

  /** The empty-selection shortcut agrees with the filter: every project matches the empty selection. */
  lemma {:induction false} FilterEmptySelection(projects: seq<Project>)
    ensures FilterMatching(projects, []) == projects
  {
    if projects != [] {
      FilterEmptySelection(projects[1..]);
      assert projects == [projects[0]] + projects[1..];
    }
  }

  /** Selecting one more token can only shorten the list (AND, not OR). */
  lemma {:induction false} FilterNarrows(projects: seq<Project>, selected: seq<string>, t: string)
    ensures IsSubseq(FilterProjects(projects, selected + [t]), FilterProjects(projects, selected))
  {
    if selected == [] {
      FilterEmptySelection(projects);
    }
    FilterMatchingNarrows(projects, selected, t);
  }

  lemma {:induction false} FilterMatchingNarrows(projects: seq<Project>, selected: seq<string>, t: string)
    ensures IsSubseq(FilterMatching(projects, selected + [t]), FilterMatching(projects, selected))
  {
    if projects != [] {
      var p := projects[0];
      FilterMatchingNarrows(projects[1..], selected, t);
      var wide := FilterMatching(projects[1..], selected);
      var narrow := FilterMatching(projects[1..], selected + [t]);
      if Matches(p, selected + [t]) {
        assert forall i :: 0 <= i < |selected| ==> selected[i] == (selected + [t])[i];
        assert Matches(p, selected);
        assert ([p] + narrow)[1..] == narrow && ([p] + wide)[1..] == wide;
      } else if Matches(p, selected) {
        SubseqOfTail(narrow, [p] + wide);
      }
    }
  }

  /** The filter depends only on which tokens are selected, not on their order or repetition. */
  lemma FilterUsesSetOfTokens(projects: seq<Project>, s1: seq<string>, s2: seq<string>)
    requires forall x :: x in s1 <==> x in s2
    ensures FilterMatching(projects, s1) == FilterMatching(projects, s2)
  {
    if projects != [] {
      var p := projects[0];
      assert Matches(p, s1) == Matches(p, s2) by {
        if Matches(p, s1) {
          forall i | 0 <= i < |s2| ensures s2[i] in ProjectTokens(p) {
            assert s2[i] in s1;
          }
        }
        if Matches(p, s2) {
          forall i | 0 <= i < |s1| ensures s1[i] in ProjectTokens(p) {
            assert s1[i] in s2;
          }
        }
      }
      FilterUsesSetOfTokens(projects[1..], s1, s2);
    }
  }

  // ---- the status line ----

  /** The character of the decimal digit `d`. */
  function DigitChar(d: nat): (c: char)
    requires d < 10
    ensures '0' <= c <= '9' && c as int - '0' as int == d
  {
    ('0' as int + d) as char
  }

  /** The decimal numeral of `n` (template-literal interpolation of a length). */
  function Decimal(n: nat): (s: string)
    ensures |s| >= 1
    ensures forall i :: 0 <= i < |s| ==> '0' <= s[i] <= '9'
    ensures s[0] == '0' ==> n == 0
    ensures n == 0 ==> s == "0"
  {
    if n < 10 then [DigitChar(n)] else Decimal(n / 10) + [DigitChar(n % 10)]
  }

  /** Reads a decimal numeral back. */
  function DecimalValue(s: string): nat
    requires forall i :: 0 <= i < |s| ==> '0' <= s[i] <= '9'
  {
    if s == [] then 0 else 10 * DecimalValue(s[..|s| - 1]) + (s[|s| - 1] as int - '0' as int)
  }

  /** The numeral of a count reads back as that count. */
  lemma {:induction false} DecimalRoundTrip(n: nat)
    ensures DecimalValue(Decimal(n)) == n
  {
    if n >= 10 {
      DecimalRoundTrip(n / 10);
      var s := Decimal(n);
      assert s[..|s| - 1] == Decimal(n / 10);
      assert DecimalValue(s) == 10 * (n / 10) + n % 10;
    }
  }

  /**
   * The status text `filter: skill=a,b :: X/Y`, or `filter: none :: X/Y` with nothing
   * selected, for `shown` of `total` projects listed.
   */
  function StatusLine(selected: seq<string>, shown: nat, total: nat): (line: string)
    ensures var counts := Decimal(shown) + "/" + Decimal(total);
      && |line| >= 16 + |counts|
      && line[|line| - |counts|..] == counts
      && (|selected| > 0 <==> line[..14] == "filter: skill=")
      && (|selected| > 0 ==> line[14..|line| - |counts|] == Join(selected) + " :: ")
      && (|selected| == 0 ==> line[..|line| - |counts|] == "filter: none :: ")
  {
    var counts := Decimal(shown) + "/" + Decimal(total);
    if |selected| > 0 then
      var line := "filter: skill=" + (Join(selected) + " :: ") + counts;
      assert |Join(selected) + " :: "| >= 4;
      ThreeParts("filter: skill=", Join(selected) + " :: ", counts);
      assert line == "filter: skill=" + Join(selected) + " :: " + counts;
      line
    else
      var line := "filter: none :" + ": " + counts;
      ThreeParts("filter: none :", ": ", counts);
      assert line[..|line| - |counts|] == "filter: none :: ";
      assert "filter: none :"[8] != "filter: skill="[8];
      line
  }

  /** How slices of `head + middle + tail` recover the three pieces. */
  lemma ThreeParts(head: string, middle: string, tail: string)
    ensures var line := head + middle + tail;
      && line[..|head|] == head
      && line[|head|..|line| - |tail|] == middle
      && line[|line| - |tail|..] == tail
  {
    var line := head + middle + tail;
    assert line[..|head|] == head;
    assert line[|head|..|line| - |tail|] == middle;
    assert line[|line| - |tail|..] == tail;
  }

  /**
   * Two projects, one with skills `a` and `b`, one with `a` only. Selecting `a,b`
   * lists the first alone and the status reads `filter: skill=a,b :: 1/2`; selecting
   * nothing lists both.
   */
  lemma FilterExample(a: string, b: string, p1: Project, p2: Project)
    requires IsToken(a) && IsToken(b) && a != b
    requires p1.skills == Some([a, b]) && p2.skills == Some([a])
    ensures FilterProjects([p1, p2], [a, b]) == [p1]
    ensures FilterProjects([p1, p2], []) == [p1, p2]
    ensures StatusLine([a, b], |FilterProjects([p1, p2], [a, b])|, 2)
      == "filter: skill=" + a + "," + b + " :: 1/2"
  {
    ExampleFilter(a, b, p1, p2);
    ExampleStatus(a, b);
  }

  lemma ExampleFilter(a: string, b: string, p1: Project, p2: Project)
    requires IsToken(a) && IsToken(b) && a != b
    requires p1.skills == Some([a, b]) && p2.skills == Some([a])
    ensures FilterMatching([p1, p2], [a, b]) == [p1]
  {
    ExampleMatches(a, b, p1, p2);
    FilterKeepsFirst(p1, p2, [a, b]);
  }

  /** Of a matching project and a non-matching one, the filter keeps the first. */
  lemma FilterKeepsFirst(p1: Project, p2: Project, selected: seq<string>)
    requires Matches(p1, selected) && !Matches(p2, selected)
    ensures FilterMatching([p1, p2], selected) == [p1]
  {
    PairAsCons(p1, p2);
    FilterCons(p2, [], selected);
    FilterCons(p1, [p2], selected);
  }

  /**
   * The two displays `FilterCons` produces for a pair, stated on their own so that the
   * proof of `FilterKeepsFirst` does not have to unfold them among the project facts.
   */
  lemma PairAsCons<T>(x: T, y: T)
    ensures [y] + [] == [y] && [x] + [y] == [x, y]
  {
  }

  lemma ExampleMatches(a: string, b: string, p1: Project, p2: Project)
    requires IsToken(a) && IsToken(b) && a != b
    requires p1.skills == Some([a, b]) && p2.skills == Some([a])
    ensures Matches(p1, [a, b]) && !Matches(p2, [a, b])
  {
    ExampleTokensOfFirst(a, b, p1);
    ExampleTokensOfSecond(a, p2);
    ExampleCovers(a, b);
  }

  lemma ExampleTokensOfFirst(a: string, b: string, p: Project)
    requires IsToken(a) && IsToken(b) && p.skills == Some([a, b])
    ensures ProjectTokens(p) == [a, b]
  {
    TokensOfNormal(p);
  }

  lemma ExampleTokensOfSecond(a: string, p: Project)
    requires IsToken(a) && p.skills == Some([a])
    ensures ProjectTokens(p) == [a]
  {
    TokensOfNormal(p);
  }

  lemma ExampleCovers(a: string, b: string)
    requires a != b
    ensures Covers([a, b], [a, b]) && !Covers([a], [a, b])
  {
    assert [a, b][1] == b;
  }

  /** A project whose skills are already tokens is matched on those skills as written. */
  lemma TokensOfNormal(p: Project)
    requires p.skills.Some?
    requires forall i :: 0 <= i < |p.skills.value| ==> IsSlugNormal(p.skills.value[i])
    ensures ProjectTokens(p) == p.skills.value
  {
    SlugAllKeepsNormal(p.skills.value);
  }

  /** One step of the filter. */
  lemma FilterCons(p: Project, rest: seq<Project>, selected: seq<string>)
    ensures FilterMatching([p] + rest, selected)
      == (if Matches(p, selected) then [p] else []) + FilterMatching(rest, selected)
  {
    assert ([p] + rest)[0] == p && ([p] + rest)[1..] == rest;
  }

  lemma ExampleStatus(a: string, b: string)
    ensures StatusLine([a, b], 1, 2) == "filter: skill=" + a + "," + b + " :: 1/2"
  {
    assert Join([a, b]) == a + "," + b by {
      assert [a, b][1..] == [b];
    }
    assert Decimal(1) == "1" && Decimal(2) == "2";
  }
}
