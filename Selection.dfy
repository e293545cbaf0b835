/**
 * `toggleSkill`: a token already in the selection is removed (every occurrence),
 * any other token is appended at the end.
 */
module Selection {
  import opened Seqs
  import opened Tokens

  /** `selected.filter((x) => x !== s)`. */
  function RemoveAll(selected: seq<string>, s: string): (r: seq<string>)
    ensures s !in r
    ensures forall x :: x != s ==> (x in r <==> x in selected)
    ensures forall x :: x != s ==> multiset(r)[x] == multiset(selected)[x]
    ensures IsSubseq(r, selected)
  {
    if selected == [] then []
    else
      assert selected == [selected[0]] + selected[1..];
      if selected[0] == s then RemoveAll(selected[1..], s)
      else [selected[0]] + RemoveAll(selected[1..], s)
  }

  /** `toggleSkill(selected, s)`. */
  function Toggle(selected: seq<string>, s: string): (r: seq<string>)
    ensures s in r <==> s !in selected
    ensures forall x :: x != s ==> (x in r <==> x in selected)
    ensures s !in selected ==> r == selected + [s]
    ensures s in selected ==> r == RemoveAll(selected, s)
  {
    if s in selected then RemoveAll(selected, s) else selected + [s]
  }

  /** Removing a token that is not there changes nothing. */
  lemma {:induction false} RemoveAbsent(selected: seq<string>, s: string)
    requires s !in selected
    ensures RemoveAll(selected, s) == selected
  {
    if selected != [] {
      RemoveAbsent(selected[1..], s);
      assert selected == [selected[0]] + selected[1..];
    }
  }

  /** Removal distributes over concatenation. */
  lemma {:induction false} RemoveAppend(a: seq<string>, b: seq<string>, s: string)
    ensures RemoveAll(a + b, s) == RemoveAll(a, s) + RemoveAll(b, s)
  {
    if a == [] {
      assert a + b == b;
    } else {
      assert (a + b)[0] == a[0] && (a + b)[1..] == a[1..] + b;
      RemoveAppend(a[1..], b, s);
    }
  }

  /** A token that is in the selection is taken out, with the others kept in their order. */
  lemma TogglePresent(selected: seq<string>, s: string)
    requires s in selected
    ensures Toggle(selected, s) == RemoveAll(selected, s)
    ensures |Toggle(selected, s)| < |selected|
  {
    var r := RemoveAll(selected, s);
    SubseqLength(r, selected);
    if |r| == |selected| {
      SubseqSameLength(r, selected);
    }
  }

  /** A subsequence as long as the whole is the whole. */
  lemma {:induction false} SubseqSameLength(a: seq<string>, b: seq<string>)
    requires IsSubseq(a, b) && |a| == |b|
    ensures a == b
    decreases |b|
  {
    if a != [] {
      if a[0] == b[0] {
        SubseqSameLength(a[1..], b[1..]);
        assert a == [a[0]] + a[1..] && b == [b[0]] + b[1..];
      } else {
        SubseqLength(a, b[1..]);
      }
    }
  }

  /** Toggling a token that is not selected and then toggling it again restores the selection. */
  lemma ToggleTwiceAbsent(selected: seq<string>, s: string)
    requires s !in selected
    ensures Toggle(Toggle(selected, s), s) == selected
  {
    assert Toggle(selected, s) == selected + [s];
    RemoveAppend(selected, [s], s);
    RemoveAbsent(selected, s);
    assert RemoveAll([s], s) == [];
  }

  /**
   * Toggling a selected token twice removes every copy and puts one back at the end,
   * so in general it is not its own inverse there.
   */
  lemma ToggleTwicePresent(selected: seq<string>, s: string)
    requires s in selected
    ensures Toggle(Toggle(selected, s), s) == RemoveAll(selected, s) + [s]
  {
  }

  /**
   * Two toggles give back the selection exactly when the token is not selected, or
   * occurs once, as the last element.
   */
  lemma ToggleTwiceRestores(selected: seq<string>, s: string)
    ensures Toggle(Toggle(selected, s), s) == selected <==>
      (s !in selected || (selected[|selected| - 1] == s && s !in selected[..|selected| - 1]))
  {
    if s !in selected {
      ToggleTwiceAbsent(selected, s);
    } else {
      var n := |selected|;
      var front := selected[..n - 1];
      assert selected == front + [s] <==> selected[n - 1] == s;
      if selected[n - 1] == s && s !in front {
        assert selected == front + [s];
        RemoveAppend(front, [s], s);
        RemoveAbsent(front, s);
        assert RemoveAll([s], s) == [];
      }
      if Toggle(Toggle(selected, s), s) == selected {
        assert RemoveAll(selected, s) + [s] == selected;
        assert RemoveAll(selected, s) == front;
      }
    }
  }

  /** A selected token that is the last element, once, comes back in place. */
  lemma ToggleTwiceKeepsLast()
    ensures Toggle(Toggle(["b", "a"], "a"), "a") == ["b", "a"]
  {
    var selected := ["b", "a"];
    assert selected[..1] == ["b"] && "a" != "b";
    ToggleTwiceRestores(selected, "a");
  }

  /** The smallest selection on which a double toggle is not the identity. */
  lemma ToggleTwiceReorders()
    ensures Toggle(Toggle(["a", "b"], "a"), "a") == ["b", "a"]
  {
    assert "a" != "b";
    assert RemoveAll(["a", "b"], "a") == ["b"];
    ToggleTwicePresent(["a", "b"], "a");
  }

  /** No duplicates in, no duplicates out. */
  predicate NoDuplicates(xs: seq<string>) {
    forall i, j :: 0 <= i < j < |xs| ==> xs[i] != xs[j]
  }

  lemma {:induction false} RemoveKeepsNoDuplicates(selected: seq<string>, s: string)
    requires NoDuplicates(selected)
    ensures NoDuplicates(RemoveAll(selected, s))
  {
    if selected != [] {
      RemoveKeepsNoDuplicates(selected[1..], s);
      var rest := RemoveAll(selected[1..], s);
      if selected[0] != s {
        assert selected[0] !in selected[1..];
        assert multiset(rest)[selected[0]] == multiset(selected[1..])[selected[0]] == 0;
      }
    }
  }

  lemma ToggleKeepsNoDuplicates(selected: seq<string>, s: string)
    requires NoDuplicates(selected)
    ensures NoDuplicates(Toggle(selected, s))
  {
    if s in selected {
      RemoveKeepsNoDuplicates(selected, s);
    }
  }

  /** Every element is a token (non-empty, in slug form). */
  predicate AllTokens(xs: seq<string>) {
    forall i :: 0 <= i < |xs| ==> IsToken(xs[i])
  }

  /** Toggling a token keeps a selection made of tokens. */
  lemma ToggleKeepsTokens(selected: seq<string>, s: string)
    requires AllTokens(selected) && IsToken(s)
    ensures AllTokens(Toggle(selected, s))
  {
    var r := Toggle(selected, s);
    forall i | 0 <= i < |r| ensures IsToken(r[i]) {
      assert r[i] in r;
      if r[i] != s {
        assert r[i] in selected;
      }
    }
  }
}
