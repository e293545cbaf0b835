/** Generic facts about sequences used by the filter and the selection. */
module Seqs {
  /** `a` can be obtained from `b` by deleting elements (order is kept). */
  predicate IsSubseq<T(==)>(a: seq<T>, b: seq<T>)
    decreases |b|
  {
    if a == [] then true
    else if b == [] then false
    else if a[0] == b[0] then IsSubseq(a[1..], b[1..])
    else IsSubseq(a, b[1..])
  }

  lemma {:induction false} SubseqOfTail<T>(a: seq<T>, b: seq<T>)
    requires |b| > 0 && IsSubseq(a, b[1..])
    ensures IsSubseq(a, b)
    decreases |b|, 0
  {
    if a != [] && a[0] == b[0] {
      // a lies inside b[1..], so the rest of a does too
      SubseqDropHead(a, b[1..]);
    }
  }

  /** A subsequence with its first element dropped is still a subsequence. */
  lemma {:induction false} SubseqDropHead<T>(a: seq<T>, b: seq<T>)
    requires a != [] && IsSubseq(a, b)
    ensures IsSubseq(a[1..], b)
    decreases |b|, 1
  {
    if a[0] == b[0] {
      if |b| > 0 { SubseqOfTail(a[1..], b); }
    } else {
      SubseqDropHead(a, b[1..]);
      SubseqOfTail(a[1..], b);
    }
  }

  lemma {:induction false} SubseqLength<T>(a: seq<T>, b: seq<T>)
    requires IsSubseq(a, b)
    ensures |a| <= |b|
    decreases |b|
  {
    if a != [] {
      if a[0] == b[0] { SubseqLength(a[1..], b[1..]); } else { SubseqLength(a, b[1..]); }
    }
  }

  lemma {:induction false} SubseqReflexive<T>(s: seq<T>)
    ensures IsSubseq(s, s)
  {
    if s != [] { SubseqReflexive(s[1..]); }
  }

  /**
   * The head and the tail of a concatenation with a non-empty front part. Stated
   * generically so that callers whose context is full of string facts get this
   * sequence equality without the solver searching for it there.
   */
  lemma ConsAppend<T>(a: seq<T>, b: seq<T>)
    requires a != []
    ensures (a + b)[0] == a[0] && (a + b)[1..] == a[1..] + b
  {
  }

  /**
   * A two-element sequence is the display of its two elements; a generic lemma for
   * the same reason as `ConsAppend`.
   */
  lemma PairByIndex<T>(r: seq<T>, x: T, y: T)
    requires |r| == 2 && r[0] == x && r[1] == y
    ensures r == [x, y]
  {
  }

  /** One step of mapping `f` over a sequence: the head's image in front of the tail's images. */
  lemma MapStep<A, B>(xs: seq<A>, y: B, rest: seq<B>, f: A -> B)
    requires xs != [] && y == f(xs[0])
    requires |rest| == |xs| - 1 && forall i :: 0 <= i < |rest| ==> rest[i] == f(xs[1..][i])
    ensures |[y] + rest| == |xs| && forall i :: 0 <= i < |xs| ==> ([y] + rest)[i] == f(xs[i])
  {
    forall i | 0 < i < |xs| ensures ([y] + rest)[i] == f(xs[i]) {
      assert xs[1..][i - 1] == xs[i];
    }
  }
}
