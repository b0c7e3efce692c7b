/** Concatenation, and sequences with one element taken out. */
module Seqs {
  lemma Associative<T>(a: seq<T>, b: seq<T>, c: seq<T>)
    ensures a + b + c == a + (b + c)
  {
  }

  lemma FirstApart<T>(q: seq<T>, rest: seq<T>)
    requires q != []
    ensures q + rest == [q[0]] + (q[1..] + rest)
  {
  }

  lemma SameFirst<T>(m: T, rest: seq<T>, q: seq<T>, more: seq<T>)
    requires q != [] && [m] + rest == q + more
    ensures m == q[0] && rest == q[1..] + more
  {
    assert m == (q + more)[0] && rest == (q + more)[1..];
  }

  lemma LastApart<T>(q: seq<T>, longer: seq<T>)
    requires q <= longer && |longer| == |q| + 1
    ensures longer == q + [longer[|q|]]
  {
  }

  function Without<T>(q: seq<T>, i: nat): (r: seq<T>)
    requires i < |q|
    ensures |r| == |q| - 1
  {
    q[..i] + q[i + 1..]
  }

  lemma WithoutFirst<T>(q: seq<T>)
    requires q != []
    ensures Without(q, 0) == q[1..]
  {
  }

  lemma WithoutInFront<T>(p: seq<T>, q: seq<T>, i: nat)
    requires i < |p|
    ensures (p + q)[i] == p[i] && Without(p + q, i) == Without(p, i) + q
  {
  }

  lemma WithoutLast<T>(p: seq<T>, x: T)
    ensures Without(p + [x], |p|) == p
  {
  }

  lemma WithoutMiddle<T>(p: seq<T>, q: seq<T>, i: nat)
    requires i < |q|
    ensures (p + q)[|p| + i] == q[i] && Without(p + q, |p| + i) == p + Without(q, i)
  {
  }

  /** A slice in front of which its predecessor is put. */
  lemma SliceLonger<T>(all: seq<T>, tail: seq<T>, q: seq<T>, i: nat, k: nat)
    requires i + k < |q| && tail == q[i + 1..i + 1 + k] && all == [q[i]] + tail
    ensures all == q[i..i + k + 1]
  {
  }

  /** Dropping the first and the last element in either order. */
  lemma DropBothEnds<T>(q: seq<T>)
    requires |q| >= 2
    ensures q[..|q| - 1][1..] == q[1..][..|q| - 2] && q[1..][|q| - 2] == q[|q| - 1] && q[..|q| - 1][0] == q[0]
  {
  }

  lemma TwoParts<T>(a: seq<T>, b: seq<T>)
    ensures
      var q := a + b;
      q[..|a|] == a && q[|a|..] == b && q[|a|..|a| + |b|] == b
  {
  }

  /** A slice of the second part of a concatenation. */
  lemma SliceBehind<T>(a: seq<T>, b: seq<T>, from: nat, to: nat)
    requires from <= to <= |b|
    ensures (a + b)[|a| + from..|a| + to] == b[from..to]
  {
  }

  lemma ThreeParts<T>(a: seq<T>, b: seq<T>, c: seq<T>)
    ensures
      var q := a + b + c;
      q[..|a|] == a && q[|a|..|a| + |b|] == b && q[|a| + |b|..] == c
  {
    var q := a + b + c;
    assert q[..|a|] == a;
    assert q[|a|..|a| + |b|] == b;
    assert q[|a| + |b|..] == c;
  }

  /** A slice of a slice. */
  lemma SubSlice<T>(q: seq<T>, from: nat, to: nat, lo: nat, hi: nat)
    requires from <= to <= |q| && lo <= hi <= to - from
    ensures q[from..to][lo..hi] == q[from + lo..from + hi]
  {
    var left, right := q[from..to][lo..hi], q[from + lo..from + hi];
    forall k | 0 <= k < |right| ensures left[k] == right[k] {
      assert q[from..to][lo + k] == q[from + lo + k];
    }
    assert left == right;
  }
}
