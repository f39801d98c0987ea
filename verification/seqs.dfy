/**
 Generic sequence vocabulary for the reconciler: order-preserving
 subsequences, `Array.prototype.filter`, counting, and the first-occurrence
 de-duplication performed by spreading a `Set` back into an array.
 */
module Seqs {

  /** `a` can be obtained from `b` by deleting elements, keeping the order. */
  predicate IsSubsequence<T(==)>(a: seq<T>, b: seq<T>)
    decreases |b|
  {
    |a| == 0 ||
    (|b| > 0 &&
     if a[0] == b[0] then IsSubsequence(a[1..], b[1..]) else IsSubsequence(a, b[1..]))
  }

  /** Number of elements of `xs` that `keep` accepts. */
  function Count<T>(xs: seq<T>, keep: T -> bool): (n: nat)
    ensures n <= |xs|
  {
    if |xs| == 0 then 0 else (if keep(xs[0]) then 1 else 0) + Count(xs[1..], keep)
  }

  /** The elements of `xs` that `keep` accepts, in their original order. */
  function Filter<T(==)>(xs: seq<T>, keep: T -> bool): (r: seq<T>)
    ensures IsSubsequence(r, xs)
    ensures forall i :: 0 <= i < |r| ==> keep(r[i])
    ensures |r| == Count(xs, keep)
    ensures forall x :: x in xs && keep(x) ==> x in r
    ensures forall x :: x in r ==> x in xs
  {
    if |xs| == 0 then []
    else if keep(xs[0]) then
      var rest := Filter(xs[1..], keep);
      assert ([xs[0]] + rest)[1..] == rest;
      [xs[0]] + rest
    else Filter(xs[1..], keep)
  }

  /** A subsequence whose elements are all kept has at most `Count` elements. */
  lemma {:induction false} SubsequenceCountBound<T>(a: seq<T>, b: seq<T>, keep: T -> bool)
    requires IsSubsequence(a, b)
    requires forall i :: 0 <= i < |a| ==> keep(a[i])
    ensures |a| <= Count(b, keep)
    decreases |b|
  {
    if |a| == 0 {
    } else if a[0] == b[0] {
      SubsequenceCountBound(a[1..], b[1..], keep);
    } else {
      SubsequenceCountBound(a, b[1..], keep);
    }
  }

  /**
   The three facts stated by `Filter`'s contract determine its result: any
   subsequence of `xs` made of kept elements and as long as the number of
   kept elements IS the filter of `xs`.
   */
  lemma {:induction false} FilterUnique<T>(a: seq<T>, xs: seq<T>, keep: T -> bool)
    requires IsSubsequence(a, xs)
    requires forall i :: 0 <= i < |a| ==> keep(a[i])
    requires |a| == Count(xs, keep)
    ensures a == Filter(xs, keep)
    decreases |xs|
  {
    if |xs| == 0 {
    } else if |a| == 0 {
      assert |Filter(xs, keep)| == 0;
    } else if a[0] == xs[0] {
      FilterUnique(a[1..], xs[1..], keep);
      assert a == [a[0]] + a[1..];
    } else {
      SubsequenceCountBound(a, xs[1..], keep);
      assert !keep(xs[0]);
      FilterUnique(a, xs[1..], keep);
    }
  }

  /** Filtering cannot create duplicates among elements that were distinct. */
  lemma {:induction false} FilterNoDuplicates<T>(xs: seq<T>, keep: T -> bool)
    requires forall i, j :: 0 <= i < j < |xs| && keep(xs[i]) && keep(xs[j]) ==> xs[i] != xs[j]
    ensures NoDuplicates(Filter(xs, keep))
    decreases |xs|
  {
    if |xs| > 0 {
      FilterNoDuplicates(xs[1..], keep);
      if keep(xs[0]) {
        var rest := Filter(xs[1..], keep);
        forall j | 0 <= j < |rest|
          ensures rest[j] != xs[0]
        {
          assert rest[j] in xs[1..];
          var k :| 0 <= k < |xs[1..]| && xs[1..][k] == rest[j];
          assert xs[k + 1] == rest[j];
        }
      }
    }
  }

  /**
   Rewriting every element with `f`, which never changes whether `keep`
   holds, rewrites the filtered sequence element by element too.
   */
  lemma {:induction false} FilterMapped<T>(xs: seq<T>, ys: seq<T>, f: T -> T, keep: T -> bool)
    requires |ys| == |xs|
    requires forall i :: 0 <= i < |xs| ==> ys[i] == f(xs[i])
    requires forall x :: keep(f(x)) == keep(x)
    ensures |Filter(ys, keep)| == |Filter(xs, keep)|
    ensures forall j :: 0 <= j < |Filter(xs, keep)| ==> Filter(ys, keep)[j] == f(Filter(xs, keep)[j])
    decreases |xs|
  {
    if |xs| > 0 {
      assert forall i :: 0 <= i < |xs[1..]| ==> ys[1..][i] == f(xs[1..][i]);
      FilterMapped(xs[1..], ys[1..], f, keep);
      assert keep(ys[0]) == keep(xs[0]);
    }
  }

  predicate NoDuplicates<T(==)>(xs: seq<T>)
  {
    forall i, j :: 0 <= i < j < |xs| ==> xs[i] != xs[j]
  }

  /** Position of the first occurrence of `x` in `xs`. */
  function IndexOf<T(==)>(xs: seq<T>, x: T): (k: nat)
    requires x in xs
    ensures k < |xs| && xs[k] == x
    ensures x !in xs[..k]
  {
    if xs[0] == x then 0
    else
      var k := 1 + IndexOf(xs[1..], x);
      assert xs[..k] == [xs[0]] + xs[1..][..k - 1];
      k
  }

  /** First occurrences in a prefix are first occurrences in the whole sequence. */
  lemma IndexOfPrefix<T>(xs: seq<T>, n: nat, x: T)
    requires n <= |xs| && x in xs[..n]
    ensures IndexOf(xs, x) == IndexOf(xs[..n], x)
  {
    var k1 := IndexOf(xs, x);
    var k2 := IndexOf(xs[..n], x);
    forall j | 0 <= j < k1
      ensures xs[j] != x
    {
      assert xs[..k1][j] == xs[j];
    }
    forall j | 0 <= j < k2
      ensures xs[j] != x
    {
      assert xs[..n][..k2][j] == xs[j];
    }
    assert xs[k2] == x;
  }

  /**
   `[...new Set(xs)]`: each value of `xs` once, in the order of its first
   occurrence.
   */
  function Distinct<T(==)>(xs: seq<T>): (r: seq<T>)
    ensures NoDuplicates(r)
    ensures forall x :: x in r ==> x in xs
    ensures forall x :: x in xs ==> x in r
    ensures forall i, j :: 0 <= i < j < |r| ==> IndexOf(xs, r[i]) < IndexOf(xs, r[j])
    decreases |xs|
  {
    if |xs| == 0 then []
    else
      var front := xs[..|xs| - 1];
      var last := xs[|xs| - 1];
      var d := Distinct(front);
      assert xs == front + [last];
      DistinctStep(xs, d);
      if last in d then d else d + [last]
  }

  /** The inductive step of `Distinct`: extending by the last element keeps its order. */
  lemma DistinctStep<T>(xs: seq<T>, d: seq<T>)
    requires |xs| > 0
    requires forall i :: 0 <= i < |d| ==> d[i] in xs[..|xs| - 1]
    ensures forall i :: 0 <= i < |d| ==> IndexOf(xs, d[i]) == IndexOf(xs[..|xs| - 1], d[i])
    ensures xs[|xs| - 1] !in xs[..|xs| - 1] ==> IndexOf(xs, xs[|xs| - 1]) == |xs| - 1
  {
    var n := |xs| - 1;
    forall i | 0 <= i < |d|
      ensures IndexOf(xs, d[i]) == IndexOf(xs[..n], d[i])
    {
      IndexOfPrefix(xs, n, d[i]);
    }
  }
}
