/** Cutting a list into consecutive slices of a fixed size, as the Python
    idiom `[xs[i:i + n] for i in range(0, len(xs), n)]` does; used for the
    groups of the hierarchical summary and for the batches written to the
    vector store. */
module Slicing {
  import opened PyStr

  function Min(a: int, b: int): int {
    if a < b then a else b
  }

  /** Consecutive slices of n elements, the last one possibly shorter:
      as many slices as it takes to hold the list and no more. */
  function Slices<T>(xs: seq<T>, n: nat): (ss: seq<seq<T>>)
    requires n > 0
    ensures |xs| <= n * |ss|
    ensures ss != [] ==> n * (|ss| - 1) < |xs|
    decreases |xs|
  {
    if xs == [] then []
    else if |xs| <= n then [xs]
    else
      var rest := Slices(xs[n..], n);
      assert n * (|rest| + 1) == n * |rest| + n;
      [xs[..n]] + rest
  }

  /** Slice k starts at element n * k and ends n elements later or at the
      end of the list. */
  lemma {:induction false} SliceAt<T>(xs: seq<T>, n: nat, k: nat)
    requires n > 0 && k < |Slices(xs, n)|
    ensures n * k < |xs|
    ensures Slices(xs, n)[k] == xs[n * k .. Min(n * k + n, |xs|)]
    decreases |xs|
  {
    if k > 0 {
      assert |xs| > n;
      var rest := xs[n..];
      var tail := Slices(rest, n);
      assert Slices(xs, n) == [xs[..n]] + tail;
      SliceAt(rest, n, k - 1);
      var start := n * (k - 1);
      assert n * k == start + n;
      assert tail[k - 1] == rest[start .. Min(start + n, |rest|)];
    }
  }

  /** Lists of the same length are cut into the same number of slices. */
  lemma {:induction false} SlicesCount<T, U>(xs: seq<T>, ys: seq<U>, n: nat)
    requires n > 0 && |xs| == |ys|
    ensures |Slices(xs, n)| == |Slices(ys, n)|
    decreases |xs|
  {
    if |xs| > n {
      SlicesCount(xs[n..], ys[n..], n);
    }
  }

  /** The slices cover the list, in order, each element exactly once. */
  lemma {:induction false} SlicesFlatten<T>(xs: seq<T>, n: nat)
    requires n > 0
    ensures Flatten(Slices(xs, n)) == xs
    decreases |xs|
  {
    if |xs| > n {
      SlicesFlatten(xs[n..], n);
      assert ([xs[..n]] + Slices(xs[n..], n))[1..] == Slices(xs[n..], n);
      assert xs[..n] + xs[n..] == xs;
    } else if xs != [] {
      assert [xs][1..] == [];
      assert xs + [] == xs;
    }
  }

  /** The first k slices cover the first n * k elements (all of them once
      the slices run out). */
  lemma {:induction false} SlicesPrefixFlatten<T>(xs: seq<T>, n: nat, k: nat)
    requires n > 0 && k <= |Slices(xs, n)|
    ensures Flatten(Slices(xs, n)[..k]) == xs[..Min(n * k, |xs|)]
    decreases |xs|
  {
    var ss := Slices(xs, n);
    if k == 0 {
      assert ss[..0] == [];
    } else if |xs| <= n {
      assert ss[..k] == [xs] && [xs][1..] == [];
      assert xs + [] == xs;
    } else {
      var rest := Slices(xs[n..], n);
      assert ss == [xs[..n]] + rest;
      assert ss[..k] == [xs[..n]] + rest[..k - 1];
      assert ([xs[..n]] + rest[..k - 1])[1..] == rest[..k - 1];
      SlicesPrefixFlatten(xs[n..], n, k - 1);
      var m := Min(n * (k - 1), |xs| - n);
      assert n * k == n * (k - 1) + n;
      assert xs[..n] + xs[n..][..m] == xs[..n + m];
    }
  }

  /** Every slice holds one to n elements, and all but the last exactly n. */
  lemma SliceSizes<T>(xs: seq<T>, n: nat)
    requires n > 0
    ensures var ss := Slices(xs, n);
      forall k :: 0 <= k < |ss| ==> 1 <= |ss[k]| <= n && (k < |ss| - 1 ==> |ss[k]| == n)
  {
    var ss := Slices(xs, n);
    forall k | 0 <= k < |ss|
      ensures 1 <= |ss[k]| <= n && (k < |ss| - 1 ==> |ss[k]| == n)
    {
      SliceAt(xs, n, k);
      if k < |ss| - 1 {
        SliceAt(xs, n, k + 1);
      }
    }
  }
}
