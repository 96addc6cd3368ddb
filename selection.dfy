/**
 * Order-preserving selection from a sequence, the shape shared by
 * `Array.prototype.filter` followed by `map`, and by a loop that pushes the
 * successful results of a per-element call; and the cutting of a sequence into
 * consecutive fixed-size slices.
 */
module Selection {
  import opened Wrappers

  /** What one element contributes: its image if `f` accepts it, nothing otherwise. */
  function Pick<X, Y>(x: X, f: X -> Option<Y>): seq<Y>
  {
    match f(x)
    case Some(y) => [y]
    case None => []
  }

  /** Keep, in order, the images of the elements that `f` maps to `Some`. */
  function FilterMap<X, Y>(xs: seq<X>, f: X -> Option<Y>): (ys: seq<Y>)
    ensures |ys| <= |xs|
  {
    if xs == [] then [] else Pick(xs[0], f) + FilterMap(xs[1..], f)
  }

  /** The positions of `xs` that `f` maps to `Some`, in increasing order. */
  function Selected<X, Y>(xs: seq<X>, f: X -> Option<Y>): seq<nat>
  {
    if xs == [] then []
    else (if f(xs[0]).Some? then [0] else []) + Shift(Selected(xs[1..], f))
  }

  /** Every position moved one place to the right. */
  function Shift(idx: seq<nat>): (r: seq<nat>)
    ensures |r| == |idx| && forall k :: 0 <= k < |r| ==> r[k] == idx[k] + 1
  {
    if idx == [] then [] else [idx[0] + 1] + Shift(idx[1..])
  }

  /** `idx` lists positions below `n` in strictly increasing order. */
  predicate IncreasingBelow(idx: seq<nat>, n: nat)
  {
    (forall k :: 0 <= k < |idx| ==> idx[k] < n) &&
    (forall k, l :: 0 <= k < l < |idx| ==> idx[k] < idx[l])
  }

  /** One selected position per output element. */
  lemma {:induction false} SelectedLength<X, Y>(xs: seq<X>, f: X -> Option<Y>)
    ensures |Selected(xs, f)| == |FilterMap(xs, f)|
  {
    if xs != [] {
      SelectedLength(xs[1..], f);
    }
  }

  /** The selected positions are in range and strictly increasing: selection keeps the input order. */
  lemma {:induction false} SelectedIncreasing<X, Y>(xs: seq<X>, f: X -> Option<Y>)
    ensures IncreasingBelow(Selected(xs, f), |xs|)
  {
    if xs != [] {
      var st := Selected(xs[1..], f);
      SelectedIncreasing(xs[1..], f);
      ShiftIncreasing(st, |xs| - 1);
      var sh := Shift(st);
      if f(xs[0]).Some? {
        assert Selected(xs, f) == [0] + sh;
        PrependZero(sh, |xs|);
      } else {
        assert Selected(xs, f) == sh;
      }
    }
  }

  /** Moving increasing positions below n one place right gives increasing positive positions below n + 1. */
  lemma ShiftIncreasing(idx: seq<nat>, n: nat)
    requires IncreasingBelow(idx, n)
    ensures IncreasingBelow(Shift(idx), n + 1)
    ensures forall k :: 0 <= k < |idx| ==> Shift(idx)[k] > 0
  {
    var sh := Shift(idx);
    forall k, l | 0 <= k < l < |sh| ensures sh[k] < sh[l] {
      assert idx[k] < idx[l];
    }
  }

  /** Position 0 can go in front of increasing positive positions. */
  lemma PrependZero(idx: seq<nat>, n: nat)
    requires n > 0 && IncreasingBelow(idx, n)
    requires forall k :: 0 <= k < |idx| ==> idx[k] > 0
    ensures IncreasingBelow([0] + idx, n)
  {
    var r := [0] + idx;
    forall k, l | 0 <= k < l < |r| ensures r[k] < r[l] {
      assert r[l] == idx[l - 1];
      if k > 0 {
        assert r[k] == idx[k - 1];
      }
    }
  }

  /** Output element k is the image of the element at the k-th selected position. */
  lemma {:induction false} SelectedImage<X, Y>(xs: seq<X>, f: X -> Option<Y>, k: nat)
    requires k < |Selected(xs, f)|
    ensures |Selected(xs, f)| == |FilterMap(xs, f)|
    ensures Selected(xs, f)[k] < |xs| && f(xs[Selected(xs, f)[k]]) == Some(FilterMap(xs, f)[k])
  {
    SelectedLength(xs, f);
    var tail := xs[1..];
    var st := Selected(tail, f);
    var sh := Shift(st);
    var yt := FilterMap(tail, f);
    var idx := Selected(xs, f);
    var ys := FilterMap(xs, f);
    assert ys == Pick(xs[0], f) + yt;
    SelectedLength(tail, f);
    if f(xs[0]).Some? {
      assert idx == [0] + sh;
      assert ys == [f(xs[0]).value] + yt;
      if k > 0 {
        SelectedImage(tail, f, k - 1);
        assert idx[k] == st[k - 1] + 1;
        assert xs[idx[k]] == tail[st[k - 1]];
        assert ys[k] == yt[k - 1];
      }
    } else {
      assert idx == sh;
      assert ys == yt;
      SelectedImage(tail, f, k);
      assert xs[idx[k]] == tail[st[k]];
    }
  }

  /**
   * `FilterMap(xs, f)` is exactly the order-preserving subsequence of the
   * elements `f` accepts: output k is the image of the element at position
   * `Selected(xs, f)[k]`, those positions increase, and a position is among
   * them if and only if `f` accepts the element there.
   */
  lemma FilterMapSelects<X, Y>(xs: seq<X>, f: X -> Option<Y>)
    ensures |Selected(xs, f)| == |FilterMap(xs, f)|
    ensures IncreasingBelow(Selected(xs, f), |xs|)
    ensures forall k :: 0 <= k < |Selected(xs, f)| ==> f(xs[Selected(xs, f)[k]]) == Some(FilterMap(xs, f)[k])
    ensures forall i :: 0 <= i < |xs| ==> (f(xs[i]).Some? <==> i in Selected(xs, f))
  {
    SelectedLength(xs, f);
    SelectedIncreasing(xs, f);
    forall k | 0 <= k < |Selected(xs, f)|
      ensures f(xs[Selected(xs, f)[k]]) == Some(FilterMap(xs, f)[k])
    {
      SelectedImage(xs, f, k);
    }
    forall i | 0 <= i < |xs|
      ensures f(xs[i]).Some? <==> i in Selected(xs, f)
    {
      SelectedExactly(xs, f, i);
    }
  }

  /** A position is selected if and only if `f` accepts the element there. */
  lemma {:induction false} SelectedExactly<X, Y>(xs: seq<X>, f: X -> Option<Y>, i: nat)
    requires i < |xs|
    ensures f(xs[i]).Some? <==> i in Selected(xs, f)
  {
    var tail := xs[1..];
    var sh := Shift(Selected(tail, f));
    assert Selected(xs, f) == (if f(xs[0]).Some? then [0] else []) + sh;
    assert 0 !in sh;
    if i > 0 {
      SelectedExactly(tail, f, i - 1);
      assert xs[i] == tail[i - 1];
      assert (i - 1 in Selected(tail, f)) <==> (i in sh);
    }
  }

  /** Selection distributes over concatenation: a loop may process a sequence piece by piece. */
  lemma {:induction false} FilterMapAppend<X, Y>(a: seq<X>, b: seq<X>, f: X -> Option<Y>)
    ensures FilterMap(a + b, f) == FilterMap(a, f) + FilterMap(b, f)
  {
    if a == [] {
      assert a + b == b;
    } else {
      assert (a + b)[0] == a[0];
      assert (a + b)[1..] == a[1..] + b;
      FilterMapAppend(a[1..], b, f);
    }
  }

  /** An element that `f` rejects can be removed without changing the selection: it drops only itself. */
  lemma {:induction false} FilterMapSkipsRejected<X, Y>(xs: seq<X>, f: X -> Option<Y>, k: nat)
    requires k < |xs| && f(xs[k]).None?
    ensures FilterMap(xs[..k] + xs[k + 1..], f) == FilterMap(xs, f)
  {
    var one := [xs[k]] + xs[k + 1..];
    assert xs == xs[..k] + one;
    FilterMapAppend(xs[..k], one, f);
    FilterMapAppend(xs[..k], xs[k + 1..], f);
    assert one[1..] == xs[k + 1..];
    assert FilterMap(one, f) == Pick(xs[k], f) + FilterMap(xs[k + 1..], f);
  }

  /**
   * `xs` cut into the slices `xs[i..i + size]` for i = 0, size, 2 * size, …
   * (the last slice clamped at the end, as `slice` clamps).
   */
  function Batches<X>(xs: seq<X>, size: nat): seq<seq<X>>
    requires size > 0
    decreases |xs|
  {
    if xs == [] then []
    else if |xs| <= size then [xs]
    else [xs[..size]] + Batches(xs[size..], size)
  }

  /** All slices glued back together, in order. */
  function Flatten<X>(bs: seq<seq<X>>): seq<X>
  {
    if bs == [] then [] else bs[0] + Flatten(bs[1..])
  }

  /** Gluing the slices back together gives the sequence: every element lies in exactly one slice, in order. */
  lemma {:induction false} BatchesCover<X>(xs: seq<X>, size: nat)
    requires size > 0
    ensures Flatten(Batches(xs, size)) == xs
    decreases |xs|
  {
    if |xs| > size {
      var rest := xs[size..];
      BatchesCover(rest, size);
      var bs := Batches(xs, size);
      assert bs[0] == xs[..size] && bs[1..] == Batches(rest, size);
      assert xs == xs[..size] + rest;
    } else if xs != [] {
      assert Batches(xs, size) == [xs];
      assert Flatten([xs]) == xs + Flatten([]);
    }
  }

  /** No slice is empty, none is longer than `size`, and every slice but the last is exactly `size` long. */
  lemma {:induction false} BatchesSizes<X>(xs: seq<X>, size: nat)
    requires size > 0
    ensures forall k :: 0 <= k < |Batches(xs, size)| ==> 0 < |Batches(xs, size)[k]| <= size
    ensures forall k :: 0 <= k < |Batches(xs, size)| - 1 ==> |Batches(xs, size)[k]| == size
    decreases |xs|
  {
    if |xs| > size {
      var rest := xs[size..];
      BatchesSizes(rest, size);
      var bs := Batches(xs, size);
      assert bs == [xs[..size]] + Batches(rest, size);
      forall k | 1 <= k < |bs| ensures bs[k] == Batches(rest, size)[k - 1] {
      }
    }
  }

  /** Appending sequences regroups freely. */
  lemma AppendAssoc<X>(a: seq<X>, b: seq<X>, c: seq<X>)
    ensures a + b + c == a + (b + c)
  {
  }

  /** The slicing of a suffix starting at slice boundary `i`: its first slice, then the slicing of the rest. */
  lemma BatchesStep<X>(xs: seq<X>, size: nat, i: nat)
    requires size > 0 && i < |xs|
    ensures i + size < |xs| ==> Batches(xs[i..], size) == [xs[i..i + size]] + Batches(xs[i + size..], size)
    ensures i + size >= |xs| ==> Batches(xs[i..], size) == [xs[i..]]
  {
    if i + size < |xs| {
      assert xs[i..][..size] == xs[i..i + size];
      assert xs[i..][size..] == xs[i + size..];
    }
  }
}
