/**
 * The JavaScript array built-ins the route handlers chain together:
 * `Array.prototype.map` and `Array.prototype.filter`, with the callback as a
 * function value.
 */
module JsArrays {

  /** `xs.map(f)`. */
  function Map<T, U>(xs: seq<T>, f: T -> U): (ys: seq<U>)
    ensures |ys| == |xs|
    ensures forall i {:trigger ys[i]} :: 0 <= i < |xs| ==> ys[i] == f(xs[i])
  {
    if xs == [] then [] else [f(xs[0])] + Map(xs[1..], f)
  }

  lemma MapCons<T, U>(x: T, xs: seq<T>, f: T -> U)
    ensures Map([x] + xs, f) == [f(x)] + Map(xs, f)
  {
    assert ([x] + xs)[1..] == xs;
  }

  /** `points.filter(keep)`. */
  function Filter<T>(points: seq<T>, keep: T -> bool): (kept: seq<T>)
    ensures |kept| <= |points|
  {
    if points == [] then []
    else
      var n := |points| - 1;
      Filter(points[..n], keep) + (if keep(points[n]) then [points[n]] else [])
  }

  /** The positions of the points `keep` accepts, in increasing order. */
  function KeptIndices<T>(points: seq<T>, keep: T -> bool): (idx: seq<nat>)
    ensures |idx| == |Filter(points, keep)|
  {
    if points == [] then []
    else
      var n := |points| - 1;
      KeptIndices(points[..n], keep) + (if keep(points[n]) then [n] else [])
  }

  /** Kept point `k` is a point `keep` accepts, at position `KeptIndices(points, keep)[k]`. */
  lemma {:induction false} KeptAt<T>(points: seq<T>, keep: T -> bool, k: nat)
    requires k < |Filter(points, keep)|
    ensures var i := KeptIndices(points, keep)[k];
            i < |points| && keep(points[i]) && Filter(points, keep)[k] == points[i]
    decreases |points|
  {
    var n := |points| - 1;
    var front := points[..n];
    var before := KeptIndices(front, keep);
    assert KeptIndices(points, keep) == before + (if keep(points[n]) then [n] else []);
    assert Filter(points, keep) == Filter(front, keep) + (if keep(points[n]) then [points[n]] else []);
    if k < |before| {
      KeptAt(front, keep, k);
      assert front[before[k]] == points[before[k]];
    }
  }

  /** The kept positions increase, so the filter keeps the order of the points. */
  lemma {:induction false} KeptInOrder<T>(points: seq<T>, keep: T -> bool, k: nat, l: nat)
    requires k < l < |Filter(points, keep)|
    ensures KeptIndices(points, keep)[k] < KeptIndices(points, keep)[l]
    decreases |points|
  {
    var n := |points| - 1;
    var front := points[..n];
    var before := KeptIndices(front, keep);
    assert KeptIndices(points, keep) == before + (if keep(points[n]) then [n] else []);
    if l < |before| {
      KeptInOrder(front, keep, k, l);
    } else {
      KeptAt(front, keep, k);
    }
  }

  /** A point whose position is not among the kept ones is rejected by `keep`. */
  lemma {:induction false} DroppedAt<T>(points: seq<T>, keep: T -> bool, i: nat)
    requires i < |points| && i !in KeptIndices(points, keep)
    ensures !keep(points[i])
    decreases |points|
  {
    var n := |points| - 1;
    var front := points[..n];
    var before := KeptIndices(front, keep);
    assert KeptIndices(points, keep) == before + (if keep(points[n]) then [n] else []);
    if i < n {
      assert i !in before;
      DroppedAt(front, keep, i);
      assert front[i] == points[i];
    }
  }

  /** The filter keeps order: kept point `k` is point `KeptIndices(points, keep)[k]`,
      those positions increase, and every point left out is one `keep` rejects. */
  lemma FilterKeepsOrder<T>(points: seq<T>, keep: T -> bool)
    ensures var idx := KeptIndices(points, keep);
            && |idx| == |Filter(points, keep)|
            && (forall k :: 0 <= k < |idx| ==>
                  idx[k] < |points| && keep(points[idx[k]]) && Filter(points, keep)[k] == points[idx[k]])
            && (forall k, l :: 0 <= k < l < |idx| ==> idx[k] < idx[l])
            && (forall i :: 0 <= i < |points| && i !in idx ==> !keep(points[i]))
  {
    var idx := KeptIndices(points, keep);
    forall k | 0 <= k < |idx|
      ensures idx[k] < |points| && keep(points[idx[k]]) && Filter(points, keep)[k] == points[idx[k]]
    {
      KeptAt(points, keep, k);
    }
    forall k, l | 0 <= k < l < |idx|
      ensures idx[k] < idx[l]
    {
      KeptInOrder(points, keep, k, l);
    }
    forall i | 0 <= i < |points| && i !in idx
      ensures !keep(points[i])
    {
      DroppedAt(points, keep, i);
    }
  }
}
