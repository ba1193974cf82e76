/** Python's `bisect` module, as far as the health tracker uses it. */
module Bisect {

  /** Non-decreasing order: the order `bisect_left` expects of its input. */
  predicate Sorted(a: seq<real>)
  {
    forall i, j :: 0 <= i <= j < |a| ==> a[i] <= a[j]
  }

  /** `bisect_left(a, x, lo, hi)`: the binary search over `a[lo..hi]` that
      CPython runs (halve the range at `(lo + hi) / 2`, go right when the
      middle entry is `< x`). On sorted input the result is the leftmost
      insertion point of `x`: everything before it is below `x`, everything
      from it on is at least `x`. On unsorted input it is still an index of
      the range, but nothing more is promised. */
  function BisectLeft(a: seq<real>, x: real, lo: nat, hi: nat): (pos: nat)
    requires lo <= hi <= |a|
    ensures lo <= pos <= hi
    ensures Sorted(a) ==> forall i :: lo <= i < pos ==> a[i] < x
    ensures Sorted(a) ==> forall i :: pos <= i < hi ==> x <= a[i]
    decreases hi - lo
  {
    if lo < hi then
      var mid := (lo + hi) / 2;
      if a[mid] < x then BisectLeft(a, x, mid + 1, hi) else BisectLeft(a, x, lo, mid)
    else
      lo
  }
}
