/** Axis-aligned boxes over integer coordinates, and the three bounding-volume
    primitives the R*-tree subtree choice is built on: `Area`, `Overlap` and
    `Expand`.  Coordinates, areas and overlaps are unbounded integers, so the
    equality tests in the selection rules are exact. */
module Boxes {

  function Min(a: int, b: int): int { if a <= b then a else b }

  function Max(a: int, b: int): int { if a <= b then b else a }

  /** A closed coordinate range on one axis; well-formed when `lo <= hi`. */
  datatype Interval = Interval(lo: int, hi: int)

  /** A box holds one interval per axis; its dimension is `|axes|`. */
  datatype Box = Box(axes: seq<Interval>)

  /** Every axis has `lo <= hi` (zero-extent axes are allowed). */
  predicate WellFormed(b: Box) {
    forall k :: 0 <= k < |b.axes| ==> b.axes[k].lo <= b.axes[k].hi
  }

  /** Every axis has strictly positive extent. */
  predicate Solid(b: Box) {
    forall k :: 0 <= k < |b.axes| ==> b.axes[k].lo < b.axes[k].hi
  }

  predicate SameDim(a: Box, b: Box) {
    |a.axes| == |b.axes|
  }

  /** `outer` covers `inner` on every axis. */
  predicate Contains(outer: Box, inner: Box) {
    && SameDim(outer, inner)
    && forall k :: 0 <= k < |outer.axes| ==>
         outer.axes[k].lo <= inner.axes[k].lo && inner.axes[k].hi <= outer.axes[k].hi
  }

  /** Product of a sequence of integers (1 for the empty sequence). */
  function Product(xs: seq<int>): int {
    if |xs| == 0 then 1 else xs[0] * Product(xs[1..])
  }

  function Extent(iv: Interval): int {
    iv.hi - iv.lo
  }

  function Extents(b: Box): seq<int> {
    seq(|b.axes|, k requires 0 <= k < |b.axes| => Extent(b.axes[k]))
  }

  /** Area (content) of a box: the product of its per-axis extents. */
  function Area(b: Box): int {
    Product(Extents(b))
  }

  /** Length of the common part of two ranges, 0 when they do not meet. */
  function Clip(a: Interval, b: Interval): int {
    Max(0, Min(a.hi, b.hi) - Max(a.lo, b.lo))
  }

  function Clips(a: Box, b: Box): seq<int>
    requires SameDim(a, b)
  {
    seq(|a.axes|, k requires 0 <= k < |a.axes| => Clip(a.axes[k], b.axes[k]))
  }

  /** Area of the intersection of two boxes, 0 when they are disjoint. */
  function Overlap(a: Box, b: Box): int
    requires SameDim(a, b)
  {
    Product(Clips(a, b))
  }

  /** The boxes meet in no more than a face: some axis has no common part
      of positive length. */
  predicate Separated(a: Box, b: Box)
    requires SameDim(a, b)
  {
    exists k :: 0 <= k < |a.axes| && Min(a.axes[k].hi, b.axes[k].hi) <= Max(a.axes[k].lo, b.axes[k].lo)
  }

  function Hull(a: Interval, b: Interval): Interval {
    Interval(Min(a.lo, b.lo), Max(a.hi, b.hi))
  }

  /** The box grown to cover `x`: per axis, the minimum of the lower bounds
      and the maximum of the upper bounds.  It is the smallest box that
      contains both arguments. */
  function Expand(a: Box, x: Box): (r: Box)
    requires SameDim(a, x)
    ensures Contains(r, a) && Contains(r, x)
    ensures WellFormed(a) ==> WellFormed(r)
  {
    Box(seq(|a.axes|, k requires 0 <= k < |a.axes| => Hull(a.axes[k], x.axes[k])))
  }

  // ---------------------------------------------------------------------
  // Products of non-negative factors

  lemma {:induction false} ProductNonNegative(xs: seq<int>)
    requires forall k :: 0 <= k < |xs| ==> 0 <= xs[k]
    ensures 0 <= Product(xs)
  {
    if |xs| > 0 {
      ProductNonNegative(xs[1..]);
    }
  }

  lemma MulMonotone(a: int, b: int, c: int, d: int)
    requires 0 <= a <= c && 0 <= b <= d
    ensures a * b <= c * d
  {
    assert a * b <= c * b;
    assert c * b <= c * d;
  }

  lemma MulStrictlyMonotone(a: int, b: int, c: int, d: int)
    requires 0 < a <= c && 0 < b <= d && (a < c || b < d)
    ensures a * b < c * d
  {
    if a < c {
      assert a * b < c * b;
      assert c * b <= c * d;
    } else {
      assert c * b < c * d;
    }
  }

  /** Growing non-negative factors never shrinks the product. */
  lemma {:induction false} ProductMonotone(xs: seq<int>, ys: seq<int>)
    requires |xs| == |ys|
    requires forall k :: 0 <= k < |xs| ==> 0 <= xs[k] <= ys[k]
    ensures Product(xs) <= Product(ys)
  {
    if |xs| > 0 {
      ProductMonotone(xs[1..], ys[1..]);
      ProductNonNegative(xs[1..]);
      MulMonotone(xs[0], Product(xs[1..]), ys[0], Product(ys[1..]));
    }
  }

  lemma {:induction false} ProductPositive(xs: seq<int>)
    requires forall k :: 0 <= k < |xs| ==> 0 < xs[k]
    ensures 0 < Product(xs)
  {
    if |xs| > 0 {
      ProductPositive(xs[1..]);
    }
  }

  /** Growing positive factors, one of them strictly, grows the product strictly. */
  lemma {:induction false} ProductStrictlyMonotone(xs: seq<int>, ys: seq<int>, i: nat)
    requires |xs| == |ys| && i < |xs|
    requires forall k :: 0 <= k < |xs| ==> 0 < xs[k] <= ys[k]
    requires xs[i] < ys[i]
    ensures Product(xs) < Product(ys)
  {
    ProductPositive(xs[1..]);
    if i == 0 {
      ProductMonotone(xs[1..], ys[1..]);
      MulStrictlyMonotone(xs[0], Product(xs[1..]), ys[0], Product(ys[1..]));
    } else {
      ProductStrictlyMonotone(xs[1..], ys[1..], i - 1);
      MulStrictlyMonotone(xs[0], Product(xs[1..]), ys[0], Product(ys[1..]));
    }
  }

  /** A product of non-negative factors is zero exactly when a factor is. */
  lemma {:induction false} ProductZeroIff(xs: seq<int>)
    requires forall k :: 0 <= k < |xs| ==> 0 <= xs[k]
    ensures Product(xs) == 0 <==> exists k :: 0 <= k < |xs| && xs[k] == 0
  {
    if |xs| > 0 {
      ProductZeroIff(xs[1..]);
      ProductNonNegative(xs[1..]);
      if xs[0] == 0 {
        assert Product(xs) == 0;
      } else if Product(xs[1..]) == 0 {
        var k :| 0 <= k < |xs[1..]| && xs[1..][k] == 0;
        assert xs[k + 1] == 0;
      } else {
        assert Product(xs) == xs[0] * Product(xs[1..]) > 0;
        forall k | 0 <= k < |xs|
          ensures xs[k] != 0
        {
          if k > 0 {
            assert xs[k] == xs[1..][k - 1];
          }
        }
      }
    }
  }

  // ---------------------------------------------------------------------
  // Area

  /** A well-formed box has non-negative area. */
  lemma AreaNonNegative(b: Box)
    requires WellFormed(b)
    ensures 0 <= Area(b)
  {
    ProductNonNegative(Extents(b));
  }

  /** Area is monotone under containment: a well-formed box has no more area
      than any box that contains it. */
  lemma AreaMonotone(inner: Box, outer: Box)
    requires WellFormed(inner) && Contains(outer, inner)
    ensures Area(inner) <= Area(outer)
  {
    ProductMonotone(Extents(inner), Extents(outer));
  }

  /** A solid box has strictly less area than any different box containing it. */
  lemma AreaStrictlyGrows(inner: Box, outer: Box)
    requires Solid(inner) && Contains(outer, inner) && outer != inner
    ensures Area(inner) < Area(outer)
  {
    var i :| 0 <= i < |inner.axes| && inner.axes[i] != outer.axes[i];
    ProductStrictlyMonotone(Extents(inner), Extents(outer), i);
  }

  // ---------------------------------------------------------------------
  // Overlap

  lemma OverlapNonNegative(a: Box, b: Box)
    requires SameDim(a, b)
    ensures 0 <= Overlap(a, b)
  {
    ProductNonNegative(Clips(a, b));
  }

  lemma OverlapSymmetric(a: Box, b: Box)
    requires SameDim(a, b)
    ensures Overlap(a, b) == Overlap(b, a)
  {
    assert Clips(a, b) == Clips(b, a);
  }

  /** The overlap is zero exactly when the boxes are separated on some axis. */
  lemma OverlapZeroIff(a: Box, b: Box)
    requires SameDim(a, b)
    ensures Overlap(a, b) == 0 <==> Separated(a, b)
  {
    var cs := Clips(a, b);
    ProductZeroIff(cs);
    if Separated(a, b) {
      var k :| 0 <= k < |a.axes| && Min(a.axes[k].hi, b.axes[k].hi) <= Max(a.axes[k].lo, b.axes[k].lo);
      assert cs[k] == 0;
    }
  }

  /** A well-formed box overlaps itself by exactly its area. */
  lemma OverlapSelf(a: Box)
    requires WellFormed(a)
    ensures Overlap(a, a) == Area(a)
  {
    assert Clips(a, a) == Extents(a);
  }

  /** Overlap with a fixed box never shrinks when a box is grown. */
  lemma OverlapMonotone(inner: Box, outer: Box, c: Box)
    requires Contains(outer, inner) && SameDim(inner, c)
    ensures Overlap(inner, c) <= Overlap(outer, c)
  {
    ProductMonotone(Clips(inner, c), Clips(outer, c));
  }

  // ---------------------------------------------------------------------
  // Expand

  /** No box that contains both `a` and `x` is smaller than their expansion:
      it contains the expansion too. */
  lemma ExpandIsSmallest(a: Box, x: Box, c: Box)
    requires SameDim(a, x) && Contains(c, a) && Contains(c, x)
    ensures Contains(c, Expand(a, x))
  {
  }

  /** Expanding a box by something it already contains changes nothing. */
  lemma ExpandContained(a: Box, x: Box)
    requires Contains(a, x)
    ensures Expand(a, x) == a
  {
    assert Expand(a, x).axes == a.axes;
  }

  /** A box that does not contain `x` strictly grows when expanded by it. */
  lemma ExpandNotContained(a: Box, x: Box)
    requires SameDim(a, x) && !Contains(a, x)
    ensures Expand(a, x) != a
  {
  }
}
