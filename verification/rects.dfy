/** Two-dimensional boxes written as [x0, x1] x [y0, y1], and closed forms
    of the primitives and of the overlap strategy's costs on small inputs, for
    evaluating the choice on concrete nodes. */
module Rects {
  import opened Boxes
  import opened ChooseNextNode

  /** The 2-D box [x0, x1] x [y0, y1]. */
  function Rect(x0: int, x1: int, y0: int, y1: int): Box {
    Box([Interval(x0, x1), Interval(y0, y1)])
  }

  lemma ProductOfTwo(p: int, q: int)
    ensures Product([p, q]) == p * q
  {
    assert Product([q]) == q by {
      assert [q][1..] == [];
    }
    assert Product([p, q]) == p * Product([q]) by {
      assert [p, q][1..] == [q];
    }
  }

  lemma AreaOf2D(b: Box)
    requires |b.axes| == 2
    ensures Area(b) == Extent(b.axes[0]) * Extent(b.axes[1])
  {
    assert Extents(b) == [Extent(b.axes[0]), Extent(b.axes[1])];
    ProductOfTwo(Extent(b.axes[0]), Extent(b.axes[1]));
  }

  lemma OverlapOf2D(a: Box, b: Box)
    requires |a.axes| == 2 && |b.axes| == 2
    ensures Overlap(a, b) == Clip(a.axes[0], b.axes[0]) * Clip(a.axes[1], b.axes[1])
  {
    assert Clips(a, b) == [Clip(a.axes[0], b.axes[0]), Clip(a.axes[1], b.axes[1])];
    ProductOfTwo(Clip(a.axes[0], b.axes[0]), Clip(a.axes[1], b.axes[1]));
  }

  /** With two children, each child's overlap sums have the other child as
      their only term. */
  lemma CostsOfPair(a: Box, b: Box, x: Box)
    requires SameDim(a, x) && SameDim(b, x)
    ensures Conforming([a, b], x)
    ensures OverlapCostAt([a, b], x, 0)
         == OverlapCost(Overlap(Expand(a, x), b) - Overlap(a, b), Area(Expand(a, x)) - Area(a), Area(a))
    ensures OverlapCostAt([a, b], x, 1)
         == OverlapCost(Overlap(Expand(b, x), a) - Overlap(b, a), Area(Expand(b, x)) - Area(b), Area(b))
  {
    OverlapSumOfPair(a, a, b);
    OverlapSumOfPair(Expand(a, x), a, b);
    OverlapSumOfPair(b, a, b);
    OverlapSumOfPair(Expand(b, x), a, b);
  }

  lemma OverlapSumOfPair(g: Box, c0: Box, c1: Box)
    requires SameDim(g, c0) && SameDim(g, c1)
    ensures OverlapSum(g, [c0, c1], 0, 2) == Overlap(g, c1)
    ensures OverlapSum(g, [c0, c1], 1, 2) == Overlap(g, c0)
  {
    var cs := [c0, c1];
    assert OverlapSum(g, cs, 0, 0) == 0 && OverlapSum(g, cs, 1, 0) == 0;
    assert OverlapSum(g, cs, 0, 1) == 0;
    assert OverlapSum(g, cs, 1, 1) == Overlap(g, c0);
  }

  lemma ExpandRect(a0: int, a1: int, b0: int, b1: int, c0: int, c1: int, d0: int, d1: int)
    ensures Expand(Rect(a0, a1, b0, b1), Rect(c0, c1, d0, d1))
         == Rect(Min(a0, c0), Max(a1, c1), Min(b0, d0), Max(b1, d1))
  {
    assert Expand(Rect(a0, a1, b0, b1), Rect(c0, c1, d0, d1)).axes
        == Rect(Min(a0, c0), Max(a1, c1), Min(b0, d0), Max(b1, d1)).axes;
  }

  lemma AreaRect(x0: int, x1: int, y0: int, y1: int)
    ensures Area(Rect(x0, x1, y0, y1)) == (x1 - x0) * (y1 - y0)
  {
    AreaOf2D(Rect(x0, x1, y0, y1));
  }

  lemma OverlapRect(a0: int, a1: int, b0: int, b1: int, c0: int, c1: int, d0: int, d1: int)
    ensures Overlap(Rect(a0, a1, b0, b1), Rect(c0, c1, d0, d1))
         == Max(0, Min(a1, c1) - Max(a0, c0)) * Max(0, Min(b1, d1) - Max(b0, d0))
  {
    OverlapOf2D(Rect(a0, a1, b0, b1), Rect(c0, c1, d0, d1));
  }

  lemma OverlapSumOfTriple(g: Box, c0: Box, c1: Box, c2: Box)
    requires SameDim(g, c0) && SameDim(g, c1) && SameDim(g, c2)
    ensures OverlapSum(g, [c0, c1, c2], 0, 3) == Overlap(g, c1) + Overlap(g, c2)
    ensures OverlapSum(g, [c0, c1, c2], 1, 3) == Overlap(g, c0) + Overlap(g, c2)
    ensures OverlapSum(g, [c0, c1, c2], 2, 3) == Overlap(g, c0) + Overlap(g, c1)
  {
    var cs := [c0, c1, c2];
    assert OverlapSum(g, cs, 0, 0) == 0 && OverlapSum(g, cs, 1, 0) == 0 && OverlapSum(g, cs, 2, 0) == 0;
    assert OverlapSum(g, cs, 0, 1) == 0;
    assert OverlapSum(g, cs, 1, 1) == Overlap(g, c0);
    assert OverlapSum(g, cs, 2, 1) == Overlap(g, c0);
    assert OverlapSum(g, cs, 0, 2) == Overlap(g, c1);
    assert OverlapSum(g, cs, 1, 2) == Overlap(g, c0);
    assert OverlapSum(g, cs, 2, 2) == Overlap(g, c0) + Overlap(g, c1);
  }

  /** A child's overlap-strategy costs, given its overlap sums and areas. */
  lemma CostFromParts(children: seq<Box>, x: Box, i: nat, overlap: int, overlapExp: int, area: int, areaExp: int)
    requires Conforming(children, x) && i < |children|
    requires OverlapSum(children[i], children, i, |children|) == overlap
    requires OverlapSum(Expand(children[i], x), children, i, |children|) == overlapExp
    requires Area(children[i]) == area && Area(Expand(children[i], x)) == areaExp
    ensures OverlapCostAt(children, x, i) == OverlapCost(overlapExp - overlap, areaExp - area, area)
  {
  }
}
