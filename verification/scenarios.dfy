/** Small concrete nodes on which the choice is evaluated end to end. */
module Scenarios {
  import opened Boxes
  import opened ChooseNextNode
  import opened Rects

  /** Two side-by-side squares [0,10]x[0,10] and [20,30]x[0,10], and a thin
      indexable [11,12]x[0,10] between them, nearer the first.  Growing
      either square creates no overlap, and growing the first costs 20 units
      of area against 90, so both strategies choose the first square. */
  lemma NearerSquareIsChosen(relativeLevel: nat)
    ensures Conforming([Rect(0, 10, 0, 10), Rect(20, 30, 0, 10)], Rect(11, 12, 0, 10))
    ensures Apply([Rect(0, 10, 0, 10), Rect(20, 30, 0, 10)], Rect(11, 12, 0, 10), relativeLevel) == 0
  {
    var a, b, x := Rect(0, 10, 0, 10), Rect(20, 30, 0, 10), Rect(11, 12, 0, 10);
    var cs := [a, b];
    ExpandRect(0, 10, 0, 10, 11, 12, 0, 10);
    ExpandRect(20, 30, 0, 10, 11, 12, 0, 10);
    AreaRect(0, 10, 0, 10);
    AreaRect(20, 30, 0, 10);
    AreaRect(0, 12, 0, 10);
    AreaRect(11, 30, 0, 10);
    if relativeLevel <= 1 {
      OverlapRect(0, 10, 0, 10, 20, 30, 0, 10);
      OverlapRect(20, 30, 0, 10, 0, 10, 0, 10);
      OverlapRect(0, 12, 0, 10, 20, 30, 0, 10);
      OverlapRect(11, 30, 0, 10, 0, 10, 0, 10);
      CostsOfPair(a, b, x);
      assert OverlapCostAt(cs, x, 0) == OverlapCost(0, 20, 100);
      assert OverlapCostAt(cs, x, 1) == OverlapCost(0, 90, 100);
      assert !ChainBeats(OverlapCostAt(cs, x, 1), OverlapCostAt(cs, x, 0));
    } else {
      assert AreaCosts(cs, x)[0] == AreaCost(20, 120);
      assert AreaCosts(cs, x)[1] == AreaCost(90, 190);
    }
  }

  function LowBox(): Box { Rect(1, 2, 2, 3) }

  function HighBox(): Box { Rect(1, 4, 3, 4) }

  function TallIndexable(): Box { Rect(1, 3, 1, 4) }

  /** Overlap costs of [1,2]x[2,3] and [1,4]x[3,4] for the indexable
      [1,3]x[1,4]: growing the first adds 2 units of overlap and 5 of area,
      growing the second adds 1 unit of overlap and 6 of area. */
  lemma DisagreeOverlapCosts()
    ensures Conforming([LowBox(), HighBox()], TallIndexable())
    ensures OverlapCostAt([LowBox(), HighBox()], TallIndexable(), 0) == OverlapCost(2, 5, 1)
    ensures OverlapCostAt([LowBox(), HighBox()], TallIndexable(), 1) == OverlapCost(1, 6, 3)
  {
    LowBoxCost();
    HighBoxCost();
  }

  lemma LowBoxCost()
    ensures Conforming([LowBox(), HighBox()], TallIndexable())
    ensures OverlapCostAt([LowBox(), HighBox()], TallIndexable(), 0) == OverlapCost(2, 5, 1)
  {
    var a, b, x := LowBox(), HighBox(), TallIndexable();
    assert Conforming([a, b], x);
    ExpandRect(1, 2, 2, 3, 1, 3, 1, 4);
    AreaRect(1, 2, 2, 3);
    AreaRect(1, 3, 1, 4);
    OverlapRect(1, 2, 2, 3, 1, 4, 3, 4);
    OverlapRect(1, 3, 1, 4, 1, 4, 3, 4);
    OverlapSumOfPair(a, a, b);
    OverlapSumOfPair(Rect(1, 3, 1, 4), a, b);
    CostFromParts([a, b], x, 0, 0, 2, 1, 6);
  }

  lemma HighBoxCost()
    ensures Conforming([LowBox(), HighBox()], TallIndexable())
    ensures OverlapCostAt([LowBox(), HighBox()], TallIndexable(), 1) == OverlapCost(1, 6, 3)
  {
    var a, b, x := LowBox(), HighBox(), TallIndexable();
    assert Conforming([a, b], x);
    ExpandRect(1, 4, 3, 4, 1, 3, 1, 4);
    AreaRect(1, 4, 3, 4);
    AreaRect(1, 4, 1, 4);
    OverlapRect(1, 4, 3, 4, 1, 2, 2, 3);
    OverlapRect(1, 4, 1, 4, 1, 2, 2, 3);
    OverlapSumOfPair(b, a, b);
    OverlapSumOfPair(Rect(1, 4, 1, 4), a, b);
    CostFromParts([a, b], x, 1, 0, 1, 3, 9);
  }

  /** Area costs of the same children: (5, 6) and (6, 9). */
  lemma DisagreeAreaCosts()
    ensures Conforming([LowBox(), HighBox()], TallIndexable())
    ensures AreaCostAt([LowBox(), HighBox()], TallIndexable(), 0) == AreaCost(5, 6)
    ensures AreaCostAt([LowBox(), HighBox()], TallIndexable(), 1) == AreaCost(6, 9)
  {
    ExpandRect(1, 2, 2, 3, 1, 3, 1, 4);
    ExpandRect(1, 4, 3, 4, 1, 3, 1, 4);
    AreaRect(1, 2, 2, 3);
    AreaRect(1, 4, 3, 4);
    AreaRect(1, 3, 1, 4);
    AreaRect(1, 4, 1, 4);
  }

  /** The level decides the answer: for the children [1,2]x[2,3] and
      [1,4]x[3,4] and the indexable [1,3]x[1,4], the overlap rule (level 1)
      picks the second child, whose growth adds 1 unit of overlap against 2,
      while the area rule (level 2) picks the first, which grows by 5 units of
      area against 6. */
  lemma StrategiesDisagree()
    ensures Conforming([LowBox(), HighBox()], TallIndexable())
    ensures Apply([LowBox(), HighBox()], TallIndexable(), 1) == 1
    ensures Apply([LowBox(), HighBox()], TallIndexable(), 2) == 0
  {
    var cs, x := [LowBox(), HighBox()], TallIndexable();
    DisagreeOverlapCosts();
    DisagreeAreaCosts();
    assert ChainBeats(OverlapCostAt(cs, x, 1), OverlapCostAt(cs, x, 0));
    assert AreaCosts(cs, x)[0] == AreaCost(5, 6) && AreaCosts(cs, x)[1] == AreaCost(6, 9);
  }
}
