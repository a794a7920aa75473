/** The two strategies written as loops: an outer loop over the children
    that keeps a running-best value, and for the overlap strategy an inner
    loop summing the overlaps with the siblings.  Each is proved to return
    what the fold in `ChooseNextNode` defines. */
module ChooseNextNodeLoops {
  import opened Boxes
  import opened RunningBest
  import opened ChooseNextNode

  /** The body of the outer loop for child `i`: expand its box, measure the
      area growth, and sum the overlaps with the siblings before and after. */
  method OverlapCostLoop(children: seq<Box>, x: Box, i: nat) returns (cost: OverlapCost)
    requires Conforming(children, x) && i < |children|
    ensures cost == OverlapCostAt(children, x, i)
  {
    var childrenCount := |children|;
    var box := children[i];
    var boxExp := Expand(box, x);
    var area := Area(box);
    var areaDiff := Area(boxExp) - area;

    var overlap := 0;
    var overlapExp := 0;
    var j := 0;
    while j < childrenCount
      invariant j <= childrenCount
      invariant overlap == OverlapSum(box, children, i, j)
      invariant overlapExp == OverlapSum(boxExp, children, i, j)
    {
      if i != j {
        overlap := overlap + Overlap(box, children[j]);
        overlapExp := overlapExp + Overlap(boxExp, children[j]);
      }
      j := j + 1;
    }

    cost := OverlapCost(overlapExp - overlap, areaDiff, area);
  }

  method ChooseByMinimumOverlapCostLoop(children: seq<Box>, x: Box) returns (chosenIndex: nat)
    requires Conforming(children, x)
    ensures chosenIndex == ChooseByMinimumOverlapCost(children, x)
    ensures |children| > 0 ==> chosenIndex < |children|
  {
    var childrenCount := |children|;
    ghost var costs := OverlapCosts(children, x);
    chosenIndex := 0;
    var smallest: Running<OverlapCost> := NoBest;
    var i := 0;
    while i < childrenCount
      invariant i <= childrenCount
      invariant smallest == Scan(costs[..i], ChainBeats)
      invariant chosenIndex == ChosenIndex(smallest)
    {
      var cost := OverlapCostLoop(children, x, i);
      assert cost == costs[i];
      assert costs[..i + 1][..i] == costs[..i];
      if smallest.NoBest? || ChainBeats(cost, smallest.cost) {
        smallest := Best(i, cost);
        chosenIndex := i;
      }
      i := i + 1;
    }
    assert costs[..childrenCount] == costs;
    OverlapChoiceIsFold(children, x);
  }

  /** The overlap strategy's answer is the index the running-best fold
      records over the children's cost triples. */
  lemma OverlapChoiceIsFold(children: seq<Box>, x: Box)
    requires Conforming(children, x)
    ensures ChooseByMinimumOverlapCost(children, x) == ChosenIndex(Scan(OverlapCosts(children, x), ChainBeats))
  {
  }

  method ChooseByMinimumAreaCostLoop(children: seq<Box>, x: Box) returns (chosenIndex: nat)
    requires Conforming(children, x)
    ensures chosenIndex == ChooseByMinimumAreaCost(children, x)
    ensures |children| > 0 ==> chosenIndex < |children|
  {
    var childrenCount := |children|;
    ghost var costs := AreaCosts(children, x);
    chosenIndex := 0;
    var smallest: Running<AreaCost> := NoBest;
    var i := 0;
    while i < childrenCount
      invariant i <= childrenCount
      invariant smallest == Scan(costs[..i], AreaBeats)
      invariant chosenIndex == ChosenIndex(smallest)
    {
      var boxExp := Expand(children[i], x);
      var area := Area(boxExp);
      var areaDiff := area - Area(children[i]);

      var cost := AreaCost(areaDiff, area);
      assert cost == costs[i];
      assert costs[..i + 1][..i] == costs[..i];
      if smallest.NoBest? || AreaBeats(cost, smallest.cost) {
        smallest := Best(i, cost);
        chosenIndex := i;
      }
      i := i + 1;
    }
    assert costs[..childrenCount] == costs;
  }

  /** The entry point: dispatch on the relative level. */
  method ApplyLoop(children: seq<Box>, x: Box, relativeLevel: nat) returns (chosenIndex: nat)
    requires Conforming(children, x)
    ensures chosenIndex == Apply(children, x, relativeLevel)
    ensures |children| > 0 ==> chosenIndex < |children|
  {
    if relativeLevel <= 1 {
      chosenIndex := ChooseByMinimumOverlapCostLoop(children, x);
    } else {
      chosenIndex := ChooseByMinimumAreaCostLoop(children, x);
    }
  }
}
