/** The R*-tree "choose next node" step: given the child boxes of an internal
    node, the box of the object being inserted (the indexable) and the node's
    relative level, pick the index of the child that receives the object.

    Nodes whose children are leaves (relative level 0 or 1) use the
    overlap-cost rule of the R*-tree ChooseSubtree heuristic (Beckmann,
    Kriegel, Schneider and Seeger, 1990); higher nodes use the cheaper
    area-cost rule.  A child entry is represented by its box alone: its
    identity is its position in the sequence. */
module ChooseNextNode {
  import opened Boxes
  import opened RunningBest

  /** Every child box has the indexable's dimension (a single box type fixes
      the dimension of all of them). */
  predicate Conforming(children: seq<Box>, x: Box) {
    forall j :: 0 <= j < |children| ==> SameDim(children[j], x)
  }

  // =====================================================================
  // Overlap-cost strategy (children are leaves)

  /** The three values the overlap strategy records per child: growth of the
      summed overlap with the siblings, growth of the area, and the area of
      the child's box before expansion. */
  datatype OverlapCost = OverlapCost(overlapDiff: int, areaDiff: int, area: int)

  /** The inner loop as a left fold: the sum of `Overlap(b, children[j])`
      over the siblings `j < n` other than `skip`. */
  function OverlapSum(b: Box, children: seq<Box>, skip: nat, n: nat): int
    requires n <= |children|
    requires forall j :: 0 <= j < |children| ==> SameDim(b, children[j])
  {
    if n == 0 then 0
    else OverlapSum(b, children, skip, n - 1) + (if n - 1 != skip then Overlap(b, children[n - 1]) else 0)
  }

  /** The costs computed for child `i`: its box is expanded by the indexable,
      and the overlap with every sibling is summed before and after. */
  function OverlapCostAt(children: seq<Box>, x: Box, i: nat): OverlapCost
    requires Conforming(children, x) && i < |children|
  {
    var box := children[i];
    var boxExp := Expand(box, x);
    var area := Area(box);
    var areaDiff := Area(boxExp) - area;
    var overlap := OverlapSum(box, children, i, |children|);
    var overlapExp := OverlapSum(boxExp, children, i, |children|);
    OverlapCost(overlapExp - overlap, areaDiff, area)
  }

  function OverlapCosts(children: seq<Box>, x: Box): seq<OverlapCost>
    requires Conforming(children, x)
  {
    seq(|children|, i requires 0 <= i < |children| => OverlapCostAt(children, x, i))
  }

  /** The update test of the overlap strategy, clause by clause.  The third
      clause does not require the overlap growths to be equal. */
  function ChainBeats(c: OverlapCost, best: OverlapCost): bool {
    || c.overlapDiff < best.overlapDiff
    || (c.overlapDiff == best.overlapDiff && c.areaDiff < best.areaDiff)
    || (c.areaDiff == best.areaDiff && c.area < best.area)
  }

  /** Child `k` is the first child, or its costs pass the update test against
      the best recorded over the children before it: the loop moves its
      running best to `k` when it examines `k`. */
  ghost predicate ReplacesEarlierBest(children: seq<Box>, x: Box, k: nat)
    requires Conforming(children, x) && k < |children|
  {
    k == 0 || ChainBeats(OverlapCostAt(children, x, k), Scan(OverlapCosts(children, x)[..k], ChainBeats).cost)
  }

  /** Overlap-cost choice.  With no children the loop never runs and 0 is
      returned.  Otherwise the result is a valid index; unless it is 0, the
      chosen child's costs passed the update test against the best recorded
      over the children before it; and no later child's costs pass the update
      test against the chosen child's costs. */
  function ChooseByMinimumOverlapCost(children: seq<Box>, x: Box): (r: nat)
    requires Conforming(children, x)
    ensures |children| == 0 ==> r == 0
    ensures |children| > 0 ==> r < |children|
    ensures |children| > 0 ==> ReplacesEarlierBest(children, x, r)
    ensures |children| > 0 ==>
      forall j :: r < j < |children| ==> !ChainBeats(OverlapCostAt(children, x, j), OverlapCostAt(children, x, r))
  {
    var costs := OverlapCosts(children, x);
    var s := Scan(costs, ChainBeats);
    if s.NoBest? then 0
    else
      var r := s.index;
      assert forall j :: 0 <= j < |costs| ==> costs[j] == OverlapCostAt(children, x, j);
      assert forall j :: r < j < |costs| ==> !ChainBeats(costs[j], costs[r]);
      ScanReplacedPrefixBest(costs, ChainBeats);
      r
  }

  /** An index is the overlap strategy's answer exactly when it is the first
      child or its costs pass the update test against the best recorded over
      the children before it, and no later child's costs pass the test
      against its own. */
  lemma OverlapChoiceIff(children: seq<Box>, x: Box, k: nat)
    requires Conforming(children, x) && |children| > 0
    ensures ChooseByMinimumOverlapCost(children, x) == k
        <==> && k < |children|
             && ReplacesEarlierBest(children, x, k)
             && (forall j :: k < j < |children| ==> !ChainBeats(OverlapCostAt(children, x, j), OverlapCostAt(children, x, k)))
  {
    var costs := OverlapCosts(children, x);
    ScanResultIff(costs, ChainBeats, k);
    assert forall j :: 0 <= j < |costs| ==> costs[j] == OverlapCostAt(children, x, j);
  }

  // =====================================================================
  // Area-cost strategy (children are internal nodes)

  /** The two values the area strategy records per child: the area growth and
      the area of the EXPANDED box. */
  datatype AreaCost = AreaCost(areaDiff: int, area: int)

  function AreaCostAt(children: seq<Box>, x: Box, i: nat): AreaCost
    requires Conforming(children, x) && i < |children|
  {
    var boxExp := Expand(children[i], x);
    var area := Area(boxExp);
    AreaCost(area - Area(children[i]), area)
  }

  function AreaCosts(children: seq<Box>, x: Box): seq<AreaCost>
    requires Conforming(children, x)
  {
    seq(|children|, i requires 0 <= i < |children| => AreaCostAt(children, x, i))
  }

  /** The update test of the area strategy: lexicographic on
      (area growth, expanded area). */
  function AreaBeats(c: AreaCost, best: AreaCost): bool {
    || c.areaDiff < best.areaDiff
    || (c.areaDiff == best.areaDiff && c.area < best.area)
  }

  lemma AreaBeatsIsStrictTotalOrder()
    ensures StrictTotalOrder(AreaBeats)
  {
    forall a: AreaCost, b: AreaCost | a != b
      ensures AreaBeats(a, b) || AreaBeats(b, a)
    {
      assert a.areaDiff != b.areaDiff || a.area != b.area;
    }
  }

  /** Area-cost choice: with no children, 0; otherwise the lowest index whose
      (area growth, expanded area) pair is lexicographically smallest. */
  function ChooseByMinimumAreaCost(children: seq<Box>, x: Box): (r: nat)
    requires Conforming(children, x)
    ensures |children| == 0 ==> r == 0
    ensures |children| > 0 ==> IsFirstMinimum(AreaCosts(children, x), r, AreaBeats)
  {
    var costs := AreaCosts(children, x);
    if |costs| == 0 then 0
    else
      AreaBeatsIsStrictTotalOrder();
      ScanFirstMinimum(costs, AreaBeats);
      ChosenIndex(Scan(costs, AreaBeats))
  }

  /** Running-best invariant of the overlap strategy: after the first `n`
      children have been examined, the recorded overlap growth, area growth
      and area are exactly the costs of the child at the recorded index. */
  lemma OverlapRunningBest(children: seq<Box>, x: Box, n: nat)
    requires Conforming(children, x) && 0 < n <= |children|
    ensures var s := Scan(OverlapCosts(children, x)[..n], ChainBeats);
      s.Best? && s.index < n && s.cost == OverlapCostAt(children, x, s.index)
  {
  }

  /** An index is the area strategy's answer exactly when it is the first
      lexicographic minimum of (area growth, expanded area). */
  lemma AreaChoiceIsFirstMinimumIff(children: seq<Box>, x: Box, k: nat)
    requires Conforming(children, x) && |children| > 0
    ensures ChooseByMinimumAreaCost(children, x) == k <==> IsFirstMinimum(AreaCosts(children, x), k, AreaBeats)
  {
    AreaBeatsIsStrictTotalOrder();
    ScanIsFirstMinimumIff(AreaCosts(children, x), AreaBeats, k);
  }

  /** Ties go to the first child in the area strategy: of two children with
      equal (area growth, expanded area), the later one is never chosen. */
  lemma AreaTieGoesToFirst(children: seq<Box>, x: Box, j: nat, k: nat)
    requires Conforming(children, x) && j < k < |children|
    requires AreaCostAt(children, x, j) == AreaCostAt(children, x, k)
    ensures ChooseByMinimumAreaCost(children, x) != k
  {
    var costs := AreaCosts(children, x);
    assert costs[j] == costs[k];
    assert !AreaBeats(costs[k], costs[j]);
  }

  /** In the overlap strategy a child whose costs equal the recorded best
      costs never replaces the best: all three clauses are strict. */
  lemma ChainKeepsBestOnTie(acc: Running<OverlapCost>, i: nat)
    requires acc.Best?
    ensures Step(acc, i, acc.cost, ChainBeats) == acc
  {
  }

  // =====================================================================
  // Lexicographic variant of the overlap strategy

  /** Lexicographic order on (overlap growth, area growth, area): the order
      in which the R*-tree heuristic states its three criteria. */
  function LexBeats(c: OverlapCost, best: OverlapCost): bool {
    || c.overlapDiff < best.overlapDiff
    || (c.overlapDiff == best.overlapDiff && c.areaDiff < best.areaDiff)
    || (c.overlapDiff == best.overlapDiff && c.areaDiff == best.areaDiff && c.area < best.area)
  }

  lemma LexBeatsIsStrictTotalOrder()
    ensures StrictTotalOrder(LexBeats)
  {
    forall a: OverlapCost, b: OverlapCost | a != b
      ensures LexBeats(a, b) || LexBeats(b, a)
    {
      assert a.overlapDiff != b.overlapDiff || a.areaDiff != b.areaDiff || a.area != b.area;
    }
  }

  /** The overlap strategy with the third clause guarded by equal overlap
      growth: the first child whose (overlap growth, area growth, area)
      triple is lexicographically smallest. */
  function ChooseByMinimumOverlapCostLex(children: seq<Box>, x: Box): (r: nat)
    requires Conforming(children, x)
    ensures |children| == 0 ==> r == 0
    ensures |children| > 0 ==> IsFirstMinimum(OverlapCosts(children, x), r, LexBeats)
  {
    var costs := OverlapCosts(children, x);
    if |costs| == 0 then 0
    else
      LexBeatsIsStrictTotalOrder();
      ScanFirstMinimum(costs, LexBeats);
      ChosenIndex(Scan(costs, LexBeats))
  }

  /** The first lexicographic minimum of the cost triples has the least
      overlap growth of all; in particular so does the child chosen by
      `ChooseByMinimumOverlapCostLex`. */
  lemma LexChoiceMinimisesOverlapGrowth(costs: seq<OverlapCost>, k: nat, j: nat)
    requires IsFirstMinimum(costs, k, LexBeats) && j < |costs|
    ensures costs[k].overlapDiff <= costs[j].overlapDiff
  {
    if j < k {
      assert LexBeats(costs[k], costs[j]);
    } else if k < j {
      assert !LexBeats(costs[j], costs[k]);
    }
  }

  // =====================================================================
  // Dispatch

  /** The entry point: the overlap-cost rule when the children are leaves
      (relative level at most 1), the area-cost rule otherwise.  The result
      indexes the children whenever there is one. */
  function Apply(children: seq<Box>, x: Box, relativeLevel: nat): (r: nat)
    requires Conforming(children, x)
    ensures |children| > 0 ==> r < |children|
    ensures |children| == 0 ==> r == 0
    ensures relativeLevel <= 1 ==> r == ChooseByMinimumOverlapCost(children, x)
    ensures relativeLevel <= 1 && |children| > 0 ==>
      forall j :: r < j < |children| ==> !ChainBeats(OverlapCostAt(children, x, j), OverlapCostAt(children, x, r))
    ensures relativeLevel > 1 && |children| > 0 ==> IsFirstMinimum(AreaCosts(children, x), r, AreaBeats)
  {
    if relativeLevel <= 1 then ChooseByMinimumOverlapCost(children, x)
    else ChooseByMinimumAreaCost(children, x)
  }

  // =====================================================================
  // Properties of the costs

  /** The overlap sum never counts child `skip` itself: replacing that child's
      box leaves the sum unchanged. */
  lemma {:induction false} OverlapSumExcludesSelf(b: Box, children: seq<Box>, skip: nat, y: Box, n: nat)
    requires skip < |children| && n <= |children| && SameDim(b, y)
    requires forall j :: 0 <= j < |children| ==> SameDim(b, children[j])
    ensures OverlapSum(b, children[skip := y], skip, n) == OverlapSum(b, children, skip, n)
  {
    if n > 0 {
      OverlapSumExcludesSelf(b, children, skip, y, n - 1);
    }
  }

  /** Summed overlap never shrinks when the box is grown. */
  lemma {:induction false} OverlapSumMonotone(b: Box, bExp: Box, children: seq<Box>, skip: nat, n: nat)
    requires n <= |children| && Contains(bExp, b)
    requires forall j :: 0 <= j < |children| ==> SameDim(b, children[j])
    ensures OverlapSum(b, children, skip, n) <= OverlapSum(bExp, children, skip, n)
  {
    if n > 0 {
      OverlapSumMonotone(b, bExp, children, skip, n - 1);
      OverlapMonotone(b, bExp, children[n - 1]);
    }
  }

  /** The overlap growth is never negative: the expanded box contains the
      original, so no term of the sum can shrink. */
  lemma OverlapDiffNonNegative(children: seq<Box>, x: Box, i: nat)
    requires Conforming(children, x) && i < |children|
    ensures 0 <= OverlapCostAt(children, x, i).overlapDiff
  {
    OverlapSumMonotone(children[i], Expand(children[i], x), children, i, |children|);
  }

  /** For a well-formed child, both strategies see a non-negative area growth. */
  lemma AreaDiffNonNegative(children: seq<Box>, x: Box, i: nat)
    requires Conforming(children, x) && i < |children| && WellFormed(children[i])
    ensures 0 <= OverlapCostAt(children, x, i).areaDiff
    ensures 0 <= AreaCostAt(children, x, i).areaDiff
  {
    AreaMonotone(children[i], Expand(children[i], x));
  }

  /** A child that already contains the indexable costs nothing to grow: zero
      overlap growth and zero area growth, and its expanded area is its own. */
  lemma ContainedChildCostsNothing(children: seq<Box>, x: Box, i: nat)
    requires Conforming(children, x) && i < |children| && Contains(children[i], x)
    ensures OverlapCostAt(children, x, i) == OverlapCost(0, 0, Area(children[i]))
    ensures AreaCostAt(children, x, i) == AreaCost(0, Area(children[i]))
  {
    ExpandContained(children[i], x);
  }

  /** A solid child that does not contain the indexable has a strictly
      positive area growth. */
  lemma UncontainedChildGrows(children: seq<Box>, x: Box, j: nat)
    requires Conforming(children, x) && j < |children|
    requires Solid(children[j]) && !Contains(children[j], x)
    ensures 0 < OverlapCostAt(children, x, j).areaDiff
    ensures 0 < AreaCostAt(children, x, j).areaDiff
  {
    ExpandNotContained(children[j], x);
    AreaStrictlyGrows(children[j], Expand(children[j], x));
  }

  /** When the child boxes all have positive extent and exactly one of them
      contains the indexable, that child is chosen at every level. */
  lemma ContainingChildIsChosen(children: seq<Box>, x: Box, relativeLevel: nat, i: nat)
    requires Conforming(children, x) && i < |children|
    requires forall j :: 0 <= j < |children| ==> Solid(children[j])
    requires Contains(children[i], x)
    requires forall j :: 0 <= j < |children| && j != i ==> !Contains(children[j], x)
    ensures Apply(children, x, relativeLevel) == i
  {
    ContainedChildCostsNothing(children, x, i);
    forall j | 0 <= j < |children| && j != i
      ensures 0 <= OverlapCostAt(children, x, j).overlapDiff
      ensures 0 < OverlapCostAt(children, x, j).areaDiff
      ensures 0 < AreaCostAt(children, x, j).areaDiff
    {
      OverlapDiffNonNegative(children, x, j);
      UncontainedChildGrows(children, x, j);
    }
    if relativeLevel <= 1 {
      ScanDominant(OverlapCosts(children, x), ChainBeats, i);
    } else {
      ScanDominant(AreaCosts(children, x), AreaBeats, i);
    }
  }

  /** With a single child the first iteration beats the sentinels, and index
      0 is returned at every level. */
  lemma SingleChildIsChosen(b: Box, x: Box, relativeLevel: nat)
    requires SameDim(b, x)
    ensures Apply([b], x, relativeLevel) == 0
  {
  }
}
