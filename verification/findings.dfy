/** Concrete inputs on which the overlap strategy's update test, as written,
    departs from the lexicographic rule (overlap growth first, then area
    growth, then area) that the R*-tree heuristic describes, next to the
    lexicographic variant's answer on the same inputs. */
module Findings {
  import opened Boxes
  import opened ChooseNextNode
  import opened Rects

  function ChildA(): Box { Rect(1, 3, 0, 4) }

  function ChildB(): Box { Rect(2, 3, 0, 2) }

  function Indexable(): Box { Rect(2, 4, 0, 3) }

  /** Costs of A = [1,3]x[0,4] and B = [2,3]x[0,2] for the indexable
      [2,4]x[0,3].  Growing A costs no new overlap; growing B overlaps A by
      one more unit; both grow by 4 units of area, and B is the smaller box. */
  lemma CostsOfAB()
    ensures Conforming([ChildA(), ChildB()], Indexable())
    ensures OverlapCostAt([ChildA(), ChildB()], Indexable(), 0) == OverlapCost(0, 4, 8)
    ensures OverlapCostAt([ChildA(), ChildB()], Indexable(), 1) == OverlapCost(1, 4, 2)
  {
    ExpansionsOfAB();
    AreasOfAB();
    OverlapsOfAB();
    CostsOfPair(ChildA(), ChildB(), Indexable());
  }

  /** The expansions of A and B by the indexable. */
  lemma ExpansionsOfAB()
    ensures Expand(ChildA(), Indexable()) == Rect(1, 4, 0, 4)
    ensures Expand(ChildB(), Indexable()) == Rect(2, 4, 0, 3)
  {
    ExpandRect(1, 3, 0, 4, 2, 4, 0, 3);
    ExpandRect(2, 3, 0, 2, 2, 4, 0, 3);
  }

  lemma AreasOfAB()
    ensures Area(ChildA()) == 8 && Area(ChildB()) == 2
    ensures Area(Rect(1, 4, 0, 4)) == 12 && Area(Rect(2, 4, 0, 3)) == 6
  {
    AreaRect(1, 3, 0, 4);
    AreaRect(2, 3, 0, 2);
    AreaRect(1, 4, 0, 4);
    AreaRect(2, 4, 0, 3);
  }

  lemma OverlapsOfAB()
    ensures Overlap(ChildA(), ChildA()) == 8 && Overlap(Rect(1, 4, 0, 4), ChildA()) == 8
    ensures Overlap(ChildA(), ChildB()) == 2 && Overlap(ChildB(), ChildA()) == 2
    ensures Overlap(Rect(1, 4, 0, 4), ChildB()) == 2 && Overlap(Rect(2, 4, 0, 3), ChildA()) == 3
  {
    OverlapRect(1, 3, 0, 4, 1, 3, 0, 4);
    OverlapRect(1, 4, 0, 4, 1, 3, 0, 4);
    OverlapRect(1, 3, 0, 4, 2, 3, 0, 2);
    OverlapRect(2, 3, 0, 2, 1, 3, 0, 4);
    OverlapRect(1, 4, 0, 4, 2, 3, 0, 2);
    OverlapRect(2, 4, 0, 3, 1, 3, 0, 4);
  }

  /** As written: of A and B the update test picks B, whose overlap growth is
      the larger, because the third clause fires on equal area growth and a
      smaller area alone. */
  lemma ChainPrefersLargerOverlapGrowth()
    ensures Conforming([ChildA(), ChildB()], Indexable())
    ensures ChooseByMinimumOverlapCost([ChildA(), ChildB()], Indexable()) == 1
    ensures OverlapCostAt([ChildA(), ChildB()], Indexable(), 1).overlapDiff
          > OverlapCostAt([ChildA(), ChildB()], Indexable(), 0).overlapDiff
  {
    var cs := [ChildA(), ChildB()];
    CostsOfAB();
    var r := ChooseByMinimumOverlapCost(cs, Indexable());
    assert r != 0 by {
      assert ChainBeats(OverlapCostAt(cs, Indexable(), 1), OverlapCostAt(cs, Indexable(), 0));
    }
  }

  /** The lexicographic variant picks A on the same input. */
  lemma LexPrefersSmallerOverlapGrowth()
    ensures Conforming([ChildA(), ChildB()], Indexable())
    ensures ChooseByMinimumOverlapCostLex([ChildA(), ChildB()], Indexable()) == 0
  {
    var cs := [ChildA(), ChildB()];
    CostsOfAB();
    var costs := OverlapCosts(cs, Indexable());
    assert !LexBeats(costs[1], costs[0]);
  }

  /** Costs of the children A, B, A (A twice, at indices 0 and 2): the two
      copies of A have equal costs, and growing B now overlaps both copies. */
  lemma CostsOfABA()
    ensures Conforming([ChildA(), ChildB(), ChildA()], Indexable())
    ensures OverlapCostAt([ChildA(), ChildB(), ChildA()], Indexable(), 0) == OverlapCost(0, 4, 8)
    ensures OverlapCostAt([ChildA(), ChildB(), ChildA()], Indexable(), 1) == OverlapCost(2, 4, 2)
    ensures OverlapCostAt([ChildA(), ChildB(), ChildA()], Indexable(), 2) == OverlapCost(0, 4, 8)
  {
    CostOfABAAt(0);
    CostOfABAAt(1);
    CostOfABAAt(2);
  }

  lemma CostOfABAAt(i: nat)
    requires i < 3
    ensures Conforming([ChildA(), ChildB(), ChildA()], Indexable())
    ensures OverlapCostAt([ChildA(), ChildB(), ChildA()], Indexable(), i)
         == if i == 1 then OverlapCost(2, 4, 2) else OverlapCost(0, 4, 8)
  {
    var a, b, x := ChildA(), ChildB(), Indexable();
    var cs := [a, b, a];
    assert Conforming(cs, x);
    ExpansionsOfAB();
    AreasOfAB();
    OverlapsOfAB();
    if i == 1 {
      OverlapSumOfTriple(b, a, b, a);
      OverlapSumOfTriple(Rect(2, 4, 0, 3), a, b, a);
      CostFromParts(cs, x, 1, 4, 6, 2, 6);
    } else {
      OverlapSumOfTriple(a, a, b, a);
      OverlapSumOfTriple(Rect(1, 4, 0, 4), a, b, a);
      CostFromParts(cs, x, i, 10, 10, 8, 12);
    }
  }

  /** As written, exact ties do not always go to the first child: with
      children A, B, A the second copy of A is chosen, although its costs
      equal those of the first.  B displaces the first A by the third clause,
      and the second A displaces B by the first. */
  lemma ChainLaterDuplicateWins()
    ensures Conforming([ChildA(), ChildB(), ChildA()], Indexable())
    ensures OverlapCostAt([ChildA(), ChildB(), ChildA()], Indexable(), 0)
         == OverlapCostAt([ChildA(), ChildB(), ChildA()], Indexable(), 2)
    ensures ChooseByMinimumOverlapCost([ChildA(), ChildB(), ChildA()], Indexable()) == 2
  {
    CostsOfABA();
  }

  /** The lexicographic variant gives the tie to the first copy of A. */
  lemma LexFirstDuplicateWins()
    ensures Conforming([ChildA(), ChildB(), ChildA()], Indexable())
    ensures ChooseByMinimumOverlapCostLex([ChildA(), ChildB(), ChildA()], Indexable()) == 0
  {
    CostsOfABA();
  }
}
