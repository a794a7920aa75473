# R*-tree ChooseNextNode, modelled in Dafny

This project models the subtree-choice step of Boost.Geometry's R*-tree
(`choose_next_node<..., choose_by_overlap_diff_tag>`). When an object is
inserted, this step picks which child of an internal node receives it. The
inputs are the node's child entries, the indexable (the box of the object
being inserted) and the node's relative level.

- When the children are leaves (relative level 0 or 1), the step uses
  `choose_by_minimum_overlap_cost`. For each child it computes three costs:
  - the growth of the summed overlap with its siblings when the child's box
    is expanded by the indexable;
  - the growth of the child's area;
  - the child's unexpanded area.

  It keeps a running best that is updated by a chain of three comparisons.
- Higher up, the step uses `choose_by_minimum_area_cost`. It keeps the
  lexicographic minimum of (area growth, expanded area).

The Dafny files are laid out as follows:

- `boxes.dfy` (`Boxes`): integer boxes (one `Interval` per axis) and the
  three primitives the source includes from elsewhere:
  - `Area` is the product of the extents;
  - `Overlap` is the product of `max(0, min(hi) - max(lo))`;
  - `Expand` takes the per-axis min of the lower bounds and max of the upper
    bounds.

  The file also holds their algebra: monotonicity, symmetry, when overlap
  is zero, and that `Expand` gives the least enclosing box.
- `running_best.dfy` (`RunningBest`): the loop's running best as a left fold
  `Scan` over the per-child costs.
  - The numeric-maximum sentinels become the state `NoBest`, which the first
    child always replaces.
  - It gives general facts about the fold: the recorded costs are those of
    the recorded index, no later entry beats the result, and a dominant entry
    wins.
  - Under a strict total order, the fold returns the first minimum, and no
    other index is the first minimum.
- `choose_next_node.dfy` (`ChooseNextNode`): the per-child costs, the two
  update tests exactly as written, both strategies, the level dispatch
  `Apply`, and the properties of the costs. It also holds the lexicographic
  variant of the overlap strategy (see Findings).
- `choose_next_node_loops.dfy` (`ChooseNextNodeLoops`): the same strategies
  as loops. There is a nested loop for the overlap sums and a running-best
  value for the best child. Each loop is proved equal to the fold.
- `rects.dfy` (`Rects`): closed forms for 2-D boxes, used to evaluate
  concrete nodes.
- `scenarios.dfy` (`Scenarios`) and `findings.dfy` (`Findings`): concrete
  nodes evaluated end to end.

A child entry is modelled as its box alone: its identity is its position in
the sequence. All child boxes and the indexable have the same dimension
(`Conforming`), because a single `Box` type fixes the dimension in the
source. Coordinates, areas and overlaps are unbounded integers, so the
equality tests in the update rules are exact.

Three facts about the code that the model makes explicit:

- **Empty children.** The code has no empty-node check: the loop does not
  run and index 0 is returned. Every strategy in the model is total and
  returns 0 for an empty node.
- **Overlap growth is never negative.** `OverlapDiffNonNegative` proves it:
  the expanded box contains the original box, so no term of the overlap sum
  can shrink.
- **The child that contains the indexable.** `ContainingChildIsChosen` needs
  every child box to have positive extent on every axis and exactly one
  child to contain the indexable. A flat sibling can grow without gaining
  area; it then ties on area growth and wins on its smaller area.

## Model

| member | source | states |
|---|---|---|
| `Boxes.Expand` | include/boost/geometry/extensions/index/rtree/rstar/choose_next_node.hpp:74-76 | The expanded box contains both the child's box and the indexable, and it is well-formed when the child's box is. |
| `Boxes.ExpandIsSmallest` | include/boost/geometry/extensions/index/rtree/rstar/choose_next_node.hpp:74-76 | Every box that contains both the child's box and the indexable also contains their expansion: the expansion is the least enclosing box. |
| `Boxes.ExpandContained` | include/boost/geometry/extensions/index/rtree/rstar/choose_next_node.hpp:131-132 | Expanding a box by something it already contains returns the same box. |
| `Boxes.AreaNonNegative` | include/boost/geometry/extensions/index/rtree/rstar/choose_next_node.hpp:79 | A well-formed box has non-negative area. |
| `Boxes.AreaMonotone` | include/boost/geometry/extensions/index/rtree/rstar/choose_next_node.hpp:79-80 | A well-formed box has no more area than any box that contains it. |
| `Boxes.AreaStrictlyGrows` | include/boost/geometry/extensions/index/rtree/rstar/choose_next_node.hpp:135-136 | A box with positive extent on every axis has strictly less area than any different box that contains it. |
| `Boxes.OverlapNonNegative` | include/boost/geometry/extensions/index/rtree/rstar/choose_next_node.hpp:92-93 | The overlap of two boxes is never negative. |
| `Boxes.OverlapSymmetric` | include/boost/geometry/extensions/index/rtree/rstar/choose_next_node.hpp:92-93 | Overlap(a, b) equals Overlap(b, a). |
| `Boxes.OverlapZeroIff` | include/boost/geometry/extensions/index/rtree/rstar/choose_next_node.hpp:92-93 | The overlap is zero exactly when the boxes share no positive length on some axis (both directions). |
| `Boxes.OverlapSelf` | include/boost/geometry/extensions/index/rtree/rstar/choose_next_node.hpp:92 | A well-formed box overlaps itself by exactly its area. |
| `Boxes.OverlapMonotone` | include/boost/geometry/extensions/index/rtree/rstar/choose_next_node.hpp:92-93 | Growing a box never shrinks its overlap with a fixed box. |
| `RunningBest.Scan` | include/boost/geometry/extensions/index/rtree/rstar/choose_next_node.hpp:99-109 | The fold has no best exactly when there are no entries. Otherwise the recorded index is valid, the recorded costs are that entry's, and no later entry passes the update test against them. `ScanReplacedPrefixBest` states the other half: the recorded entry beat the best before it. |
| `RunningBest.ScanReplacedPrefixBest` | include/boost/geometry/extensions/index/rtree/rstar/choose_next_node.hpp:99-109 | Unless the returned entry is the first, it passed the update test against the best of the entries before it when it was examined. |
| `RunningBest.ScanKeepsBest` | include/boost/geometry/extensions/index/rtree/rstar/choose_next_node.hpp:99-109 | An entry that is the best after some prefix stays the best to the end when no later entry passes the update test against it. |
| `RunningBest.ScanResultIff` | include/boost/geometry/extensions/index/rtree/rstar/choose_next_node.hpp:99-109 | For any update test and a non-empty input, an index is returned exactly when it is the first entry or beats the best of the entries before it, and no later entry beats it (both directions). |
| `RunningBest.ScanDominant` | include/boost/geometry/extensions/index/rtree/rstar/choose_next_node.hpp:99-109 | An entry that beats every earlier entry and that no later entry beats is the entry returned, for any update test. |
| `RunningBest.ScanFirstMinimum` | include/boost/geometry/extensions/index/rtree/rstar/choose_next_node.hpp:138-145 | When the update test is a strict total order, the returned index is the first minimum: strictly better than every earlier entry and not beaten by any later one. |
| `RunningBest.ScanIsFirstMinimumIff` | include/boost/geometry/extensions/index/rtree/rstar/choose_next_node.hpp:138-148 | Under a strict total order, an index is returned exactly when it is the first minimum (both directions). |
| `ChooseNextNode.ChooseByMinimumOverlapCost` | include/boost/geometry/extensions/index/rtree/rstar/choose_next_node.hpp:58-112 | With no children the result is 0. Otherwise it is a valid index. Unless it is 0, the chosen child's (overlap growth, area growth, area) passed the three-clause update test against the best recorded over the children before it. No later child's costs pass the test against the chosen child's. |
| `ChooseNextNode.OverlapChoiceIff` | include/boost/geometry/extensions/index/rtree/rstar/choose_next_node.hpp:99-109 | For a non-empty node, an index is the overlap strategy's answer exactly when it is child 0 or beats the best recorded before it, and no later child beats it (both directions). This determines the answer uniquely. |
| `ChooseNextNode.OverlapRunningBest` | include/boost/geometry/extensions/index/rtree/rstar/choose_next_node.hpp:100-107 | After each of the first n children, the recorded overlap growth, area growth and area are exactly the costs of the child at the recorded index. The area is the unexpanded one. |
| `ChooseNextNode.OverlapSumExcludesSelf` | include/boost/geometry/extensions/index/rtree/rstar/choose_next_node.hpp:86-95 | The overlap sum for child i does not depend on child i's own box. |
| `ChooseNextNode.OverlapSumMonotone` | include/boost/geometry/extensions/index/rtree/rstar/choose_next_node.hpp:86-97 | The summed overlap with the siblings never shrinks when the box grows. |
| `ChooseNextNode.OverlapDiffNonNegative` | include/boost/geometry/extensions/index/rtree/rstar/choose_next_node.hpp:74-97 | Every child's overlap growth is at least 0. |
| `ChooseNextNode.AreaDiffNonNegative` | include/boost/geometry/extensions/index/rtree/rstar/choose_next_node.hpp:74-80 | For a well-formed child, both strategies see a non-negative area growth. |
| `ChooseNextNode.ContainedChildCostsNothing` | include/boost/geometry/extensions/index/rtree/rstar/choose_next_node.hpp:74-97 | A child that contains the indexable has overlap cost (0, 0, its area) and area cost (0, its area). |
| `ChooseNextNode.UncontainedChildGrows` | include/boost/geometry/extensions/index/rtree/rstar/choose_next_node.hpp:131-136 | A child with positive extents that does not contain the indexable has a strictly positive area growth under both strategies. |
| `ChooseNextNode.AreaBeatsIsStrictTotalOrder` | include/boost/geometry/extensions/index/rtree/rstar/choose_next_node.hpp:139-140 | The area strategy's update test is a strict total order on (area growth, expanded area). |
| `ChooseNextNode.ChooseByMinimumAreaCost` | include/boost/geometry/extensions/index/rtree/rstar/choose_next_node.hpp:115-149 | With no children the result is 0. Otherwise it is the lowest index whose (area growth, expanded area) pair is lexicographically smallest. |
| `ChooseNextNode.AreaChoiceIsFirstMinimumIff` | include/boost/geometry/extensions/index/rtree/rstar/choose_next_node.hpp:131-148 | For a non-empty node, an index is the area strategy's answer exactly when it is the first lexicographic minimum of (area growth, expanded area) (both directions). |
| `ChooseNextNode.AreaTieGoesToFirst` | include/boost/geometry/extensions/index/rtree/rstar/choose_next_node.hpp:139-140 | Of two children with equal (area growth, expanded area), the area strategy never chooses the later one. |
| `ChooseNextNode.ChainKeepsBestOnTie` | include/boost/geometry/extensions/index/rtree/rstar/choose_next_node.hpp:100-108 | In the overlap strategy, a child whose costs equal the recorded best costs leaves the best unchanged, because all three clauses use strict `<`. |
| `ChooseNextNode.Apply` | include/boost/geometry/extensions/index/rtree/rstar/choose_next_node.hpp:44-54 | The result is a valid index when there are children, and 0 otherwise. At relative level <= 1 it is the overlap strategy's answer, so no later child passes the three-clause test against it. Above that it is the first lexicographic minimum of (area growth, expanded area). |
| `ChooseNextNode.ContainingChildIsChosen` | include/boost/geometry/extensions/index/rtree/rstar/choose_next_node.hpp:44-54 | Suppose all child boxes have positive extents and exactly one contains the indexable. Then that child is chosen at every level. |
| `ChooseNextNode.SingleChildIsChosen` | include/boost/geometry/extensions/index/rtree/rstar/choose_next_node.hpp:60-69 | With one child, index 0 is returned at every level: the first iteration always beats the sentinels. |
| `ChooseNextNode.LexBeatsIsStrictTotalOrder` | include/boost/geometry/extensions/index/rtree/rstar/choose_next_node.hpp:100-102 | The corrected update test (third clause also requires equal overlap growth) is a strict total order on the cost triples. |
| `ChooseNextNode.ChooseByMinimumOverlapCostLex` | include/boost/geometry/extensions/index/rtree/rstar/choose_next_node.hpp:100-102 | With the corrected test, the result is the first child whose (overlap growth, area growth, area) is lexicographically smallest. |
| `ChooseNextNode.LexChoiceMinimisesOverlapGrowth` | include/boost/geometry/extensions/index/rtree/rstar/choose_next_node.hpp:62 | The first lexicographic minimum of the cost triples, which is the corrected strategy's choice, has the least overlap growth of all children. |
| `ChooseNextNodeLoops.OverlapCostLoop` | include/boost/geometry/extensions/index/rtree/rstar/choose_next_node.hpp:72-97 | The loop body, including the inner loop over the siblings that skips `i == j`, computes exactly the child's cost triple. |
| `ChooseNextNodeLoops.ChooseByMinimumOverlapCostLoop` | include/boost/geometry/extensions/index/rtree/rstar/choose_next_node.hpp:58-112 | The loop with a running-best value returns the same index as the overlap-strategy fold, and that index is valid. |
| `ChooseNextNodeLoops.ChooseByMinimumAreaCostLoop` | include/boost/geometry/extensions/index/rtree/rstar/choose_next_node.hpp:115-149 | The loop with a running-best value returns the same index as the area-strategy fold, and that index is valid. |
| `ChooseNextNodeLoops.ApplyLoop` | include/boost/geometry/extensions/index/rtree/rstar/choose_next_node.hpp:44-54 | The imperative dispatch agrees with `Apply`. |
| `Scenarios.NearerSquareIsChosen` | include/boost/geometry/extensions/index/rtree/rstar/choose_next_node.hpp:44-54 | The squares [0,10]x[0,10] and [20,30]x[0,10] with the indexable [11,12]x[0,10]: the first square is chosen at every level. |
| `Scenarios.StrategiesDisagree` | include/boost/geometry/extensions/index/rtree/rstar/choose_next_node.hpp:49-53 | On one node the overlap rule (level 1) picks child 1 and the area rule (level 2) picks child 0, so the level decides the answer. |
| `Findings.ChainPrefersLargerOverlapGrowth` | include/boost/geometry/extensions/index/rtree/rstar/choose_next_node.hpp:100-102 | As written, the chain picks child B, whose overlap growth (1) is larger than child A's (0). |
| `Findings.ChainLaterDuplicateWins` | include/boost/geometry/extensions/index/rtree/rstar/choose_next_node.hpp:100-107 | As written, with children A, B, A the result is index 2, although children 0 and 2 have equal costs. |
| `Findings.LexPrefersSmallerOverlapGrowth` | include/boost/geometry/extensions/index/rtree/rstar/choose_next_node.hpp:100-102 | The corrected test picks A on the same node. |
| `Findings.LexFirstDuplicateWins` | include/boost/geometry/extensions/index/rtree/rstar/choose_next_node.hpp:100-107 | The corrected test gives the tie among A, B, A to index 0. |

## Left out

- Inputs are not changed: this holds by construction. Children and the
  indexable are immutable `seq`/datatype values, so no member needs to state
  it.
- Floating-point `area_type` and `overlap_type`: the model uses unbounded
  integers, so every real cost is below the maximum sentinel and the equality
  tests are exact. Rounding and sentinel collisions are not modelled.
- Boost's generic `geometry::expand`, `index::area` and `index::overlap`,
  with their tag dispatch over geometry kinds: the model uses its own integer
  box definitions. The indexable is taken to be a box. The headers that
  define these operations are not part of this model.
- Template machinery: `Options`, `node_tag`, the `internal_node`/`leaf`
  typedefs, `rtree::elements`, and the child pointer held in `.second`. A
  child is its box, and its identity is its index.
- The insertion driver that calls this step, node splitting, overflow
  treatment and reinsertion, and all concurrency: these are outside the
  choice step.
- ChooseNextNode.ChooseByMinimumOverlapCost: the contract does not claim
  the result minimises the overlap growth, because the chain as written does
  not promise that (see Findings). It characterises the result by the
  running best instead: the chosen child beat the best before it, and no
  later child beats it (`OverlapChoiceIff`).

## Findings

| source | as written | input that shows it | evidently intended | confidence | as-written member | corrected member |
|---|---|---|---|---|---|---|
| include/boost/geometry/extensions/index/rtree/rstar/choose_next_node.hpp:100-102 | The third clause `area_diff == smallest_area_diff && area < smallest_area` is not guarded by `overlap_diff == smallest_overlap_diff`. A child with a larger overlap growth therefore replaces the best when its area growth ties and its area is smaller. The update test is not transitive, and a later exact duplicate of an earlier child can win. | Children A=[1,3]x[0,4] and B=[2,3]x[0,2], indexable [2,4]x[0,3]. The costs are A=(0,4,8) and B=(1,4,2), and B is chosen. With children A, B, A, index 2 is chosen. | The lexicographic order (overlap growth, then area growth, then area) that the comment at line 62 and the R*-tree ChooseSubtree heuristic describe. Its first minimum goes to the lowest index. | medium; not executed | `Findings.ChainPrefersLargerOverlapGrowth`, `Findings.ChainLaterDuplicateWins` (on `ChooseNextNode.ChooseByMinimumOverlapCost`) | `ChooseNextNode.ChooseByMinimumOverlapCostLex` |

`Apply` and the loop methods keep the chain as written, because they model
what the code does. The corrected strategy sits next to it, with its
first-lexicographic-minimum contract and `LexChoiceMinimisesOverlapGrowth`
proved.
