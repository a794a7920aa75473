/** The running-best loop shared by both subtree-choice strategies: entries
    are examined in ascending index order, and an entry replaces the current
    best when its cost `beats` the best cost.  Before the first entry the loop
    holds numeric-maximum sentinels, which every real cost beats; here that
    state is `NoBest`. */
module RunningBest {

  /** The loop's running best: no entry examined yet, or the index of the
      current best entry together with the costs recorded for it. */
  datatype Running<C> = NoBest | Best(index: nat, cost: C)

  /** The index the loop returns: that of the best entry, or the initial 0
      when no entry was examined. */
  function ChosenIndex<C>(r: Running<C>): nat {
    match r
    case NoBest => 0
    case Best(i, _) => i
  }

  /** One iteration for entry `i` with cost `c`. */
  function Step<C>(acc: Running<C>, i: nat, c: C, beats: (C, C) -> bool): Running<C> {
    match acc
    case NoBest => Best(i, c)
    case Best(_, b) => if beats(c, b) then Best(i, c) else acc
  }

  /** The loop as a left fold: the running best after examining every entry
      of `costs` in order.  The recorded cost is always the cost of the entry
      at the recorded index, and no entry after that index beats it.  That the
      recorded entry beat the best before it is `ScanReplacedPrefixBest`. */
  function Scan<C>(costs: seq<C>, beats: (C, C) -> bool): (r: Running<C>)
    ensures r.NoBest? <==> |costs| == 0
    ensures r.Best? ==> r.index < |costs| && r.cost == costs[r.index]
    ensures r.Best? ==> forall j :: r.index < j < |costs| ==> !beats(costs[j], r.cost)
  {
    if |costs| == 0 then NoBest
    else Step(Scan(costs[..|costs| - 1], beats), |costs| - 1, costs[|costs| - 1], beats)
  }

  /** An entry that beats every earlier entry and is beaten by no later one
      is the one the loop returns, whatever the relation. */
  lemma {:induction false} ScanDominant<C>(costs: seq<C>, beats: (C, C) -> bool, i: nat)
    requires i < |costs|
    requires forall j :: 0 <= j < i ==> beats(costs[i], costs[j])
    requires forall j :: i < j < |costs| ==> !beats(costs[j], costs[i])
    ensures Scan(costs, beats) == Best(i, costs[i])
  {
    var n := |costs|;
    var prefix := costs[..n - 1];
    if i < n - 1 {
      ScanDominant(prefix, beats, i);
    } else {
      var p := Scan(prefix, beats);
      if p.Best? {
        assert beats(costs[i], costs[p.index]);
      }
    }
  }

  /** The other half of what the loop does: the returned entry, unless it is
      the first, replaced the best of the entries before it when it was
      examined. */
  lemma {:induction false} ScanReplacedPrefixBest<C>(costs: seq<C>, beats: (C, C) -> bool)
    requires |costs| > 0
    ensures var r := Scan(costs, beats);
      r.index > 0 ==> beats(costs[r.index], Scan(costs[..r.index], beats).cost)
  {
    var n := |costs|;
    var prefix := costs[..n - 1];
    var p := Scan(prefix, beats);
    var r := Scan(costs, beats);
    if r.index == n - 1 {
      if n > 1 {
        assert p.Best? && beats(costs[n - 1], p.cost);
      }
    } else {
      assert r == p;
      ScanReplacedPrefixBest(prefix, beats);
      assert prefix[..r.index] == costs[..r.index];
    }
  }

  /** Once entry `k` is the best after `m` entries, it stays the best through
      entry `n` when none of the entries from `m` on beats it. */
  lemma {:induction false} ScanKeepsBest<C>(costs: seq<C>, beats: (C, C) -> bool, k: nat, m: nat)
    requires k < m <= |costs|
    requires Scan(costs[..m], beats) == Best(k, costs[k])
    requires forall j :: m <= j < |costs| ==> !beats(costs[j], costs[k])
    ensures Scan(costs, beats) == Best(k, costs[k])
  {
    var n := |costs|;
    if m == n {
      assert costs[..m] == costs;
    } else {
      var prefix := costs[..n - 1];
      assert prefix[..m] == costs[..m] && prefix[k] == costs[k];
      ScanKeepsBest(prefix, beats, k, m);
    }
  }

  /** The returned index characterised without the fold's final result: `k`
      is returned exactly when it is the first entry or beats the best of the
      entries before it, and no later entry beats it. */
  lemma ScanResultIff<C>(costs: seq<C>, beats: (C, C) -> bool, k: nat)
    requires |costs| > 0
    ensures ChosenIndex(Scan(costs, beats)) == k
        <==> && k < |costs|
             && (k == 0 || beats(costs[k], Scan(costs[..k], beats).cost))
             && (forall j :: k < j < |costs| ==> !beats(costs[j], costs[k]))
  {
    ScanReplacedPrefixBest(costs, beats);
    if && k < |costs|
       && (k == 0 || beats(costs[k], Scan(costs[..k], beats).cost))
       && (forall j :: k < j < |costs| ==> !beats(costs[j], costs[k]))
    {
      var upto := costs[..k + 1];
      assert upto[..k] == costs[..k];
      assert Scan(upto, beats) == Best(k, costs[k]);
      ScanKeepsBest(costs, beats, k, k + 1);
    }
  }

  /** `less` is irreflexive, transitive and relates any two distinct values. */
  ghost predicate StrictTotalOrder<C(!new)>(less: (C, C) -> bool) {
    && (forall a :: !less(a, a))
    && (forall a, b, c :: less(a, b) && less(b, c) ==> less(a, c))
    && (forall a, b :: a != b ==> less(a, b) || less(b, a))
  }

  /** Index `k` holds a minimum of `costs` under `less`, and every earlier
      entry is strictly worse: the first minimum in scan order. */
  ghost predicate IsFirstMinimum<C>(costs: seq<C>, k: nat, less: (C, C) -> bool) {
    && k < |costs|
    && (forall j :: 0 <= j < k ==> less(costs[k], costs[j]))
    && (forall j :: k < j < |costs| ==> !less(costs[j], costs[k]))
  }

  /** Under a strict total order at most one index is the first minimum. */
  lemma FirstMinimumUnique<C(!new)>(costs: seq<C>, k1: nat, k2: nat, less: (C, C) -> bool)
    requires StrictTotalOrder(less)
    requires IsFirstMinimum(costs, k1, less) && IsFirstMinimum(costs, k2, less)
    ensures k1 == k2
  {
    var c1, c2 := costs[k1], costs[k2];
    assert !less(c1, c1) && !less(c2, c2);
  }

  /** When the update rule is a strict total order, the loop returns the
      first minimum. */
  lemma {:induction false} ScanFirstMinimum<C(!new)>(costs: seq<C>, less: (C, C) -> bool)
    requires StrictTotalOrder(less) && |costs| > 0
    ensures IsFirstMinimum(costs, Scan(costs, less).index, less)
  {
    var n := |costs|;
    var prefix := costs[..n - 1];
    if n > 1 {
      ScanFirstMinimum(prefix, less);
      var k := Scan(prefix, less).index;
      var last := costs[n - 1];
      if less(last, costs[k]) {
        forall j | 0 <= j < n - 1
          ensures less(last, costs[j])
        {
          assert prefix[j] == costs[j];
          if j != k && costs[j] != costs[k] {
            assert less(costs[k], costs[j]);
          }
        }
      } else {
        assert forall j :: 0 <= j < k ==> prefix[j] == costs[j];
      }
    }
  }

  /** The first minimum, read as a statement about the returned index: the
      returned index is the first minimum, and no other index is. */
  lemma ScanIsFirstMinimumIff<C(!new)>(costs: seq<C>, less: (C, C) -> bool, k: nat)
    requires StrictTotalOrder(less) && |costs| > 0
    ensures ChosenIndex(Scan(costs, less)) == k <==> IsFirstMinimum(costs, k, less)
  {
    ScanFirstMinimum(costs, less);
    if IsFirstMinimum(costs, k, less) {
      FirstMinimumUnique(costs, k, Scan(costs, less).index, less);
    }
  }
}
