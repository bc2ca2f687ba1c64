/**
  lib/rosterpilot/combat-bridge.ts:705-728: how many of a given list of activations one accepted set can
  hold under a CP budget. Taking the cheapest first while their groups have room is optimal.
 */
module BudgetCapacity {
  import opened Sequences
  import opened Wrappers
  import opened Ordering
  import opened CombatTypes
  import opened ActivationEnvelope
  import opened GroupCapacity

  function Price(id: string, table: Levers): real { if id in table then table[id].cpCost else 0.0 }

  function CheaperThan(table: Levers): (string, string) -> bool { (a, b) => Price(a, table) < Price(b, table) }

  /** The list, cheapest first. */
  function ByCost(ids: seq<string>, table: Levers): seq<string> { SortBy(CheaperThan(table), ids) }

  ghost predicate CostOrdered(ids: seq<string>, table: Levers) {
    forall i, j :: 0 <= i < j < |ids| ==> Price(ids[i], table) <= Price(ids[j], table)
  }

  lemma ByCostSorted(ids: seq<string>, table: Levers)
    requires Grouped(ids, table) && NoRepeats(ids)
    ensures CostOrdered(ByCost(ids, table), table) && NoRepeats(ByCost(ids, table)) &&
            Grouped(ByCost(ids, table), table)
    ensures forall id :: id in ByCost(ids, table) <==> id in ids
  {
    var before, sorted := CheaperThan(table), ByCost(ids, table);
    assert WeakOrder(before);
    SortBySorted(before, ids);
    SortByMembers(before, ids);
    SortByMultiset(before, ids);
    hide SortBy, ByCost;
    forall i, j | 0 <= i < j < |sorted| ensures sorted[i] != sorted[j] {
      NoRepeatCount(ids, sorted[i]);
      if sorted[i] == sorted[j] { CountTwice(sorted, i, j); }
    }
    forall i, j | 0 <= i < j < |sorted| ensures Price(sorted[i], table) <= Price(sorted[j], table) {
      assert !before(sorted[j], sorted[i]);
    }
    forall i | 0 <= i < |sorted| ensures sorted[i] in table && table[sorted[i]].group.Some? {
      assert sorted[i] in sorted;
      var k :| 0 <= k < |ids| && ids[k] == sorted[i];
    }
  }

  /** What the active ones of a list cost. */
  function ActiveCost(ids: seq<string>, active: seq<string>, table: Levers): real {
    if ids == [] then 0.0
    else
      ActiveCost(ids[..|ids| - 1], active, table) +
      (if ids[|ids| - 1] in active then Price(ids[|ids| - 1], table) else 0.0)
  }

  // ---- Counting from either side ----

  function Both(xs: seq<string>, ys: seq<string>): set<string> { set id | id in xs && id in ys }

  lemma BothLast(xs: seq<string>, x: string, ys: seq<string>)
    requires x !in xs
    ensures |Both(xs + [x], ys)| == |Both(xs, ys)| + if x in ys then 1 else 0
  {
    var before := Both(xs, ys);
    assert x !in before;
    if x in ys {
      assert Both(xs + [x], ys) == before + {x};
    } else {
      assert Both(xs + [x], ys) == before;
    }
  }

  lemma {:induction false} CountIsSet(xs: seq<string>, ys: seq<string>)
    requires NoRepeats(xs)
    ensures CountListed(xs, ys) == |Both(xs, ys)|
  {
    if xs == [] {
      assert Both(xs, ys) == {};
    } else {
      hide Both;
      var n := |xs| - 1;
      assert xs == xs[..n] + [xs[n]] && xs[n] !in xs[..n];
      CountIsSet(xs[..n], ys);
      BothLast(xs[..n], xs[n], ys);
    }
  }

  lemma CountBothWays(xs: seq<string>, ys: seq<string>)
    requires NoRepeats(xs) && NoRepeats(ys)
    ensures CountListed(xs, ys) == CountListed(ys, xs)
  {
    CountIsSet(xs, ys);
    CountIsSet(ys, xs);
    assert Both(xs, ys) == Both(ys, xs);
  }

  lemma {:induction false} CountSameMembers(active: seq<string>, xs: seq<string>, ys: seq<string>)
    requires forall id :: id in xs <==> id in ys
    ensures CountListed(active, xs) == CountListed(active, ys)
  {
    if active != [] { CountSameMembers(active[..|active| - 1], xs, ys); }
  }

  // ---- The active part of a list costs no more than the whole set ----

  lemma {:induction false} CostAround(before: seq<string>, x: string, after: seq<string>, table: Levers)
    ensures Cost(before + [x] + after, table) == Cost(before + after, table) + Price(x, table)
    decreases |after|
  {
    if after == [] {
      assert before + [x] + after == before + [x] && before + after == before && (before + [x])[..|before|] == before;
    } else {
      var n := |after| - 1;
      CostAround(before, x, after[..n], table);
      assert (before + [x] + after)[..|before + [x] + after| - 1] == before + [x] + after[..n];
      assert (before + after)[..|before + after| - 1] == before + after[..n];
    }
  }

  lemma {:induction false} ActiveCostSame(ids: seq<string>, a: seq<string>, b: seq<string>, table: Levers)
    requires forall id :: id in ids ==> (id in a <==> id in b)
    ensures ActiveCost(ids, a, table) == ActiveCost(ids, b, table)
  {
    if ids != [] {
      assert ids[|ids| - 1] in ids;
      ActiveCostSame(ids[..|ids| - 1], a, b, table);
    }
  }

  lemma {:induction false} CostNonNegative(ids: seq<string>, table: Levers)
    requires NonNegativeCosts(table)
    ensures Cost(ids, table) >= 0.0
  {
    if ids != [] { CostNonNegative(ids[..|ids| - 1], table); }
  }

  lemma {:induction false} ActiveCostWithin(ids: seq<string>, active: seq<string>, table: Levers)
    requires NoRepeats(ids) && NoRepeats(active) && NonNegativeCosts(table)
    ensures ActiveCost(ids, active, table) <= Cost(active, table)
    decreases |ids|
  {
    if ids == [] {
      CostNonNegative(active, table);
    } else {
      var n := |ids| - 1;
      var x := ids[n];
      if x in active {
        var k :| 0 <= k < |active| && active[k] == x;
        var others := active[..k] + active[k + 1..];
        assert active == active[..k] + [x] + active[k + 1..];
        ActiveCostWithin(ids[..n], others, table);
        ActiveCostSame(ids[..n], others, active, table);
        CostAround(active[..k], x, active[k + 1..], table);
      } else {
        ActiveCostWithin(ids[..n], active, table);
      }
    }
  }

  // ---- The cheapest first is the best ----

  /** No part of the list has more active ids than filling takes from it. */
  ghost predicate Outfilled(ids: seq<string>, active: seq<string>, table: Levers)
    requires Grouped(ids, table)
  {
    forall m :: 0 <= m <= |ids| ==> CountListed(ids[..m], active) <= |Fill(ids[..m], table)|
  }

  /** As many of the filled ones as are active cost no more than the active ones do. */
  lemma {:induction false} FillIsCheapest(ids: seq<string>, active: seq<string>, table: Levers)
    requires Grouped(ids, table) && NoRepeats(ids) && CostOrdered(ids, table) && Outfilled(ids, active, table)
    ensures CountListed(ids, active) <= |Fill(ids, table)|
    ensures Cost(Fill(ids, table)[..CountListed(ids, active)], table) <= ActiveCost(ids, active, table)
  {
    assert ids[..|ids|] == ids;
    if ids != [] {
      var n := |ids| - 1;
      OutfilledPrefix(ids, active, table);
      FillIsCheapest(ids[..n], active, table);
      var before, all, k := Fill(ids[..n], table), Fill(ids, table), CountListed(ids[..n], active);
      assert before <= all && all[..k] == before[..k];
      if ids[n] in active {
        FillMembers(ids, table);
        assert all[k] in ids;
        var i :| 0 <= i < |ids| && ids[i] == all[k];
        assert all[..k + 1][..k] == all[..k];
        assert Price(all[k], table) <= Price(ids[n], table);
      }
    }
  }

  lemma OutfilledPrefix(ids: seq<string>, active: seq<string>, table: Levers)
    requires Grouped(ids, table) && Outfilled(ids, active, table) && ids != []
    ensures Outfilled(ids[..|ids| - 1], active, table)
  {
    var before := ids[..|ids| - 1];
    forall m | 0 <= m <= |before| ensures CountListed(before[..m], active) <= |Fill(before[..m], table)| {
      assert before[..m] == ids[..m];
    }
  }

  lemma AcceptedOutfilled(ids: seq<string>, active: seq<string>, table: Levers, budget: Option<real>)
    requires ConsistentGroups(table) && Grouped(ids, table) && NoRepeats(ids)
    requires NoRepeats(active) && Accepts(active, table, budget)
    ensures Outfilled(ids, active, table)
  {
    hide Accepts, ConsistentGroups, Fill;
    forall m | 0 <= m <= |ids| ensures CountListed(ids[..m], active) <= |Fill(ids[..m], table)| {
      AtMostCapacity(active, ids[..m], table, budget);
      FillAccepted(ids[..m], table);
      CountBothWays(ids[..m], active);
    }
  }

  // ---- Exactly how many an accepted set can hold ----

  /** The `n` cheapest that fit their groups exist and are within the budget. */
  predicate Reaches(ids: seq<string>, table: Levers, budget: Option<real>, n: nat)
    requires Grouped(ByCost(ids, table), table)
  {
    var best := Fill(ByCost(ids, table), table);
    n <= |best| && (budget.Some? ==> Cost(best[..n], table) <= budget.value)
  }

  lemma {:induction false} CostPrefix(ids: seq<string>, n: nat, table: Levers)
    requires n <= |ids| && NonNegativeCosts(table)
    ensures Cost(ids[..n], table) <= Cost(ids, table)
  {
    if n == |ids| {
      assert ids[..n] == ids;
    } else {
      assert ids[..|ids| - 1][..n] == ids[..n];
      CostPrefix(ids[..|ids| - 1], n, table);
    }
  }

  lemma AcceptedIsReached(ids: seq<string>, active: seq<string>, table: Levers, budget: Option<real>)
    requires ConsistentGroups(table) && NonNegativeCosts(table) && Grouped(ids, table) && NoRepeats(ids)
    requires NoRepeats(active) && Accepts(active, table, budget)
    ensures Grouped(ByCost(ids, table), table)
    ensures forall n: nat :: n <= CountListed(active, ids) ==> Reaches(ids, table, budget, n)
  {
    ByCostSorted(ids, table);
    var sorted := ByCost(ids, table);
    hide ByCost, ConsistentGroups, NonNegativeCosts, Fill, CostOrdered;
    AcceptedOutfilled(sorted, active, table, budget);
    FillIsCheapest(sorted, active, table);
    ActiveCostWithin(sorted, active, table);
    CountBothWays(sorted, active);
    CountSameMembers(active, sorted, ids);
    var best, c := Fill(sorted, table), CountListed(active, ids);
    forall n: nat | n <= c ensures Reaches(ids, table, budget, n) {
      assert best[..c][..n] == best[..n];
      CostPrefix(best[..c], n, table);
    }
  }

  lemma ReachedIsAccepted(ids: seq<string>, table: Levers, budget: Option<real>, n: nat) returns (active: seq<string>)
    requires ConsistentGroups(table) && Grouped(ids, table) && NoRepeats(ids)
    requires Grouped(ByCost(ids, table), table) && Reaches(ids, table, budget, n)
    ensures NoRepeats(active) && Accepts(active, table, budget) && CountListed(active, ids) == n
  {
    ByCostSorted(ids, table);
    var sorted := ByCost(ids, table);
    var best := Fill(sorted, table);
    FillAccepted(sorted, table);
    FillMembers(sorted, table);
    active := best[..n];
    PrefixAccepted(best, n, table, budget);
    forall id | id in active ensures id in ids { assert id in best; }
    AllListed(active, ids);
  }

  lemma PrefixAccepted(best: seq<string>, n: nat, table: Levers, budget: Option<real>)
    requires ConsistentGroups(table) && n <= |best| && Accepts(best, table, None)
    requires budget.Some? ==> Cost(best[..n], table) <= budget.value
    ensures Accepts(best[..n], table, budget)
  {
    forall i | 0 <= i < n ensures StepAllowed(best[..n], i, table) {
      assert StepAllowed(best, i, table) && best[..n][..i + 1] == best[..i + 1];
    }
  }

  /**
    Some accepted set holds at least `n` of the listed activations exactly when the `n` cheapest that fit their
    groups are within the budget.
   */
  lemma ReachesIff(ids: seq<string>, table: Levers, budget: Option<real>, n: nat)
    requires ConsistentGroups(table) && NonNegativeCosts(table) && Grouped(ids, table) && NoRepeats(ids)
    ensures Grouped(ByCost(ids, table), table)
    ensures Reaches(ids, table, budget, n)
       <==> exists active :: NoRepeats(active) && Accepts(active, table, budget) && CountListed(active, ids) >= n
  {
    ByCostSorted(ids, table);
    hide *;
    if Reaches(ids, table, budget, n) {
      var active := ReachedIsAccepted(ids, table, budget, n);
    }
    forall active | NoRepeats(active) && Accepts(active, table, budget) && CountListed(active, ids) >= n
      ensures Reaches(ids, table, budget, n)
    {
      AcceptedIsReached(ids, active, table, budget);
    }
  }
}
