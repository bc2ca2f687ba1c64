/**
  lib/rosterpilot/combat-bridge.ts, `activationConstraintIssue`, `activationVariant` and
  `enumerateActivationEnvelope`: the list of optional activations a combat cell may enable.
  Messages are not modelled; every branch, code and severity is.
 */
module ActivationEnvelope {
  import opened Wrappers
  import opened Ordering
  import opened CombatTypes

  type Levers = map<string, Lever>

  // ---- What a legal activation set is ----

  /** How many of the listed activations belong to a group. */
  function GroupCount(ids: seq<string>, levers: Levers, groupId: string): nat {
    if ids == [] then 0
    else
      GroupCount(ids[..|ids| - 1], levers, groupId) +
      (if InGroup(ids[|ids| - 1], levers, groupId) then 1 else 0)
  }

  predicate InGroup(id: string, levers: Levers, groupId: string) {
    id in levers && levers[id].group.Some? && levers[id].group.value.id == groupId
  }

  function Cost(ids: seq<string>, levers: Levers): real {
    if ids == [] then 0.0
    else
      Cost(ids[..|ids| - 1], levers) +
      (if ids[|ids| - 1] in levers then levers[ids[|ids| - 1]].cpCost else 0.0)
  }

  /** The budget and every group limit hold for the set as a whole. */
  ghost predicate Feasible(ids: seq<string>, levers: Levers, budget: Option<real>) {
    && (forall id :: id in ids ==> id in levers)
    && (forall id :: id in ids && id in levers && levers[id].group.Some? ==>
          GroupCount(ids, levers, levers[id].group.value.id) as real <= levers[id].group.value.maxActivations)
    && (budget.Some? ==> Cost(ids, levers) <= budget.value)
  }

  /** What the checker accepts of any list: group counts are tested as the list is read. */
  predicate Accepts(ids: seq<string>, levers: Levers, budget: Option<real>) {
    && (forall i :: 0 <= i < |ids| ==> StepAllowed(ids, i, levers))
    && (budget.Some? ==> Cost(ids, levers) <= budget.value)
  }

  predicate StepAllowed(ids: seq<string>, i: nat, levers: Levers)
    requires i < |ids|
  {
    && ids[i] in levers
    && (levers[ids[i]].group.Some? ==>
          GroupCount(ids[..i + 1], levers, levers[ids[i]].group.value.id) as real <=
          levers[ids[i]].group.value.maxActivations)
  }

  datatype ConstraintIssue =
    | UnknownActivation(id: string)
    | GroupExceeded(groupId: string)
    | BudgetExceeded(spent: real)

  method ActivationConstraintIssue(activeIds: seq<string>, levers: Levers, budget: Option<real>)
    returns (issue: Option<ConstraintIssue>)
    ensures issue.None? <==> Accepts(activeIds, levers, budget)
  {
    var groupCounts: map<string, nat> := map[];
    var cpSpent := 0.0;
    for i := 0 to |activeIds|
      invariant forall k :: 0 <= k < i ==> StepAllowed(activeIds, k, levers)
      invariant cpSpent == Cost(activeIds[..i], levers)
      invariant forall g :: (if g in groupCounts then groupCounts[g] else 0) == GroupCount(activeIds[..i], levers, g)
    {
      var id := activeIds[i];
      assert activeIds[..i + 1][..i] == activeIds[..i];
      if id !in levers {
        assert !StepAllowed(activeIds, i, levers);
        return Some(UnknownActivation(id));
      }
      var lever := levers[id];
      cpSpent := cpSpent + lever.cpCost;
      if lever.group.Some? {
        var g := lever.group.value.id;
        var count := (if g in groupCounts then groupCounts[g] else 0) + 1;
        groupCounts := groupCounts[g := count];
        if count as real > lever.group.value.maxActivations {
          assert !StepAllowed(activeIds, i, levers);
          return Some(GroupExceeded(g));
        }
      }
    }
    assert activeIds[..|activeIds|] == activeIds;
    if budget.Some? && cpSpent > budget.value {
      return Some(BudgetExceeded(cpSpent));
    }
    return None;
  }

  ghost predicate ConsistentGroups(levers: Levers) {
    forall a, b ::
      (&& a in levers && b in levers && levers[a].group.Some? && levers[b].group.Some?
       && levers[a].group.value.id == levers[b].group.value.id)
      ==> levers[a].group == levers[b].group
  }

  ghost predicate NonNegativeCosts(levers: Levers) {
    forall id :: id in levers ==> levers[id].cpCost >= 0.0
  }

  lemma {:induction false} GroupCountPrefix(ids: seq<string>, levers: Levers, groupId: string, i: nat)
    requires i <= |ids|
    ensures GroupCount(ids[..i], levers, groupId) <= GroupCount(ids, levers, groupId)
  {
    if i < |ids| {
      GroupCountPrefix(ids[..|ids| - 1], levers, groupId, i);
      assert ids[..|ids| - 1][..i] == ids[..i];
    } else {
      assert ids[..i] == ids;
    }
  }

  /** The last member of a group sees the count of the whole list. */
  lemma {:induction false} LastOfGroup(ids: seq<string>, levers: Levers, groupId: string) returns (i: nat)
    requires GroupCount(ids, levers, groupId) > 0
    ensures i < |ids| && InGroup(ids[i], levers, groupId)
    ensures GroupCount(ids[..i + 1], levers, groupId) == GroupCount(ids, levers, groupId)
  {
    var n := |ids| - 1;
    if InGroup(ids[n], levers, groupId) {
      i := n;
      assert ids[..n + 1] == ids;
    } else {
      i := LastOfGroup(ids[..n], levers, groupId);
      assert ids[..n][..i + 1] == ids[..i + 1];
    }
  }

  lemma {:induction false} MemberCounts(ids: seq<string>, levers: Levers, groupId: string, id: string)
    requires id in ids && InGroup(id, levers, groupId)
    ensures GroupCount(ids, levers, groupId) > 0
  {
    var n := |ids| - 1;
    if ids[n] != id {
      assert ids == ids[..n] + [ids[n]];
      MemberCounts(ids[..n], levers, groupId, id);
    }
  }

  /** Reading the list one activation at a time decides feasibility of the whole set. */
  lemma AcceptsIffFeasible(ids: seq<string>, levers: Levers, budget: Option<real>)
    requires ConsistentGroups(levers)
    ensures Accepts(ids, levers, budget) <==> Feasible(ids, levers, budget)
  {
    if Accepts(ids, levers, budget) {
      forall id | id in ids ensures id in levers {
        var i :| 0 <= i < |ids| && ids[i] == id;
        assert StepAllowed(ids, i, levers);
      }
      forall id | id in ids && id in levers && levers[id].group.Some?
        ensures GroupCount(ids, levers, levers[id].group.value.id) as real <= levers[id].group.value.maxActivations
      {
        var g := levers[id].group.value.id;
        MemberCounts(ids, levers, g, id);
        var i := LastOfGroup(ids, levers, g);
        assert StepAllowed(ids, i, levers);
      }
    }
    if Feasible(ids, levers, budget) {
      forall i | 0 <= i < |ids| ensures StepAllowed(ids, i, levers) {
        assert ids[i] in ids;
        if levers[ids[i]].group.Some? {
          GroupCountPrefix(ids, levers, levers[ids[i]].group.value.id, i + 1);
        }
      }
    }
  }

  // ---- Removing activations keeps a set legal ----

  /** `a` keeps some of the activations of `b`, in order. */
  ghost predicate Subsequence(a: seq<string>, b: seq<string>) {
    if a == [] then true
    else if b == [] then false
    else
      || (a[|a| - 1] == b[|b| - 1] && Subsequence(a[..|a| - 1], b[..|b| - 1]))
      || Subsequence(a, b[..|b| - 1])
  }

  lemma {:induction false} SubsequenceShrinks(a: seq<string>, b: seq<string>, levers: Levers, groupId: string)
    requires Subsequence(a, b)
    requires NonNegativeCosts(levers)
    ensures |a| <= |b| && (|a| == |b| ==> a == b)
    ensures forall x :: x in a ==> x in b
    ensures GroupCount(a, levers, groupId) <= GroupCount(b, levers, groupId)
    ensures Cost(a, levers) <= Cost(b, levers)
  {
    if b != [] {
      var n := |b| - 1;
      assert b == b[..n] + [b[n]];
      if a == [] {
        SubsequenceShrinks(a, b[..n], levers, groupId);
      } else {
        var m := |a| - 1;
        assert a == a[..m] + [a[m]];
        if a[m] == b[n] && Subsequence(a[..m], b[..n]) {
          SubsequenceShrinks(a[..m], b[..n], levers, groupId);
        } else {
          SubsequenceShrinks(a, b[..n], levers, groupId);
        }
      }
    }
  }

  lemma FeasibleDownward(a: seq<string>, b: seq<string>, levers: Levers, budget: Option<real>)
    requires Subsequence(a, b) && Feasible(b, levers, budget) && NonNegativeCosts(levers)
    ensures Feasible(a, levers, budget)
  {
    SubsequenceShrinks(a, b, levers, "");
    forall id | id in a && id in levers && levers[id].group.Some?
      ensures GroupCount(a, levers, levers[id].group.value.id) as real <= levers[id].group.value.maxActivations
    {
      SubsequenceShrinks(a, b, levers, levers[id].group.value.id);
    }
  }

  lemma {:induction false} AscendingSubset(a: seq<string>, b: seq<string>)
    requires Ascending(a) && Ascending(b)
    requires forall x :: x in a ==> x in b
    ensures Subsequence(a, b)
  {
    if a != [] {
      var m := |a| - 1;
      assert a[m] in b;
      var n := |b| - 1;
      assert b == b[..n] + [b[n]] && a == a[..m] + [a[m]];
      if a[m] == b[n] {
        forall x | x in a[..m] ensures x in b[..n] {
          assert x in b;
          if x == b[n] { StringLessIrreflexive(x); }
        }
        AscendingSubset(a[..m], b[..n]);
      } else {
        LastIsBelow(a, b);
        forall x | x in a ensures x in b[..n] { assert x in b && x != b[n]; }
        AscendingSubset(a, b[..n]);
      }
    }
  }

  /** If the last of `a` is not the last of `b`, the last of `b` is not in `a` at all. */
  lemma LastIsBelow(a: seq<string>, b: seq<string>)
    requires Ascending(a) && Ascending(b) && a != [] && b != []
    requires a[|a| - 1] in b && a[|a| - 1] != b[|b| - 1]
    ensures b[|b| - 1] !in a
  {
    var x, y := a[|a| - 1], b[|b| - 1];
    var k :| 0 <= k < |b| && b[k] == x;
    assert StringLess(x, y);
    forall i | 0 <= i < |a| ensures a[i] != y {
      if a[i] == y {
        StringLessTransitive(x, y, x);
        StringLessIrreflexive(x);
      }
    }
  }
}
