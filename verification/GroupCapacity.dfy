/**
  lib/rosterpilot/combat-bridge.ts:705-728: how many of a given list of activations one accepted set
  can hold when no budget limits it. It is the sum, over the groups of the list, of the smaller of
  the group's limit and its share of the list.
 */
module GroupCapacity {
  import opened Sequences
  import opened Wrappers
  import opened Ordering
  import opened CombatTypes
  import opened ActivationEnvelope

  /** As many of `n` as a limit lets through. */
  function Room(n: nat, limit: real): nat {
    if limit < 1.0 then 0 else if limit < n as real then limit.Floor else n
  }

  predicate Grouped(ids: seq<string>, table: Levers) {
    forall i :: 0 <= i < |ids| ==> ids[i] in table && table[ids[i]].group.Some?
  }

  /** The groups of a list of activations, once each. */
  function GroupsOf(ids: seq<string>, table: Levers): (r: seq<Group>)
    requires Grouped(ids, table)
    ensures NoRepeats(r) && forall g :: g in r <==> exists i :: 0 <= i < |ids| && table[ids[i]].group.value == g
  {
    if ids == [] then []
    else
      var n := |ids| - 1;
      var before := GroupsOf(ids[..n], table);
      if table[ids[n]].group.value in before then before else before + [table[ids[n]].group.value]
  }

  function SumOver(groups: seq<Group>, count: Group -> nat): nat {
    if groups == [] then 0 else SumOver(groups[..|groups| - 1], count) + count(groups[|groups| - 1])
  }

  function CountOf(ids: seq<string>, table: Levers): Group -> nat { (g: Group) => GroupCount(ids, table, g.id) }

  function RoomOf(ids: seq<string>, table: Levers): Group -> nat {
    (g: Group) => Room(GroupCount(ids, table, g.id), g.maxActivations)
  }

  /** The sum over the distinct groups of min(members listed, limit). */
  function Capacity(ids: seq<string>, table: Levers): nat
    requires Grouped(ids, table)
  {
    SumOver(GroupsOf(ids, table), RoomOf(ids, table))
  }

  /** How many of the active ids are on the list. */
  function CountListed(active: seq<string>, ids: seq<string>): nat {
    if active == [] then 0
    else CountListed(active[..|active| - 1], ids) + (if active[|active| - 1] in ids then 1 else 0)
  }

  // ---- Counting by group ----

  lemma {:induction false} SumOrder(groups: seq<Group>, f: Group -> nat, g: Group -> nat)
    requires forall x :: x in groups ==> f(x) <= g(x)
    ensures SumOver(groups, f) <= SumOver(groups, g)
  {
    if groups != [] { SumOrder(groups[..|groups| - 1], f, g); }
  }

  /** Counting one more member of one group adds one to the sum over groups that do not repeat. */
  lemma {:induction false} SumBump(groups: seq<Group>, f: Group -> nat, g: Group -> nat, x: Group)
    requires NoRepeats(groups) && forall y :: y in groups ==> g(y) == f(y) + (if y == x then 1 else 0)
    ensures SumOver(groups, g) == SumOver(groups, f) + (if x in groups then 1 else 0)
  {
    if groups != [] {
      var n := |groups| - 1;
      assert groups == groups[..n] + [groups[n]];
      SumBump(groups[..n], f, g, x);
    }
  }

  lemma {:induction false} SumZero(groups: seq<Group>, f: Group -> nat)
    requires forall x :: x in groups ==> f(x) == 0
    ensures SumOver(groups, f) == 0
  {
    if groups != [] { SumZero(groups[..|groups| - 1], f); }
  }

  /** A list whose members all belong to some of the groups is as long as their counts add up to. */
  lemma {:induction false} LengthByGroup(xs: seq<string>, table: Levers, groups: seq<Group>)
    requires ConsistentGroups(table) && Grouped(xs, table) && NoRepeats(groups)
    requires forall i :: 0 <= i < |xs| ==> table[xs[i]].group.value in groups
    requires forall g :: g in groups ==> exists id :: id in table && table[id].group == Some(g)
    ensures |xs| == SumOver(groups, CountOf(xs, table))
  {
    if xs == [] {
      SumZero(groups, CountOf(xs, table));
    } else {
      var n := |xs| - 1;
      LengthByGroup(xs[..n], table, groups);
      var own := table[xs[n]].group.value;
      forall g | g in groups ensures CountOf(xs, table)(g) == CountOf(xs[..n], table)(g) + (if g == own then 1 else 0) {
        var id :| id in table && table[id].group == Some(g);
        assert g.id == own.id ==> table[id].group == table[xs[n]].group;
      }
      SumBump(groups, CountOf(xs[..n], table), CountOf(xs, table), own);
    }
  }

  function Members(xs: seq<string>, table: Levers, groupId: string): set<string> {
    set id | id in xs && InGroup(id, table, groupId)
  }

  lemma {:induction false} CountIsMembers(xs: seq<string>, table: Levers, groupId: string)
    requires NoRepeats(xs)
    ensures GroupCount(xs, table, groupId) == |Members(xs, table, groupId)|
  {
    if xs == [] {
      assert Members(xs, table, groupId) == {};
    } else {
      var n := |xs| - 1;
      assert xs == xs[..n] + [xs[n]];
      CountIsMembers(xs[..n], table, groupId);
      var before, after := Members(xs[..n], table, groupId), Members(xs, table, groupId);
      assert after == if InGroup(xs[n], table, groupId) then before + {xs[n]} else before;
    }
  }

  lemma CountGrows(xs: seq<string>, ys: seq<string>, table: Levers, groupId: string)
    requires NoRepeats(xs) && NoRepeats(ys) && forall id :: id in xs ==> id in ys
    ensures GroupCount(xs, table, groupId) <= GroupCount(ys, table, groupId)
  {
    CountIsMembers(xs, table, groupId);
    CountIsMembers(ys, table, groupId);
    var a, b := Members(xs, table, groupId), Members(ys, table, groupId);
    assert a <= b && |b - a| == |b| - |a|;
  }

  // ---- No accepted set holds more ----

  /** The active ids that are on the list. */
  function Listed(active: seq<string>, ids: seq<string>): seq<string> {
    if active == [] then []
    else Listed(active[..|active| - 1], ids) + (if active[|active| - 1] in ids then [active[|active| - 1]] else [])
  }

  lemma {:induction false} ListedMembers(active: seq<string>, ids: seq<string>)
    requires NoRepeats(active)
    ensures |Listed(active, ids)| == CountListed(active, ids) && NoRepeats(Listed(active, ids))
    ensures forall id :: id in Listed(active, ids) <==> id in active && id in ids
  {
    if active != [] {
      var n := |active| - 1;
      assert active == active[..n] + [active[n]];
      ListedMembers(active[..n], ids);
    }
  }

  lemma AtMostCapacity(active: seq<string>, ids: seq<string>, table: Levers, budget: Option<real>)
    requires ConsistentGroups(table) && Grouped(ids, table) && NoRepeats(ids)
    requires NoRepeats(active) && Accepts(active, table, budget)
    ensures CountListed(active, ids) <= Capacity(ids, table)
  {
    var xs, groups := Listed(active, ids), GroupsOf(ids, table);
    ListedMembers(active, ids);
    AcceptsIffFeasible(active, table, budget);
    forall i | 0 <= i < |xs| ensures xs[i] in table && table[xs[i]].group.Some? && table[xs[i]].group.value in groups {
      assert xs[i] in xs && xs[i] in ids;
      var j :| 0 <= j < |ids| && ids[j] == xs[i];
    }
    GroupsAreDeclared(ids, table);
    LengthByGroup(xs, table, groups);
    forall g | g in groups ensures CountOf(xs, table)(g) <= RoomOf(ids, table)(g) {
      CountGrows(xs, ids, table, g.id);
      CountGrows(xs, active, table, g.id);
      if GroupCount(xs, table, g.id) > 0 { LimitMet(xs, active, table, budget, g); }
    }
    SumOrder(groups, CountOf(xs, table), RoomOf(ids, table));
  }

  lemma GroupsAreDeclared(ids: seq<string>, table: Levers)
    requires Grouped(ids, table)
    ensures forall g :: g in GroupsOf(ids, table) ==> exists id :: id in table && table[id].group == Some(g)
  {}

  lemma LimitMet(xs: seq<string>, active: seq<string>, table: Levers, budget: Option<real>, g: Group)
    requires ConsistentGroups(table) && Feasible(active, table, budget)
    requires GroupCount(xs, table, g.id) > 0 && forall id :: id in xs ==> id in active
    requires exists id :: id in table && table[id].group == Some(g)
    ensures GroupCount(active, table, g.id) as real <= g.maxActivations
  {
    var k := LastOfGroup(xs, table, g.id);
    var id :| id in table && table[id].group == Some(g);
    assert xs[k] in active && table[xs[k]].group == table[id].group;
  }

  // ---- Some accepted set holds as many ----

  /** The list, read in order, each activation kept while its group has room. */
  function Fill(ids: seq<string>, table: Levers): seq<string>
    requires Grouped(ids, table)
  {
    if ids == [] then []
    else
      var n := |ids| - 1;
      var before := Fill(ids[..n], table);
      var g := table[ids[n]].group.value;
      if (GroupCount(before, table, g.id) + 1) as real <= g.maxActivations then before + [ids[n]] else before
  }

  lemma {:induction false} FillMembers(ids: seq<string>, table: Levers)
    requires Grouped(ids, table) && NoRepeats(ids)
    ensures NoRepeats(Fill(ids, table)) && forall id :: id in Fill(ids, table) ==> id in ids
  {
    if ids != [] {
      var n := |ids| - 1;
      assert ids == ids[..n] + [ids[n]] && ids[n] !in ids[..n];
      FillMembers(ids[..n], table);
    }
  }

  /** Filling uses the room of every group to the last place. */
  lemma {:induction false} FillUsesRoom(ids: seq<string>, table: Levers, g: Group)
    requires ConsistentGroups(table) && Grouped(ids, table) && exists id :: id in table && table[id].group == Some(g)
    ensures GroupCount(Fill(ids, table), table, g.id) == Room(GroupCount(ids, table, g.id), g.maxActivations)
  {
    if ids != [] {
      var n := |ids| - 1;
      FillUsesRoom(ids[..n], table, g);
      var id :| id in table && table[id].group == Some(g);
      var before := Fill(ids[..n], table);
      assert (before + [ids[n]])[..|before|] == before;
      if InGroup(ids[n], table, g.id) { assert table[ids[n]].group == table[id].group; }
    }
  }

  lemma FillAccepted(ids: seq<string>, table: Levers)
    requires ConsistentGroups(table) && Grouped(ids, table) && NoRepeats(ids)
    ensures Accepts(Fill(ids, table), table, None)
    ensures |Fill(ids, table)| == Capacity(ids, table)
  {
    var xs, groups := Fill(ids, table), GroupsOf(ids, table);
    FillMembers(ids, table);
    GroupsAreDeclared(ids, table);
    forall id | id in xs ensures id in table && table[id].group.Some? && table[id].group.value in groups {
      assert id in ids;
      var j :| 0 <= j < |ids| && ids[j] == id;
    }
    forall g | g in groups ensures CountOf(xs, table)(g) == RoomOf(ids, table)(g) { FillUsesRoom(ids, table, g); }
    forall id | id in xs
      ensures GroupCount(xs, table, table[id].group.value.id) as real <= table[id].group.value.maxActivations {
      FillUsesRoom(ids, table, table[id].group.value);
      MemberCounts(xs, table, table[id].group.value.id, id);
    }
    AcceptsIffFeasible(xs, table, None);
    LengthByGroup(xs, table, groups);
    SumOrder(groups, CountOf(xs, table), RoomOf(ids, table));
    SumOrder(groups, RoomOf(ids, table), CountOf(xs, table));
  }

  lemma {:induction false} AllListed(active: seq<string>, ids: seq<string>)
    requires forall id :: id in active ==> id in ids
    ensures CountListed(active, ids) == |active|
  {
    if active != [] {
      assert active[|active| - 1] in active;
      AllListed(active[..|active| - 1], ids);
    }
  }

  /**
    Without a budget, no accepted set holds more than `limit` of the listed activations exactly when the
    capacity of their groups is at most `limit`.
   */
  lemma WithinIff(ids: seq<string>, table: Levers, limit: real)
    requires ConsistentGroups(table) && Grouped(ids, table) && NoRepeats(ids)
    ensures (forall active :: NoRepeats(active) && Accepts(active, table, None) ==>
               CountListed(active, ids) as real <= limit)
       <==> Capacity(ids, table) as real <= limit
  {
    var most := Fill(ids, table);
    FillAccepted(ids, table);
    FillMembers(ids, table);
    AllListed(most, ids);
    forall active | NoRepeats(active) && Accepts(active, table, None)
      ensures CountListed(active, ids) <= Capacity(ids, table) {
      AtMostCapacity(active, ids, table, None);
    }
  }
}
