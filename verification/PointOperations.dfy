/**
  scripts/sync-bsdata.ts:788-941: what the modifiers do to a cost, when a cost is left unresolved, and how costs
  make up a total.
 */
module PointOperations {
  import opened Wrappers
  import opened ConditionTree
  import opened ConditionLeaves
  import opened PointTotals

  // ---- Operations ----

  /** A points modifier that is decided to be active and carries an amount. */
  ghost predicate Operates(m: Modifier, pointsTypeId: string, act: bool, kind: string) {
    act && m.field == Some(pointsTypeId) && m.value.Some? && m.kind == Some(kind)
  }

  ghost predicate AllOperate(order: seq<Modifier>, pointsTypeId: string, acts: seq<bool>, kind: string) {
    |acts| == |order| && forall i :: 0 <= i < |order| ==> Operates(order[i], pointsTypeId, acts[i], kind)
  }

  function Sum(order: seq<Modifier>): real {
    if order == [] then 0.0 else (if order[0].value.Some? then order[0].value.value else 0.0) + Sum(order[1..])
  }

  function Product(order: seq<Modifier>): real {
    if order == [] then 1.0 else (if order[0].value.Some? then order[0].value.value else 1.0) * Product(order[1..])
  }

  lemma {:induction false} DecidedConcat(a: seq<Modifier>, b: seq<Modifier>, pointsTypeId: string, actsA: seq<bool>,
                                         actsB: seq<bool>, value: real)
    requires |actsA| == |a| && |actsB| == |b|
    ensures Decided(a + b, pointsTypeId, actsA + actsB, value) ==
            Decided(b, pointsTypeId, actsB, Decided(a, pointsTypeId, actsA, value))
    decreases |a|
  {
    hide Apply;
    if a == [] {
      assert a + b == b && actsA + actsB == actsB;
    } else {
      assert (a + b)[1..] == a[1..] + b && (actsA + actsB)[1..] == actsA[1..] + actsB;
      var m := a[0];
      var after := if m.field == Some(pointsTypeId) && actsA[0] && m.value.Some? &&
                   Apply(m, value).Some? then Apply(m, value).value else value;
      DecidedConcat(a[1..], b, pointsTypeId, actsA[1..], actsB, after);
    }
  }

  /** After an active `set` nothing that came before it matters. */
  lemma SetWins(before: seq<Modifier>, m: Modifier, after: seq<Modifier>, pointsTypeId: string, acts: seq<bool>,
                value: real)
    requires |acts| == |before| + 1 + |after| && Operates(m, pointsTypeId, acts[|before|], "set")
    ensures Decided(before + [m] + after, pointsTypeId, acts, value) ==
            Decided(after, pointsTypeId, acts[|before| + 1..], m.value.value)
  {
    var k := |before|;
    var own := acts[k..k + 1];
    assert acts == acts[..k] + own + acts[k + 1..];
    assert acts[..k + 1] == acts[..k] + own;
    DecidedConcat(before + [m], after, pointsTypeId, acts[..k] + own, acts[k + 1..], value);
    DecidedConcat(before, [m], pointsTypeId, acts[..k], own, value);
  }

  /** Active increments add up. */
  lemma {:induction false} IncrementsAdd(order: seq<Modifier>, pointsTypeId: string, acts: seq<bool>, value: real)
    requires AllOperate(order, pointsTypeId, acts, "increment")
    ensures Decided(order, pointsTypeId, acts, value) == value + Sum(order)
    decreases |order|
  {
    if order != [] {
      assert Operates(order[0], pointsTypeId, acts[0], "increment");
      IncrementsAdd(order[1..], pointsTypeId, acts[1..], value + order[0].value.value);
    }
  }

  /** Active multiplications multiply up. */
  lemma {:induction false} MultipliesScale(order: seq<Modifier>, pointsTypeId: string, acts: seq<bool>, value: real)
    requires AllOperate(order, pointsTypeId, acts, "multiply")
    ensures Decided(order, pointsTypeId, acts, value) == value * Product(order)
    decreases |order|
  {
    if order != [] {
      assert Operates(order[0], pointsTypeId, acts[0], "multiply");
      var v := order[0].value.value;
      MultipliesScale(order[1..], pointsTypeId, acts[1..], Scaled(value, v));
      Regroup(value, v, Product(order[1..]));
    }
  }

  lemma Regroup(x: real, y: real, z: real)
    ensures (x * y) * z == x * (y * z)
  {}

  /** A modifier that is inactive, of another cost type, or of another kind changes nothing. */
  lemma {:induction false} OthersChangeNothing(order: seq<Modifier>, pointsTypeId: string, acts: seq<bool>, value: real)
    requires |acts| == |order|
    requires forall i, k :: 0 <= i < |order| && k in ["set", "increment", "multiply"] ==>
               !Operates(order[i], pointsTypeId, acts[i], k)
    ensures Decided(order, pointsTypeId, acts, value) == value
    decreases |order|
  {
    if order != [] {
      NoOperation(order[0], pointsTypeId, acts[0], value);
      forall i, k | 0 <= i < |order[1..]| && k in ["set", "increment", "multiply"]
        ensures !Operates(order[1..][i], pointsTypeId, acts[1..][i], k)
      {
        assert !Operates(order[i + 1], pointsTypeId, acts[i + 1], k);
      }
      hide Operates, Apply;
      OthersChangeNothing(order[1..], pointsTypeId, acts[1..], value);
    }
  }

  lemma NoOperation(m: Modifier, pointsTypeId: string, act: bool, value: real)
    requires forall k :: k in ["set", "increment", "multiply"] ==> !Operates(m, pointsTypeId, act, k)
    ensures m.field == Some(pointsTypeId) && act && m.value.Some? ==> Apply(m, value).None?
  {
    assert "set" in ["set", "increment", "multiply"] && "increment" in ["set", "increment", "multiply"] &&
           "multiply" in ["set", "increment", "multiply"];
  }

  // ---- Failures and unresolved reasons ----

  ghost predicate Active(m: Modifier, pointsTypeId: string, ctx: Context) {
    m.field == Some(pointsTypeId) && ModifierActive(m, ctx) == Some(true)
  }

  ghost predicate Undecided(m: Modifier, pointsTypeId: string, ctx: Context) {
    m.field == Some(pointsTypeId) && ModifierActive(m, ctx) == None
  }

  ghost predicate Foreign(m: Modifier, pointsTypeId: string, ctx: Context) {
    Active(m, pointsTypeId, ctx) && m.kind != Some("set") && m.kind != Some("increment") && m.kind != Some("multiply")
  }

  /** A run fails exactly on an active modifier without an amount, and records exactly what it could not apply. */
  lemma {:induction false} RunIff(order: seq<Modifier>, pointsTypeId: string, ctx: Context, before: Points)
    ensures Run(order, pointsTypeId, ctx, before).Ok? <==>
            forall m :: m in order && Active(m, pointsTypeId, ctx) ==> m.value.Some?
    ensures Run(order, pointsTypeId, ctx, before).Err? ==>
            Run(order, pointsTypeId, ctx, before).error == NonNumericModifier
    ensures Run(order, pointsTypeId, ctx, before).Ok? ==>
              var unresolved := Run(order, pointsTypeId, ctx, before).value.unresolved;
              && (NeedsRoster in unresolved <==>
                    NeedsRoster in before.unresolved || exists m :: m in order && Undecided(m, pointsTypeId, ctx))
              && (UnsupportedOperation in unresolved <==>
                    UnsupportedOperation in before.unresolved ||
                    exists m :: m in order && Foreign(m, pointsTypeId, ctx))
  {
    if order != [] {
      var m, rest := order[0], order[1..];
      assert order == [m] + rest;
      TurnIff(m, pointsTypeId, ctx, before);
      hide Turn, Active, Undecided, Foreign;
      var after := Turn(m, pointsTypeId, ctx, before);
      if after.Ok? { RunIff(rest, pointsTypeId, ctx, after.value); }
      assert forall x :: x in order <==> x == m || x in rest;
    }
  }

  lemma TurnIff(m: Modifier, pointsTypeId: string, ctx: Context, before: Points)
    ensures Turn(m, pointsTypeId, ctx, before).Ok? <==> (Active(m, pointsTypeId, ctx) ==> m.value.Some?)
    ensures Turn(m, pointsTypeId, ctx, before).Err? ==> Turn(m, pointsTypeId, ctx, before).error == NonNumericModifier
    ensures Turn(m, pointsTypeId, ctx, before).Ok? ==>
              var unresolved := Turn(m, pointsTypeId, ctx, before).value.unresolved;
              && (NeedsRoster in unresolved <==> NeedsRoster in before.unresolved || Undecided(m, pointsTypeId, ctx))
              && (UnsupportedOperation in unresolved <==>
                    UnsupportedOperation in before.unresolved || Foreign(m, pointsTypeId, ctx))
  {
    hide ModifierActive;
    match ModifierActive(m, ctx)
    case None =>
    case Some(b) => assert ModifierActive(m, ctx) == Some(true) || ModifierActive(m, ctx) == Some(false);
  }

  // ---- Counts ----

  /** How often an id is selected adds up over the selections: as a node and as a group. */
  lemma {:induction false} CountConcat(a: seq<Selection>, b: seq<Selection>, id: string)
    ensures CountOf(a + b, id) == CountOf(a, id) + CountOf(b, id)
    decreases |b|
  {
    if b == [] {
      assert a + b == a;
    } else {
      var n := |b| - 1;
      assert (a + b)[..|a + b| - 1] == a + b[..n];
      CountConcat(a, b[..n], id);
    }
  }

  lemma CountOne(s: Selection, id: string)
    requires id != ""
    ensures CountOf([s], id) ==
            (if s.entry.Some? && s.entry.value.id == Some(id) then s.count else 0.0) +
            (if s.groupId == Some(id) then s.count else 0.0)
  {
    assert [s][..0] == [];
  }

  // ---- Totals ----

  function Weighted(costs: seq<Points>, selections: seq<Selection>): real
    requires |costs| == |selections|
  {
    if costs == [] then 0.0
    else
      var n := |costs| - 1;
      Weighted(costs[..n], selections[..n]) + costs[n].value * selections[n].count
  }

  /** `costs` are the costs of the selected entries one by one. */
  ghost predicate CostsAre(costs: seq<Points>, selections: seq<Selection>, pointsTypeId: string, ctx: Context) {
    |costs| == |selections| &&
    forall i :: 0 <= i < |selections| ==>
      selections[i].entry.Some? && EntryPoints(selections[i].entry.value, pointsTypeId, ctx) == Ok(costs[i])
  }

  /**
    A total exists exactly when every selected entry was retained and has a cost; it is the costs times their
    counts, and unresolved for exactly the reasons of some cost.
   */
  lemma TotalIff(selections: seq<Selection>, pointsTypeId: string, ctx: Context)
    ensures Total(selections, pointsTypeId, ctx).Ok? <==> exists costs :: CostsAre(costs, selections, pointsTypeId, ctx)
    ensures forall costs :: CostsAre(costs, selections, pointsTypeId, ctx) ==>
              TotalIs(Total(selections, pointsTypeId, ctx), costs, selections)
  {
    if Total(selections, pointsTypeId, ctx).Ok? { var costs := CostsExist(selections, pointsTypeId, ctx); }
    forall costs | CostsAre(costs, selections, pointsTypeId, ctx)
      ensures TotalIs(Total(selections, pointsTypeId, ctx), costs, selections)
    {
      TotalOfCosts(selections, pointsTypeId, ctx, costs);
    }
  }

  ghost predicate SomeReason(costs: seq<Points>, u: Unresolved) {
    exists i :: 0 <= i < |costs| && u in costs[i].unresolved
  }

  ghost predicate TotalIs(total: Result<Points, Failure>, costs: seq<Points>, selections: seq<Selection>) {
    && |costs| == |selections| && total.Ok? && total.value.value == Weighted(costs, selections)
    && (forall u :: u in total.value.unresolved <==> SomeReason(costs, u))
  }

  lemma {:induction false} CostsExist(selections: seq<Selection>, pointsTypeId: string, ctx: Context)
    returns (costs: seq<Points>)
    requires Total(selections, pointsTypeId, ctx).Ok?
    ensures CostsAre(costs, selections, pointsTypeId, ctx)
    decreases |selections|
  {
    hide EntryPoints, Joined, Scaled;
    costs := [];
    if selections != [] {
      var n := |selections| - 1;
      var before := CostsExist(selections[..n], pointsTypeId, ctx);
      costs := before + [EntryPoints(selections[n].entry.value, pointsTypeId, ctx).value];
      forall i | 0 <= i < |selections|
        ensures selections[i].entry.Some? && EntryPoints(selections[i].entry.value, pointsTypeId, ctx) == Ok(costs[i])
      {
        if i < n { assert selections[..n][i] == selections[i]; }
      }
    }
  }

  lemma {:induction false} JoinedIff(a: seq<Unresolved>, b: seq<Unresolved>)
    ensures forall u :: u in Joined(a, b) <==> u in a || u in b
    decreases |b|
  {
    if b != [] {
      var n := |b| - 1;
      assert b == b[..n] + [b[n]];
      JoinedIff(a, b[..n]);
    }
  }

  lemma {:induction false} TotalOfCosts(selections: seq<Selection>, pointsTypeId: string, ctx: Context,
                                        costs: seq<Points>)
    requires CostsAre(costs, selections, pointsTypeId, ctx)
    ensures TotalIs(Total(selections, pointsTypeId, ctx), costs, selections)
    decreases |selections|
  {
    hide EntryPoints, Joined;
    if selections != [] {
      var n := |selections| - 1;
      forall i | 0 <= i < n
        ensures selections[..n][i].entry.Some? &&
                EntryPoints(selections[..n][i].entry.value, pointsTypeId, ctx) == Ok(costs[..n][i])
      {
        assert selections[..n][i] == selections[i];
      }
      TotalOfCosts(selections[..n], pointsTypeId, ctx, costs[..n]);
      var before := Total(selections[..n], pointsTypeId, ctx).value;
      assert EntryPoints(selections[n].entry.value, pointsTypeId, ctx) == Ok(costs[n]);
      JoinedIff(before.unresolved, costs[n].unresolved);
      ReasonsOneMore(costs);
    }
  }

  lemma ReasonsOneMore(costs: seq<Points>)
    requires costs != []
    ensures forall u :: SomeReason(costs, u) <==>
              SomeReason(costs[..|costs| - 1], u) || u in costs[|costs| - 1].unresolved
  {
    var n := |costs| - 1;
    forall u ensures SomeReason(costs, u) <==> SomeReason(costs[..n], u) || u in costs[n].unresolved {
      if i :| 0 <= i < n && u in costs[i].unresolved { assert u in costs[..n][i].unresolved; }
    }
  }

  // ---- A threshold ----

  /** An entry whose cost rises by an amount while its conditions hold. */
  function Stepped(id: string, pointsTypeId: string, base: real, more: real, conditions: seq<Condition>,
                   groups: seq<Group>): Entry {
    Entry(Some(id), [Cost(Some(pointsTypeId), Some(base))],
          [Modifier(false, Some(pointsTypeId), Some("increment"), Some(more), conditions, groups, [], [])], [])
  }

  lemma CombineOne(answer: Option<bool>)
    ensures Combine(false, [answer]) == answer
  {
    assert [answer][0] == answer;
    match answer
    case None =>
    case Some(b) => assert answer == Some(true) || answer == Some(false);
  }

  lemma SteppedCost(id: string, pointsTypeId: string, base: real, more: real, conditions: seq<Condition>,
                    groups: seq<Group>, ctx: Context, holds: bool)
    requires ModifierActive(Stepped(id, pointsTypeId, base, more, conditions, groups).modifiers[0],
                            ctx.(nodeId := Some(id))) == Some(holds)
    ensures EntryPoints(Stepped(id, pointsTypeId, base, more, conditions, groups), pointsTypeId, ctx) ==
            Ok(Points(if holds then base + more else base, []))
  {
    var e, own := Stepped(id, pointsTypeId, base, more, conditions, groups), ctx.(nodeId := Some(id));
    var m := e.modifiers[0];
    assert BaseCost(e.costs, pointsTypeId) == Some(base) by {
      assert e.costs[..0] == [] && BaseCost([], pointsTypeId) == Some(0.0);
    }
    assert Next([m]) == [];
    assert EntryOrder(e) == [m] by {
      assert e.modifiers + e.modifierGroups == [m];
      OrderNone();
    }
    var start, after := Points(base, []), Points(if holds then base + more else base, []);
    assert Turn(m, pointsTypeId, own, start) == Ok(after);
    hide ModifierActive, Order, Turn, BaseCost, EntryOrder;
    assert [m][1..] == [];
    assert Run([m], pointsTypeId, own, start) == Ok(after);
  }

  /** Dearer from some number of models on: exactly from that number on, in every unit. */
  lemma ModelThreshold(id: string, pointsTypeId: string, base: real, more: real, least: real, ctx: Context)
    ensures var c := Condition(Some("selections"), Some("self"), Some("model"), Some("atLeast"), Some(least));
            EntryPoints(Stepped(id, pointsTypeId, base, more, [c], []), pointsTypeId, ctx) ==
            Ok(Points(if ctx.modelCount >= least then base + more else base, []))
  {
    var c := Condition(Some("selections"), Some("self"), Some("model"), Some("atLeast"), Some(least));
    var own := ctx.(nodeId := Some(id));
    assert ConditionMatches(c, own) == Some(ctx.modelCount >= least);
    CombineOne(ConditionMatches(c, own));
    hide ConditionMatches, Combine;
    assert ConditionResults([c], own) + GroupResults([], own) == [ConditionMatches(c, own)];
    SteppedCost(id, pointsTypeId, base, more, [c], [], ctx, ctx.modelCount >= least);
  }

  /** Dearer once some number of the same unit come earlier: exactly from then on. */
  lemma EarlierThreshold(id: string, pointsTypeId: string, base: real, more: real, least: real, ctx: Context)
    ensures var same := Condition(Some("selections"), Some("self"), Some(id), Some("instanceOf"), None);
            var before := Condition(Some("selections"), Some("self"), Some("any"), Some("before"), None);
            var l := LocalGroup(Some("selections"), Some("parent"), Some("atLeast"), Some(least), [same, before]);
            EntryPoints(Stepped(id, pointsTypeId, base, more, [], [Group(false, None, [], [], [l])]), pointsTypeId,
                        ctx) ==
            Ok(Points(if ctx.unitOrdinal - 1.0 >= least then base + more else base, []))
  {
    var same := Condition(Some("selections"), Some("self"), Some(id), Some("instanceOf"), None);
    var before := Condition(Some("selections"), Some("self"), Some("any"), Some("before"), None);
    var l := LocalGroup(Some("selections"), Some("parent"), Some("atLeast"), Some(least), [same, before]);
    var g, own := Group(false, None, [], [], [l]), ctx.(nodeId := Some(id));
    assert SameUnit(l.conditions[0], own) && BeforeCurrent(l.conditions[1]);
    assert LocalMatches(l, own) == Some(ctx.unitOrdinal - 1.0 >= least);
    CombineOne(LocalMatches(l, own));
    CombineOne(GroupMatches(g, own));
    hide LocalMatches, Combine;
    assert ConditionResults([], own) + [] + LocalResults([l], own) == [LocalMatches(l, own)];
    assert GroupMatches(g, own) == LocalMatches(l, own);
    assert ConditionResults([], own) + GroupResults([g], own) == [GroupMatches(g, own)];
    SteppedCost(id, pointsTypeId, base, more, [], [g], ctx, ctx.unitOrdinal - 1.0 >= least);
  }
}
