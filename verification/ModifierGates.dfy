/**
  scripts/sync-bsdata.ts:770-852: what is nested in a modifier group enters the queue whether or not the
  group's own conditions hold. The reading that would let a group gate what is in it, and exactly when
  the two agree.
 */
module ModifierGates {
  import opened Wrappers
  import opened ConditionTree
  import opened PointTotals

  /** A modifier with the groups it stands in, outermost first. */
  datatype Gated = Gated(modifier: Modifier, gates: seq<Modifier>)

  function Under(g: Gated, nested: seq<Modifier>): seq<Gated> {
    seq(|nested|, i requires 0 <= i < |nested| => Gated(nested[i], g.gates + [g.modifier]))
  }

  function Plain(queue: seq<Gated>): (r: seq<Modifier>)
    ensures |r| == |queue| && forall i :: 0 <= i < |r| ==> r[i] == queue[i].modifier
  {
    seq(|queue|, i requires 0 <= i < |queue| => queue[i].modifier)
  }

  function NextGated(queue: seq<Gated>): (r: seq<Gated>)
    requires queue != []
    ensures Plain(r) == Next(Plain(queue))
  {
    queue[1..] + Under(queue[0], queue[0].modifier.modifiers + queue[0].modifier.modifierGroups)
  }

  /** The order of the queue, every modifier with its groups. */
  function GatedOrder(queue: seq<Gated>): (r: seq<Gated>)
    ensures Plain(r) == Order(Plain(queue))
    decreases Sizes(Plain(queue))
  {
    if queue == [] then assert Plain(queue) == []; []
    else
      NextSmaller(Plain(queue));
      var rest := GatedOrder(NextGated(queue));
      assert Plain([queue[0]] + rest) == [Plain(queue)[0]] + Plain(rest);
      [queue[0]] + rest
  }

  function EntryGated(e: Entry): (r: seq<Gated>)
    ensures Plain(r) == EntryOrder(e)
  {
    var roots := e.modifiers + e.modifierGroups;
    var queue := seq(|roots|, i requires 0 <= i < |roots| => Gated(roots[i], []));
    assert Plain(queue) == roots;
    GatedOrder(queue)
  }

  function GateResults(gates: seq<Modifier>, ctx: Context): (r: seq<Option<bool>>)
    ensures |r| == |gates| && forall i :: 0 <= i < |r| ==> r[i] == ModifierActive(gates[i], ctx)
  {
    seq(|gates|, i requires 0 <= i < |gates| => ModifierActive(gates[i], ctx))
  }

  /** Active with all its groups: the reading the code does not take. */
  function GatedActive(g: Gated, ctx: Context): Option<bool> {
    Combine(false, GateResults(g.gates, ctx) + [ModifierActive(g.modifier, ctx)])
  }

  function OwnActs(order: seq<Gated>, ctx: Context): (r: seq<Option<bool>>)
    ensures |r| == |order| && forall i :: 0 <= i < |r| ==> r[i] == ModifierActive(order[i].modifier, ctx)
  {
    seq(|order|, i requires 0 <= i < |order| => ModifierActive(order[i].modifier, ctx))
  }

  function GatedActs(order: seq<Gated>, ctx: Context): (r: seq<Option<bool>>)
    ensures |r| == |order| && forall i :: 0 <= i < |r| ==> r[i] == GatedActive(order[i], ctx)
  {
    seq(|order|, i requires 0 <= i < |order| => GatedActive(order[i], ctx))
  }

  /** The loop with given answers. */
  function RunWith(order: seq<Modifier>, acts: seq<Option<bool>>, pointsTypeId: string,
                   before: Points): Result<Points, Failure>
    requires |acts| == |order|
  {
    if order == [] then Ok(before)
    else
      var after := Taken(order[0], acts[0], pointsTypeId, before);
      if after.Err? then after else RunWith(order[1..], acts[1..], pointsTypeId, after.value)
  }

  /** With each modifier's own answer this is the loop of the code. */
  lemma {:induction false} RunWithOwn(order: seq<Gated>, pointsTypeId: string, ctx: Context, before: Points)
    ensures RunWith(Plain(order), OwnActs(order, ctx), pointsTypeId, before) ==
            Run(Plain(order), pointsTypeId, ctx, before)
  {
    hide Taken, ModifierActive;
    if order != [] {
      var after := Taken(order[0].modifier, ModifierActive(order[0].modifier, ctx), pointsTypeId, before);
      assert Plain(order)[1..] == Plain(order[1..]) && OwnActs(order, ctx)[1..] == OwnActs(order[1..], ctx);
      if after.Ok? { RunWithOwn(order[1..], pointsTypeId, ctx, after.value); }
    }
  }

  // ---- When the groups make no difference ----

  /**
    The condition a reader of the catalogue can check: nothing above an active or undecided modifier says
    otherwise.
   */
  predicate GatesAgree(g: Gated, ctx: Context) {
    var own := ModifierActive(g.modifier, ctx);
    || own == Some(false)
    || (forall i :: 0 <= i < |g.gates| ==> ModifierActive(g.gates[i], ctx) == Some(true))
    || (own == None && forall i :: 0 <= i < |g.gates| ==> ModifierActive(g.gates[i], ctx) != Some(false))
  }

  lemma ThreeAnswers(answer: Option<bool>)
    ensures answer == Some(true) || answer == Some(false) || answer == None
  {
    match answer
    case None =>
    case Some(b) => if b { assert answer == Some(true); } else { assert answer == Some(false); }
  }

  lemma GatesAgreeIff(g: Gated, ctx: Context)
    ensures GatesAgree(g, ctx) <==> GatedActive(g, ctx) == ModifierActive(g.modifier, ctx)
    ensures GatedActive(g, ctx) != ModifierActive(g.modifier, ctx) ==>
              ModifierActive(g.modifier, ctx) == Some(true) ||
              (ModifierActive(g.modifier, ctx) == None && GatedActive(g, ctx) == Some(false))
  {
    hide ModifierActive;
    var own, gates := ModifierActive(g.modifier, ctx), GateResults(g.gates, ctx);
    var results := gates + [own];
    assert results[|gates|] == own;
    assert forall i :: 0 <= i < |gates| ==> results[i] == gates[i];
    assert Some(false) in results <==> own == Some(false) || exists i :: 0 <= i < |gates| && gates[i] == Some(false);
    assert None in results <==> own == None || exists i :: 0 <= i < |gates| && gates[i] == None;
    forall i | 0 <= i < |gates| ensures gates[i] == Some(true) || gates[i] == Some(false) || gates[i] == None {
      ThreeAnswers(gates[i]);
    }
    ThreeAnswers(own);
    assert (forall i :: 0 <= i < |gates| ==> gates[i] == Some(true)) <==>
      !(exists i :: 0 <= i < |gates| && gates[i] == Some(false)) && !(exists i :: 0 <= i < |gates| && gates[i] == None);
  }

  ghost predicate SameFields(a: seq<Modifier>, b: seq<Modifier>) {
    |a| == |b| && forall i :: 0 <= i < |a| ==> a[i].field == b[i].field
  }

  predicate Concerns(m: Modifier, pointsTypeId: string) { m.field == Some(pointsTypeId) }

  lemma {:induction false} SameActsSameRun(order: seq<Modifier>, a: seq<Option<bool>>, b: seq<Option<bool>>,
                                           pointsTypeId: string, before: Points)
    requires |a| == |b| == |order| && forall i :: 0 <= i < |order| && Concerns(order[i], pointsTypeId) ==> a[i] == b[i]
    ensures RunWith(order, a, pointsTypeId, before) == RunWith(order, b, pointsTypeId, before)
  {
    if order != [] {
      var after := Taken(order[0], a[0], pointsTypeId, before);
      assert after == Taken(order[0], b[0], pointsTypeId, before);
      hide Taken;
      if after.Ok? { SameActsSameRun(order[1..], a[1..], b[1..], pointsTypeId, after.value); }
    }
  }

  /** The same modifiers adding nothing, except that the `k`-th adds one point. */
  function Priced(order: seq<Modifier>, k: int): (r: seq<Modifier>)
    ensures SameFields(order, r)
  {
    seq(|order|,
        i requires 0 <= i < |order| => order[i].(kind := Some("increment"), value := Some(if i == k then 1.0 else 0.0)))
  }

  /** How many points modifiers are undecided. */
  function Undecided(order: seq<Modifier>, acts: seq<Option<bool>>, pointsTypeId: string): nat
    requires |acts| == |order|
  {
    if order == [] then 0
    else (if Concerns(order[0], pointsTypeId) && acts[0] == None then 1 else 0) +
             Undecided(order[1..], acts[1..], pointsTypeId)
  }

  lemma {:induction false} PricedRun(order: seq<Modifier>, acts: seq<Option<bool>>, pointsTypeId: string,
                                     before: Points, k: int)
    requires |acts| == |order|
    ensures var r := RunWith(Priced(order, k), acts, pointsTypeId, before);
            && r.Ok?
            && r.value.value == before.value +
               (if 0 <= k < |order| && Concerns(order[k], pointsTypeId) && acts[k] == Some(true) then 1.0 else 0.0)
            && |r.value.unresolved| == |before.unresolved| + Undecided(order, acts, pointsTypeId)
  {
    if order != [] {
      var priced := Priced(order, k);
      assert priced[1..] == Priced(order[1..], k - 1);
      var after := Taken(priced[0], acts[0], pointsTypeId, before);
      ThreeAnswers(acts[0]);
      assert after.value.value ==
             before.value + (if k == 0 && Concerns(order[0], pointsTypeId) && acts[0] == Some(true) then 1.0 else 0.0);
      assert 0 < k < |order| ==> order[1..][k - 1] == order[k] && acts[1..][k - 1] == acts[k];
      PricedRun(order[1..], acts[1..], pointsTypeId, after.value, k - 1);
    }
  }

  /** Answers that differ only from active to less, or from undecided to no. */
  predicate OnlyLess(a: seq<Option<bool>>, b: seq<Option<bool>>) {
    |a| == |b| &&
    forall i :: 0 <= i < |a| ==> a[i] == b[i] || a[i] == Some(true) || (a[i] == None && b[i] == Some(false))
  }

  predicate ActsAgree(order: seq<Modifier>, a: seq<Option<bool>>, b: seq<Option<bool>>, pointsTypeId: string)
    requires |a| == |b| == |order|
  {
    forall i :: 0 <= i < |order| && Concerns(order[i], pointsTypeId) ==> a[i] == b[i]
  }

  lemma {:induction false} FewerUndecided(order: seq<Modifier>, a: seq<Option<bool>>, b: seq<Option<bool>>,
                                          pointsTypeId: string)
    requires |a| == |order| && OnlyLess(a, b)
    requires forall i :: 0 <= i < |order| && Concerns(order[i], pointsTypeId) && a[i] == Some(true) ==>
               b[i] == Some(true)
    ensures Undecided(order, b, pointsTypeId) <= Undecided(order, a, pointsTypeId)
    ensures Undecided(order, b, pointsTypeId) == Undecided(order, a, pointsTypeId) ==>
            ActsAgree(order, a, b, pointsTypeId)
  {
    if order != [] {
      assert OnlyLess(a[1..], b[1..]);
      FewerUndecided(order[1..], a[1..], b[1..], pointsTypeId);
      assert forall i :: 0 < i < |order| ==>
               order[i] == order[1..][i - 1] && a[i] == a[1..][i - 1] && b[i] == b[1..][i - 1];
    }
  }

  /** If the answers differ on a points modifier, some prices tell the two runs apart. */
  lemma PricesTell(order: seq<Modifier>, a: seq<Option<bool>>, b: seq<Option<bool>>, pointsTypeId: string,
                   before: Points) returns (other: seq<Modifier>)
    requires |a| == |order| && OnlyLess(a, b) && !ActsAgree(order, a, b, pointsTypeId)
    ensures SameFields(order, other) &&
            RunWith(other, a, pointsTypeId, before) != RunWith(other, b, pointsTypeId, before)
  {
    var k := -1;
    if i :| 0 <= i < |order| && Concerns(order[i], pointsTypeId) && a[i] == Some(true) && b[i] != Some(true) {
      k := i;
    } else {
      FewerUndecided(order, a, b, pointsTypeId);
    }
    other := Priced(order, k);
    PricedRun(order, a, pointsTypeId, before, k);
    PricedRun(order, b, pointsTypeId, before, k);
  }

  /** Both readings of which modifiers are active give one cost, over modifiers priced as in `other`. */
  predicate SameCost(order: seq<Gated>, other: seq<Modifier>, pointsTypeId: string, ctx: Context, before: Points)
    requires |other| == |order|
  {
    RunWith(other, OwnActs(order, ctx), pointsTypeId, before) ==
    RunWith(other, GatedActs(order, ctx), pointsTypeId, before)
  }

  /**
    Letting groups gate what is in them would give the cost the code gives, whatever the modifiers do to it,
    exactly when every points modifier agrees with its groups: it is inactive, or all its groups are active,
    or it is undecided and none of them is inactive.
   */
  lemma GroupsMakeNoDifferenceIff(e: Entry, pointsTypeId: string, ctx: Context, before: Points)
    ensures (forall other :: SameFields(EntryOrder(e), other) ==>
               SameCost(EntryGated(e), other, pointsTypeId, ctx, before))
       <==> (forall i :: 0 <= i < |EntryGated(e)| && Concerns(EntryGated(e)[i].modifier, pointsTypeId) ==>
               GatesAgree(EntryGated(e)[i], ctx))
  {
    var order := EntryGated(e);
    var plain, own, gated := Plain(order), OwnActs(order, ctx), GatedActs(order, ctx);
    hide EntryGated, ModifierActive, GatedActive, GatesAgree, RunWith;
    forall i | 0 <= i < |order|
      ensures GatesAgree(order[i], ctx) <==> own[i] == gated[i]
      ensures own[i] == gated[i] || own[i] == Some(true) || (own[i] == None && gated[i] == Some(false))
    {
      GatesAgreeIff(order[i], ctx);
    }
    if ActsAgree(plain, own, gated, pointsTypeId) {
      forall other | SameFields(plain, other) ensures SameCost(order, other, pointsTypeId, ctx, before) {
        SameActsSameRun(other, own, gated, pointsTypeId, before);
      }
    } else {
      var other := PricesTell(plain, own, gated, pointsTypeId, before);
      assert !SameCost(order, other, pointsTypeId, ctx, before);
    }
  }

  // ---- A group that fails ----

  function TenModels(): Condition {
    Condition(Some("selections"), Some("self"), Some("model"), Some("atLeast"), Some(10.0))
  }

  function ExampleEntry(): Entry {
    var inner := Modifier(false, Some("pts"), Some("increment"), Some(5.0), [], [], [], []);
    Entry(Some("unit"), [Cost(Some("pts"), Some(100.0))], [],
          [Modifier(false, None, None, None, [TenModels()], [], [inner], [])])
  }

  function FiveModels(): Context { Context(Some("unit"), 5.0, 1.0, "", map[]) }

  /** Five models: the group asks for ten, and the five points nested in it are charged all the same. */
  lemma FailingGroupStillCharges()
    ensures ModifierActive(ExampleEntry().modifierGroups[0], FiveModels()) == Some(false)
    ensures EntryPoints(ExampleEntry(), "pts", FiveModels()) == Ok(Points(105.0, []))
    ensures RunWith(EntryOrder(ExampleEntry()), GatedActs(EntryGated(ExampleEntry()), FiveModels()), "pts",
                    Points(100.0, [])) == Ok(Points(100.0, []))
  {
    var group := ExampleEntry().modifierGroups[0];
    ExampleAnswers(FiveModels(), group, group.modifiers[0]);
    ExampleOrder(group, group.modifiers[0]);
    ExampleCharged(group, group.modifiers[0]);
    ExampleGated(group, group.modifiers[0]);
  }

  lemma ExampleCharged(group: Modifier, inner: Modifier)
    requires group == ExampleEntry().modifierGroups[0] && inner == group.modifiers[0] &&
             EntryOrder(ExampleEntry()) == [group, inner]
    requires ModifierActive(inner, FiveModels()) == Some(true)
    ensures EntryPoints(ExampleEntry(), "pts", FiveModels()) == Ok(Points(105.0, []))
  {
    hide ModifierActive, EntryOrder;
    var costs := ExampleEntry().costs;
    assert BaseCost(costs, "pts") == Some(100.0) by { assert costs[..0] == []; }
    assert [group, inner][1..] == [inner] && [inner][1..] == [];
    assert Turn(group, "pts", FiveModels(), Points(100.0, [])) == Ok(Points(100.0, []));
    assert Turn(inner, "pts", FiveModels(), Points(100.0, [])) == Ok(Points(105.0, []));
    hide Turn;
    assert Run([inner], "pts", FiveModels(), Points(100.0, [])) == Ok(Points(105.0, []));
  }

  lemma ExampleGated(group: Modifier, inner: Modifier)
    requires group == ExampleEntry().modifierGroups[0] && inner == group.modifiers[0] &&
             EntryOrder(ExampleEntry()) == [group, inner]
    requires EntryGated(ExampleEntry()) == [Gated(group, []), Gated(inner, [group])]
    requires GatedActive(Gated(group, []), FiveModels()) == Some(false) &&
             GatedActive(Gated(inner, [group]), FiveModels()) == Some(false)
    ensures RunWith(EntryOrder(ExampleEntry()), GatedActs(EntryGated(ExampleEntry()), FiveModels()), "pts",
                    Points(100.0, [])) == Ok(Points(100.0, []))
  {
    hide GatedActive, EntryGated, EntryOrder;
    assert GatedActs([Gated(group, []), Gated(inner, [group])], FiveModels()) == [Some(false), Some(false)];
    assert RunWith([group, inner], [Some(false), Some(false)], "pts", Points(100.0, [])) ==
           RunWith([inner], [Some(false)], "pts", Points(100.0, []));
  }

  lemma ExampleAnswers(ctx: Context, group: Modifier, inner: Modifier)
    requires group == ExampleEntry().modifierGroups[0] && inner == group.modifiers[0] && ctx.modelCount == 5.0
    ensures ModifierActive(group, ctx) == Some(false) && ModifierActive(inner, ctx) == Some(true)
    ensures GatedActive(Gated(group, []), ctx) == Some(false) && GatedActive(Gated(inner, [group]), ctx) == Some(false)
  {
    assert ConditionResults(group.conditions, ctx)[0] == Some(false);
    assert ConditionResults(group.conditions, ctx) + GroupResults(group.conditionGroups, ctx) == [Some(false)];
    assert ConditionResults(inner.conditions, ctx) + GroupResults(inner.conditionGroups, ctx) == [];
    assert GateResults([], ctx) + [ModifierActive(group, ctx)] == [Some(false)];
    assert GateResults([group], ctx) + [ModifierActive(inner, ctx)] == [Some(false), Some(true)];
  }

  lemma ExampleOrder(group: Modifier, inner: Modifier)
    requires group == ExampleEntry().modifierGroups[0] && inner == group.modifiers[0]
    ensures EntryOrder(ExampleEntry()) == [group, inner] &&
            EntryGated(ExampleEntry()) == [Gated(group, []), Gated(inner, [group])]
  {
    assert Next([group]) == [inner] && Next([inner]) == [];
    assert Order([inner]) == [inner];
    var queue, nested := [Gated(group, [])], [Gated(inner, [group])];
    assert [] + [group] == [group];
    assert Under(queue[0], group.modifiers + group.modifierGroups) == nested;
    assert Under(nested[0], inner.modifiers + inner.modifierGroups) == [];
    assert NextGated(queue) == nested && NextGated(nested) == [];
    assert GatedOrder(nested) == nested;
    assert GatedOrder(queue) == queue + nested;
    assert ExampleEntry().modifiers + ExampleEntry().modifierGroups == [group];
    assert seq(1, i requires 0 <= i < 1 => Gated([group][i], [])) == queue;
  }
}
