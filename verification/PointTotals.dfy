/**
  scripts/sync-bsdata.ts:770-941: point costs under conditional modifiers. The modifier queue visits
  every nested modifier once, and a total reported without unresolved reasons does not depend on any
  condition the evaluation could not decide.
 */
module PointTotals {
  import opened Wrappers
  import opened ConditionTree

  /** A modifier or a group of modifiers; `field`, `kind` and `value` are what it changes and how. */
  datatype Modifier = Modifier(repeats: bool, field: Option<string>, kind: Option<string>, value: Option<real>,
                               conditions: seq<Condition>, conditionGroups: seq<Group>,
                               modifiers: seq<Modifier>, modifierGroups: seq<Modifier>)

  datatype Cost = Cost(typeId: Option<string>, value: Option<real>)

  datatype Entry = Entry(id: Option<string>, costs: seq<Cost>, modifiers: seq<Modifier>, modifierGroups: seq<Modifier>)

  datatype Unresolved = NeedsRoster | UnsupportedOperation

  datatype Failure = NonNumericCost | NonNumericModifier | EntryNotRetained

  datatype Points = Points(value: real, unresolved: seq<Unresolved>)

  // ---- The queue ----

  function Size(m: Modifier): (n: nat)
    ensures n > 0
    decreases m
  {
    1 + Sizes(m.modifiers) + Sizes(m.modifierGroups)
  }

  function Sizes(ms: seq<Modifier>): nat
    decreases ms
  {
    if ms == [] then 0 else Size(ms[0]) + Sizes(ms[1..])
  }

  lemma {:induction false} SizesConcat(a: seq<Modifier>, b: seq<Modifier>)
    ensures Sizes(a + b) == Sizes(a) + Sizes(b)
  {
    if a == [] {
      assert a + b == b;
    } else {
      assert (a + b)[1..] == a[1..] + b;
      SizesConcat(a[1..], b);
    }
  }

  /** The queue after its first modifier is taken and its nested ones are added at the end. */
  function Next(queue: seq<Modifier>): seq<Modifier>
    requires queue != []
  {
    queue[1..] + (queue[0].modifiers + queue[0].modifierGroups)
  }

  lemma NextSmaller(queue: seq<Modifier>)
    requires queue != []
    ensures Sizes(Next(queue)) == Sizes(queue) - 1
  {
    SizesConcat(queue[1..], queue[0].modifiers + queue[0].modifierGroups);
    SizesConcat(queue[0].modifiers, queue[0].modifierGroups);
  }

  /** The order the loop takes modifiers in. */
  function Order(queue: seq<Modifier>): seq<Modifier>
    decreases Sizes(queue)
  {
    if queue == [] then [] else
      NextSmaller(queue);
      [queue[0]] + Order(Next(queue))
  }

  /** Every modifier of a list, at every depth. */
  function AllOf(ms: seq<Modifier>): multiset<Modifier>
    decreases ms
  {
    if ms == [] then multiset{}
    else multiset{ms[0]} + AllOf(ms[0].modifiers) + AllOf(ms[0].modifierGroups) + AllOf(ms[1..])
  }

  lemma {:induction false} AllOfConcat(a: seq<Modifier>, b: seq<Modifier>)
    ensures AllOf(a + b) == AllOf(a) + AllOf(b)
  {
    if a == [] {
      assert a + b == b;
    } else {
      assert (a + b)[1..] == a[1..] + b;
      AllOfConcat(a[1..], b);
    }
  }

  /** The queue loop takes each nested modifier exactly once. */
  lemma {:induction false} OrderIsAll(queue: seq<Modifier>)
    ensures multiset(Order(queue)) == AllOf(queue) && |Order(queue)| == Sizes(queue)
    decreases Sizes(queue)
  {
    if queue != [] {
      NextSmaller(queue);
      OrderIsAll(Next(queue));
      AllOfConcat(queue[1..], queue[0].modifiers + queue[0].modifierGroups);
      AllOfConcat(queue[0].modifiers, queue[0].modifierGroups);
    }
  }

  // ---- One modifier ----

  /** The condition tree of a modifier; a repeated one is unknown. */
  function ActivityTree(m: Modifier, ctx: Context): Tree {
    if m.repeats then Unknown
    else Node(false, Leaves(ConditionResults(m.conditions, ctx)) + TreesOf(m.conditionGroups, ctx) + Leaves([]))
  }

  /** `pointModifierActive`. */
  function ModifierActive(m: Modifier, ctx: Context): Option<bool> {
    if m.repeats then None
    else Combine(false, ConditionResults(m.conditions, ctx) + GroupResults(m.conditionGroups, ctx))
  }

  lemma ActiveIsTree(m: Modifier, ctx: Context)
    ensures ModifierActive(m, ctx) == Eval(ActivityTree(m, ctx))
  {
    if !m.repeats {
      forall i | 0 <= i < |m.conditionGroups|
        ensures GroupMatches(m.conditionGroups[i], ctx) == Eval(TreeOf(m.conditionGroups[i], ctx)) {
        GroupIsTree(m.conditionGroups[i], ctx);
      }
      EvalNode(ActivityTree(m, ctx));
      EvalParts(ConditionResults(m.conditions, ctx), m.conditionGroups, [], ctx);
      var results := ConditionResults(m.conditions, ctx) + GroupResults(m.conditionGroups, ctx);
      assert results + [] == results;
    }
  }

  function Scaled(x: real, factor: real): real { x * factor }

  /** What an active points modifier does to the value. */
  function Apply(m: Modifier, value: real): Option<real>
    requires m.value.Some?
  {
    if m.kind == Some("set") then Some(m.value.value)
    else if m.kind == Some("increment") then Some(value + m.value.value)
    else if m.kind == Some("multiply") then Some(Scaled(value, m.value.value))
    else None
  }

  /** One turn of the loop. */
  function Turn(m: Modifier, pointsTypeId: string, ctx: Context, before: Points): Result<Points, Failure> {
    Taken(m, ModifierActive(m, ctx), pointsTypeId, before)
  }

  /** A modifier taken as active, inactive or undecided. */
  function Taken(m: Modifier, active: Option<bool>, pointsTypeId: string, before: Points): Result<Points, Failure> {
    if m.field != Some(pointsTypeId) then Ok(before)
    else if active == Some(false) then Ok(before)
    else if active == None then Ok(before.(unresolved := before.unresolved + [NeedsRoster]))
    else if m.value.None? then Err(NonNumericModifier)
    else if Apply(m, before.value).Some? then Ok(before.(value := Apply(m, before.value).value))
    else Ok(before.(unresolved := before.unresolved + [UnsupportedOperation]))
  }

  /** The loop over modifiers in order. */
  function Run(order: seq<Modifier>, pointsTypeId: string, ctx: Context, before: Points): Result<Points, Failure> {
    if order == [] then Ok(before)
    else
      var after := Turn(order[0], pointsTypeId, ctx, before);
      if after.Err? then after else Run(order[1..], pointsTypeId, ctx, after.value)
  }

  function BaseCost(costs: seq<Cost>, pointsTypeId: string): Option<real> {
    if costs == [] then Some(0.0)
    else
      var n := |costs| - 1;
      var before := BaseCost(costs[..n], pointsTypeId);
      if before.None? || costs[n].typeId != Some(pointsTypeId) then before
      else if costs[n].value.None? then None
      else Some(before.value + costs[n].value.value)
  }

  function EntryOrder(e: Entry): seq<Modifier> { Order(e.modifiers + e.modifierGroups) }

  function EntryPoints(e: Entry, pointsTypeId: string, ctx: Context): Result<Points, Failure> {
    var base := BaseCost(e.costs, pointsTypeId);
    if base.None? then Err(NonNumericCost)
    else Run(EntryOrder(e), pointsTypeId, ctx.(nodeId := e.id), Points(base.value, []))
  }

  /** `selectedNodePointCost`. */
  method SelectedNodePointCost(e: Entry, pointsTypeId: string, ctx: Context) returns (r: Result<Points, Failure>)
    ensures r == EntryPoints(e, pointsTypeId, ctx)
  {
    hide ModifierActive, Order, Scaled;
    var value := 0.0;
    for i := 0 to |e.costs|
      invariant BaseCost(e.costs[..i], pointsTypeId) == Some(value)
    {
      BaseCostStep(e.costs, i, pointsTypeId);
      if e.costs[i].typeId != Some(pointsTypeId) { continue; }
      if e.costs[i].value.None? {
        BaseCostFails(e.costs, i + 1, pointsTypeId);
        return Err(NonNumericCost);
      }
      value := value + e.costs[i].value.value;
    }
    assert e.costs[..|e.costs|] == e.costs;
    var local := ctx.(nodeId := e.id);
    var points := Points(value, []);
    var queue := e.modifiers + e.modifierGroups;
    while queue != []
      invariant Run(EntryOrder(e), pointsTypeId, local, Points(value, [])) ==
                Run(Order(queue), pointsTypeId, local, points)
      decreases Sizes(queue)
    {
      RunStep(queue, pointsTypeId, local, points);
      NextSmaller(queue);
      var modifier := queue[0];
      queue := queue[1..] + (modifier.modifiers + modifier.modifierGroups);
      if modifier.field != Some(pointsTypeId) { continue; }
      var active := ModifierActive(modifier, local);
      if active == Some(false) { continue; }
      if active == None {
        points := points.(unresolved := points.unresolved + [NeedsRoster]);
        continue;
      }
      if modifier.value.None? { return Err(NonNumericModifier); }
      if modifier.kind == Some("set") {
        points := points.(value := modifier.value.value);
      } else if modifier.kind == Some("increment") {
        points := points.(value := points.value + modifier.value.value);
      } else if modifier.kind == Some("multiply") {
        points := points.(value := Scaled(points.value, modifier.value.value));
      } else {
        points := points.(unresolved := points.unresolved + [UnsupportedOperation]);
      }
    }
    assert Order(queue) == [] by { OrderNone(); }
    r := Ok(points);
  }

  lemma OrderNone()
    ensures Order([]) == []
  {}

  lemma RunStep(queue: seq<Modifier>, pointsTypeId: string, ctx: Context, before: Points)
    requires queue != []
    ensures var after := Turn(queue[0], pointsTypeId, ctx, before);
            Run(Order(queue), pointsTypeId, ctx, before) == if after.Err? then after
                                                            else Run(Order(Next(queue)), pointsTypeId, ctx, after.value)
  {
    hide Turn;
    var order := Order(queue);
    assert order != [] && order[0] == queue[0] && order[1..] == Order(Next(queue));
  }

  lemma BaseCostStep(costs: seq<Cost>, i: nat, pointsTypeId: string)
    requires i < |costs|
    ensures var before := BaseCost(costs[..i], pointsTypeId);
            BaseCost(costs[..i + 1], pointsTypeId) ==
              if before.None? || costs[i].typeId != Some(pointsTypeId) then before
              else if costs[i].value.None? then None else Some(before.value + costs[i].value.value)
  {
    assert costs[..i + 1][..i] == costs[..i];
  }

  lemma {:induction false} BaseCostFails(costs: seq<Cost>, i: nat, pointsTypeId: string)
    requires i <= |costs| && BaseCost(costs[..i], pointsTypeId).None?
    ensures BaseCost(costs, pointsTypeId).None?
    decreases |costs| - i
  {
    if i == |costs| {
      assert costs[..i] == costs;
    } else {
      BaseCostStep(costs, i, pointsTypeId);
      BaseCostFails(costs, i + 1, pointsTypeId);
    }
  }

  // ---- Totals that do not depend on undecided conditions ----

  /** `acts[i]` is the answer some completion of the conditions of `order[i]` gives. */
  ghost predicate Possible(order: seq<Modifier>, ctx: Context, acts: seq<bool>) {
    |acts| == |order| && forall i :: 0 <= i < |order| ==> PossibleAct(order[i], ctx, acts[i])
  }

  ghost predicate PossibleAct(m: Modifier, ctx: Context, act: bool) {
    exists c :: Completes(c, ActivityTree(m, ctx)) && act == Truth(c)
  }

  /** The value when it is decided which modifiers are active. */
  function Decided(order: seq<Modifier>, pointsTypeId: string, acts: seq<bool>, value: real): real
    requires |acts| == |order|
  {
    if order == [] then value
    else
      var m := order[0];
      var after := if m.field == Some(pointsTypeId) && acts[0] && m.value.Some? &&
                   Apply(m, value).Some? then Apply(m, value).value else value;
      Decided(order[1..], pointsTypeId, acts[1..], after)
  }

  lemma ActIsAnswer(m: Modifier, ctx: Context, act: bool)
    requires PossibleAct(m, ctx, act) && ModifierActive(m, ctx).Some?
    ensures act == ModifierActive(m, ctx).value
  {
    ActiveIsTree(m, ctx);
    hide Completes, Truth;
    var c :| Completes(c, ActivityTree(m, ctx)) && act == Truth(c);
    DefiniteHolds(ActivityTree(m, ctx), c);
  }

  lemma {:induction false} UnresolvedGrows(order: seq<Modifier>, pointsTypeId: string, ctx: Context, before: Points)
    requires Run(order, pointsTypeId, ctx, before).Ok?
    ensures before.unresolved <= Run(order, pointsTypeId, ctx, before).value.unresolved
  {
    hide ModifierActive, Apply;
    if order != [] {
      UnresolvedGrows(order[1..], pointsTypeId, ctx, Turn(order[0], pointsTypeId, ctx, before).value);
    }
  }

  /** A run that leaves nothing unresolved gives the value of every way of deciding the conditions. */
  lemma {:induction false} RunDecided(order: seq<Modifier>, pointsTypeId: string, ctx: Context, before: Points,
                                      acts: seq<bool>)
    requires Run(order, pointsTypeId, ctx, before).Ok? && Run(order, pointsTypeId, ctx, before).value.unresolved == []
    requires Possible(order, ctx, acts)
    ensures Decided(order, pointsTypeId, acts, before.value) == Run(order, pointsTypeId, ctx, before).value.value
  {
    hide ModifierActive, Apply, PossibleAct;
    if order != [] {
      var after := Turn(order[0], pointsTypeId, ctx, before).value;
      UnresolvedGrows(order[1..], pointsTypeId, ctx, after);
      if ModifierActive(order[0], ctx).Some? { ActIsAnswer(order[0], ctx, acts[0]); }
      RunDecided(order[1..], pointsTypeId, ctx, after, acts[1..]);
    }
  }

  // ---- The whole unit ----

  /** A selected entry: its node, if it was retained, its group, and how many are selected. */
  datatype Selection = Selection(entry: Option<Entry>, groupId: Option<string>, count: real)

  function Listed(id: Option<string>, wanted: string, count: real): real {
    if id == Some(wanted) && wanted != "" then count else 0.0
  }

  function NodeId(s: Selection): Option<string> { if s.entry.Some? then s.entry.value.id else None }

  /** How often an id is selected, as a node and as a group. */
  function CountOf(selections: seq<Selection>, id: string): real {
    if selections == [] then 0.0
    else
      var n := |selections| - 1;
      CountOf(selections[..n], id) + Listed(NodeId(selections[n]), id, selections[n].count) +
      Listed(selections[n].groupId, id, selections[n].count)
  }

  function Selected(counts: map<string, real>, id: string): real { if id in counts then counts[id] else 0.0 }

  function Bump(counts: map<string, real>, id: Option<string>, count: real): map<string, real> {
    if id.None? || id.value == "" then counts else counts[id.value := Selected(counts, id.value) + count]
  }

  method CountSelections(selections: seq<Selection>) returns (counts: map<string, real>)
    ensures forall id :: Selected(counts, id) == CountOf(selections, id)
  {
    counts := map[];
    for i := 0 to |selections|
      invariant forall id :: Selected(counts, id) == CountOf(selections[..i], id)
    {
      assert selections[..i + 1][..i] == selections[..i];
      counts := Bump(Bump(counts, NodeId(selections[i]), selections[i].count), selections[i].groupId,
                     selections[i].count);
    }
    assert selections[..|selections|] == selections;
  }

  function Total(selections: seq<Selection>, pointsTypeId: string, ctx: Context): Result<Points, Failure> {
    if selections == [] then Ok(Points(0.0, []))
    else
      var n := |selections| - 1;
      var before := Total(selections[..n], pointsTypeId, ctx);
      if before.Err? then before
      else if selections[n].entry.None? then Err(EntryNotRetained)
      else
        var cost := EntryPoints(selections[n].entry.value, pointsTypeId, ctx);
        if cost.Err? then cost
        else Ok(Points(before.value.value + Scaled(cost.value.value, selections[n].count),
                       Joined(before.value.unresolved, cost.value.unresolved)))
  }

  /** The reasons are kept as a set. */
  function Joined(a: seq<Unresolved>, b: seq<Unresolved>): seq<Unresolved> {
    if b == [] then a
    else
      var before := Joined(a, b[..|b| - 1]);
      if b[|b| - 1] in before then before else before + [b[|b| - 1]]
  }

  method AddReasons(reasons: seq<Unresolved>, more: seq<Unresolved>) returns (all: seq<Unresolved>)
    ensures all == Joined(reasons, more)
  {
    all := reasons;
    for j := 0 to |more|
      invariant all == Joined(reasons, more[..j])
    {
      assert more[..j + 1][..j] == more[..j];
      if more[j] !in all { all := all + [more[j]]; }
    }
    assert more[..|more|] == more;
  }

  /** `evaluateResolvedPoints`: the counts first, then every selection's cost times its count. */
  method EvaluateResolvedPoints(selections: seq<Selection>, pointsTypeId: string, modelCount: real, unitOrdinal: real,
                                primaryCatalogueId: string)
    returns (r: Result<Points, Failure>, ctx: Context)
    ensures ctx.modelCount == modelCount && ctx.unitOrdinal == unitOrdinal &&
            ctx.primaryCatalogueId == primaryCatalogueId
    ensures forall id :: Selected(ctx.selectedCounts, id) == CountOf(selections, id)
    ensures r == Total(selections, pointsTypeId, ctx)
  {
    hide EntryPoints, Joined, Scaled;
    var counts := CountSelections(selections);
    ctx := Context(None, modelCount, unitOrdinal, primaryCatalogueId, counts);
    var value, reasons: seq<Unresolved> := 0.0, [];
    for i := 0 to |selections|
      invariant Total(selections[..i], pointsTypeId, ctx) == Ok(Points(value, reasons))
    {
      TotalStep(selections, i, pointsTypeId, ctx);
      if selections[i].entry.None? {
        TotalFails(selections, i + 1, pointsTypeId, ctx);
        return Err(EntryNotRetained), ctx;
      }
      var cost := SelectedNodePointCost(selections[i].entry.value, pointsTypeId, ctx);
      if cost.Err? {
        TotalFails(selections, i + 1, pointsTypeId, ctx);
        return cost, ctx;
      }
      value := value + Scaled(cost.value.value, selections[i].count);
      reasons := AddReasons(reasons, cost.value.unresolved);
    }
    assert selections[..|selections|] == selections;
    r := Ok(Points(value, reasons));
  }

  lemma TotalStep(selections: seq<Selection>, i: nat, pointsTypeId: string, ctx: Context)
    requires i < |selections| && Total(selections[..i], pointsTypeId, ctx).Ok?
    ensures var before := Total(selections[..i], pointsTypeId, ctx).value;
            Total(selections[..i + 1], pointsTypeId, ctx) ==
              if selections[i].entry.None? then Err(EntryNotRetained)
              else
                var cost := EntryPoints(selections[i].entry.value, pointsTypeId, ctx);
                if cost.Err? then cost
                else Ok(Points(before.value + Scaled(cost.value.value, selections[i].count),
                               Joined(before.unresolved, cost.value.unresolved)))
  {
    hide EntryPoints, Joined, Scaled;
    assert selections[..i + 1][..i] == selections[..i];
  }

  lemma {:induction false} TotalFails(selections: seq<Selection>, i: nat, pointsTypeId: string, ctx: Context)
    requires i <= |selections| && Total(selections[..i], pointsTypeId, ctx).Err?
    ensures Total(selections, pointsTypeId, ctx) == Total(selections[..i], pointsTypeId, ctx)
    decreases |selections| - i
  {
    if i == |selections| {
      assert selections[..i] == selections;
    } else {
      assert selections[..i + 1][..i] == selections[..i];
      TotalFails(selections, i + 1, pointsTypeId, ctx);
    }
  }

  /** One way of deciding every condition of every selected entry. */
  ghost predicate PossibleUnit(selections: seq<Selection>, ctx: Context, acts: seq<seq<bool>>) {
    |acts| == |selections| &&
    forall i :: 0 <= i < |selections| && selections[i].entry.Some? ==>
      Possible(EntryOrder(selections[i].entry.value), ctx.(nodeId := selections[i].entry.value.id), acts[i])
  }

  function DecidedEntry(e: Entry, pointsTypeId: string, acts: seq<bool>): real
    requires |acts| == |EntryOrder(e)|
  {
    var base := BaseCost(e.costs, pointsTypeId);
    Decided(EntryOrder(e), pointsTypeId, acts, if base.Some? then base.value else 0.0)
  }

  ghost function DecidedTotal(selections: seq<Selection>, pointsTypeId: string, ctx: Context,
                              acts: seq<seq<bool>>): real
    requires PossibleUnit(selections, ctx, acts)
    decreases |selections|
  {
    if selections == [] then 0.0
    else
      var n := |selections| - 1;
      var last := if selections[n].entry.Some? then DecidedEntry(selections[n].entry.value, pointsTypeId, acts[n])
                  else 0.0;
      DecidedTotal(selections[..n], pointsTypeId, ctx, acts[..n]) + Scaled(last, selections[n].count)
  }

  lemma {:induction false} JoinedNone(a: seq<Unresolved>, b: seq<Unresolved>)
    ensures |Joined(a, b)| >= |a| && (b != [] ==> Joined(a, b) != [])
  {
    if b != [] { JoinedNone(a, b[..|b| - 1]); }
  }

  /** A total without unresolved reasons is the total under every way of deciding every condition. */
  lemma {:induction false} TotalDecided(selections: seq<Selection>, pointsTypeId: string, ctx: Context,
                                        acts: seq<seq<bool>>)
    requires Total(selections, pointsTypeId, ctx).Ok? && Total(selections, pointsTypeId, ctx).value.unresolved == []
    requires PossibleUnit(selections, ctx, acts)
    ensures DecidedTotal(selections, pointsTypeId, ctx, acts) == Total(selections, pointsTypeId, ctx).value.value
    decreases |selections|
  {
    hide Run, Order, BaseCost, Possible, Joined, Scaled;
    if selections != [] {
      var n := |selections| - 1;
      var e := selections[n].entry.value;
      var before := Total(selections[..n], pointsTypeId, ctx).value;
      JoinedNone(before.unresolved, EntryPoints(e, pointsTypeId, ctx).value.unresolved);
      TotalDecided(selections[..n], pointsTypeId, ctx, acts[..n]);
      RunDecided(EntryOrder(e), pointsTypeId, ctx.(nodeId := e.id), Points(BaseCost(e.costs, pointsTypeId).value, []),
                 acts[n]);
    }
  }
}
