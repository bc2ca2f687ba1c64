/**
  lib/rosterpilot/enriched-rosz.ts:159-274, `topLevelUnits`: one pass over selection and cost tokens
  with a stack, against what each top-level selection's own tree says.
 */
module RoszSelections {
  import opened Wrappers

  /** The attributes of a selection; `number` is how many are selected. */
  datatype Header = Header(id: string, name: string, kind: string, number: real)

  /** A cost: whether it is in points, and its value when finite. */
  datatype Cost = Cost(inPoints: bool, value: Option<real>)

  datatype Token =
    | OpenSelection(header: Header, selfClosing: bool)
    | CloseSelection
    | CostToken(cost: Cost)
    | ProfileToken(typeName: string)

  /** What the tokens are the markup of. */
  datatype Item =
    | Selection(header: Header, selfClosing: bool, items: seq<Item>)
    | CostItem(cost: Cost)
    | Profile(typeName: string)

  predicate WellFormed(i: Item) {
    i.Selection? ==> (i.selfClosing ==> i.items == []) && forall k :: 0 <= k < |i.items| ==> WellFormed(i.items[k])
  }

  predicate AllWellFormed(items: seq<Item>) { forall k :: 0 <= k < |items| ==> WellFormed(items[k]) }

  function Flatten(i: Item): seq<Token>
    decreases i
  {
    match i
    case CostItem(cost) => [CostToken(cost)]
    case Profile(typeName) => [ProfileToken(typeName)]
    case Selection(header, selfClosing, items) =>
      [OpenSelection(header, selfClosing)] + (if selfClosing then [] else FlattenAll(items) + [CloseSelection])
  }

  function FlattenAll(items: seq<Item>): seq<Token>
    decreases items
  {
    if items == [] then [] else Flatten(items[0]) + FlattenAll(items[1..])
  }

  predicate UnitKind(kind: string) { kind == "unit" || kind == "model" }

  // ---- What a top-level selection amounts to ----

  /** The points of a selection itself: its last finite cost in points. */
  function Direct(start: Option<real>, items: seq<Item>): Option<real>
    decreases |items|
  {
    if items == [] then start
    else Direct(if Points(items[0]).Some? then Points(items[0]) else start, items[1..])
  }

  function Points(i: Item): Option<real> {
    if i.CostItem? && i.cost.inPoints then i.cost.value else None
  }

  /** The sum of all finite point costs of a selection itself. */
  function DirectSum(items: seq<Item>): real {
    if items == [] then 0.0
    else (if Points(items[0]).Some? then Points(items[0]).value else 0.0) + DirectSum(items[1..])
  }

  /** Models among the nested selections, at every depth. */
  function Models(items: seq<Item>): real
    decreases items
  {
    if items == [] then 0.0 else ModelsIn(items[0]) + Models(items[1..])
  }

  function ModelsIn(i: Item): real
    decreases i
  {
    if i.Selection? then (if i.header.kind == "model" then i.header.number else 0.0) + Models(i.items) else 0.0
  }

  /** Point costs of nested upgrades, at every depth. */
  function Upgrades(items: seq<Item>): real
    decreases items
  {
    if items == [] then 0.0 else UpgradesIn(items[0]) + Upgrades(items[1..])
  }

  function UpgradesIn(i: Item): real
    decreases i
  {
    if i.Selection? then (if i.header.kind == "upgrade" then DirectSum(i.items) else 0.0) + Upgrades(i.items) else 0.0
  }

  /** The points of the units and models directly below, when any has points of its own. */
  function Children(start: Option<real>, items: seq<Item>): Option<real>
    decreases |items|
  {
    if items == [] then start else Children(WithChild(start, items[0]), items[1..])
  }

  function WithChild(start: Option<real>, i: Item): Option<real> {
    if i.Selection? && UnitKind(i.header.kind) && Direct(None, i.items).Some? then
      Some((if start.Some? then start.value else 0.0) + Direct(None, i.items).value)
    else start
  }

  function TotalPoints(direct: Option<real>, children: Option<real>, upgrades: real): Option<real> {
    var base := if direct.Some? then direct else children;
    if base.None? then (if upgrades > 0.0 then Some(upgrades) else None) else Some(base.value + upgrades)
  }

  /** A reported unit. */
  datatype Unit = Unit(name: string, modelCount: real, selectionId: string, ordinal: nat, points: Option<real>)

  function ModelCount(h: Header, nested: real): real {
    if h.kind == "model" then h.number else if nested >= h.number then nested else h.number
  }

  /** The unit a top-level selection is, with its ordinal among units of the same name. */
  function UnitOf(h: Header, items: seq<Item>, ordinal: nat): Unit {
    Unit(h.name, ModelCount(h, Models(items)), h.id, ordinal,
         TotalPoints(Direct(None, items), Children(None, items), Upgrades(items)))
  }

  /** How often a name was counted already. */
  function Seen(ordinals: map<string, nat>, key: string): nat { if key in ordinals then ordinals[key] else 0 }

  /** The units of a list of top-level items, in order. `key` normalizes names. */
  function UnitsOf(key: string -> string, items: seq<Item>): seq<Unit> {
    if items == [] then []
    else
      var n := |items| - 1;
      var before := UnitsOf(key, items[..n]);
      if items[n].Selection? && UnitKind(items[n].header.kind) then
        before + [UnitOf(items[n].header, items[n].items, Same(key, items[..n], key(items[n].header.name)) + 1)]
      else before
  }

  /** How many earlier units have the same normalized name. */
  function Same(key: string -> string, items: seq<Item>, wanted: string): nat {
    if items == [] then 0
    else
      var n := |items| - 1;
      Same(key, items[..n], wanted) +
      (if items[n].Selection? && UnitKind(items[n].header.kind) && key(items[n].header.name) == wanted then 1 else 0)
  }

  // ---- The pass ----

  /** A stack entry; the last five fields change while it is on the stack. */
  datatype Frame = Frame(header: Header, topLevel: bool, modelCount: real, directPoints: Option<real>,
                         immediateChildPoints: real, hasImmediateChildPoints: bool, nestedUpgradePoints: real)

  datatype State = State(stack: seq<Frame>, units: seq<Unit>, ordinals: map<string, nat>)

  const INITIAL := State([], [], map[])

  function Top(s: State): Frame
    requires s.stack != []
  {
    s.stack[|s.stack| - 1]
  }

  function SetTop(stack: seq<Frame>, f: Frame): seq<Frame>
    requires stack != []
  {
    stack[..|stack| - 1] + [f]
  }

  function SetRoot(stack: seq<Frame>, f: Frame): seq<Frame>
    requires stack != []
  {
    [f] + stack[1..]
  }

  /** `finish`. */
  function Finish(key: string -> string, s: State, f: Frame): State {
    if f.topLevel && UnitKind(f.header.kind) then
      var k := key(f.header.name);
      var ordinal := Seen(s.ordinals, k) + 1;
      var children := if f.hasImmediateChildPoints then Some(f.immediateChildPoints) else None;
      State(s.stack, s.units + [Unit(f.header.name, ModelCount(f.header, f.modelCount), f.header.id, ordinal,
                                     TotalPoints(f.directPoints, children, f.nestedUpgradePoints))],
            s.ordinals[k := ordinal])
    else s
  }

  /** A finished node's points go to a top-level parent. */
  function Credit(s: State, f: Frame): State {
    if s.stack != [] && Top(s).topLevel && UnitKind(f.header.kind) && f.directPoints.Some? then
      State(SetTop(s.stack, Top(s).(immediateChildPoints := Top(s).immediateChildPoints + f.directPoints.value,
                                    hasImmediateChildPoints := true)),
            s.units, s.ordinals)
    else s
  }

  function StepCost(s: State, c: Cost): State {
    if s.stack == [] || !c.inPoints || c.value.None? then s
    else
      var f := Top(s);
      var stack := SetTop(s.stack, f.(directPoints := c.value));
      if !f.topLevel && f.header.kind == "upgrade" then
        s.(stack := SetRoot(stack, stack[0].(nestedUpgradePoints := stack[0].nestedUpgradePoints + c.value.value)))
      else s.(stack := stack)
  }

  function StepOpen(key: string -> string, s: State, h: Header, selfClosing: bool): State {
    var f := Frame(h, s.stack == [], 0.0, None, 0.0, false, 0.0);
    var counted := if !f.topLevel && h.kind == "model" then
                     s.(stack := SetRoot(s.stack, s.stack[0].(modelCount := s.stack[0].modelCount + h.number)))
                   else s;
    if selfClosing then Finish(key, Credit(counted, f), f) else counted.(stack := counted.stack + [f])
  }

  function StepClose(key: string -> string, s: State): State {
    if s.stack == [] then s
    else
      var f := Top(s);
      Finish(key, Credit(s.(stack := s.stack[..|s.stack| - 1]), f), f)
  }

  function Step(key: string -> string, s: State, t: Token): State {
    match t
    case CostToken(c) => StepCost(s, c)
    case CloseSelection => StepClose(key, s)
    case OpenSelection(h, selfClosing) => StepOpen(key, s, h, selfClosing)
    case ProfileToken(_) => s
  }

  function Run(key: string -> string, s: State, tokens: seq<Token>): State
    decreases |tokens|
  {
    if tokens == [] then s else Run(key, Step(key, s, tokens[0]), tokens[1..])
  }

  predicate Reported(u: Unit) { u.name != "" && u.modelCount > 0.0 }

  function Filter(units: seq<Unit>): seq<Unit> {
    if units == [] then [] else (if Reported(units[0]) then [units[0]] else []) + Filter(units[1..])
  }

  lemma RunOne(key: string -> string, s: State, t: Token, rest: seq<Token>)
    ensures Run(key, s, [t] + rest) == Run(key, Step(key, s, t), rest)
  {
    hide Step;
    assert ([t] + rest)[1..] == rest;
  }

  // ---- Items below a top-level selection ----

  /** Only the first frame of a stack is a top-level one; without child points its sum is zero. */
  predicate Nested(stack: seq<Frame>) {
    stack != [] && (forall k :: 0 <= k < |stack| ==> (stack[k].topLevel <==> k == 0)) &&
    (!stack[0].hasImmediateChildPoints ==> stack[0].immediateChildPoints == 0.0)
  }

  function ChildPoints(f: Frame): Option<real> {
    if f.hasImmediateChildPoints then Some(f.immediateChildPoints) else None
  }

  /** A top-level frame after items directly below it. */
  function RootAfter(f: Frame, items: seq<Item>): Frame {
    var children := Children(ChildPoints(f), items);
    f.(modelCount := f.modelCount + Models(items), directPoints := Direct(f.directPoints, items),
       immediateChildPoints := if children.Some? then children.value else f.immediateChildPoints,
       hasImmediateChildPoints := children.Some?, nestedUpgradePoints := f.nestedUpgradePoints + Upgrades(items))
  }

  /** The top-level frame after items deeper down, under a selection of some kind. */
  function RootBelow(f: Frame, kind: string, items: seq<Item>): Frame {
    f.(modelCount := f.modelCount + Models(items),
       nestedUpgradePoints := f.nestedUpgradePoints + Upgrades(items) +
                              (if kind == "upgrade" then DirectSum(items) else 0.0))
  }

  /** What reading items does to the stack they are read on. */
  function After(stack: seq<Frame>, items: seq<Item>): seq<Frame>
    requires stack != []
  {
    var n := |stack| - 1;
    if n == 0 then [RootAfter(stack[0], items)]
    else [RootBelow(stack[0], stack[n].header.kind, items)] + stack[1..n] +
         [stack[n].(directPoints := Direct(stack[n].directPoints, items))]
  }

  lemma AfterNested(stack: seq<Frame>, items: seq<Item>)
    requires Nested(stack)
    ensures Nested(After(stack, items)) && |After(stack, items)| == |stack|
  {
    ChildrenStay(ChildPoints(stack[0]), items);
  }

  lemma {:induction false} ChildrenStay(start: Option<real>, items: seq<Item>)
    ensures start.Some? ==> Children(start, items).Some?
    decreases |items|
  {
    if items != [] { ChildrenStay(WithChild(start, items[0]), items[1..]); }
  }

  lemma AfterNothing(stack: seq<Frame>)
    requires Nested(stack)
    ensures After(stack, []) == stack
  {
    var n := |stack| - 1;
    if n > 0 { assert stack == [stack[0]] + stack[1..n] + [stack[n]]; }
  }

  function Latest(start: Option<real>, i: Item): Option<real> { if Points(i).Some? then Points(i) else start }

  function Worth(i: Item): real { if Points(i).Some? then Points(i).value else 0.0 }

  lemma Cons(i: Item, rest: seq<Item>)
    ensures Models([i] + rest) == ModelsIn(i) + Models(rest) && Upgrades([i] + rest) == UpgradesIn(i) + Upgrades(rest)
    ensures DirectSum([i] + rest) == Worth(i) + DirectSum(rest)
    ensures forall start :: Direct(start, [i] + rest) == Direct(Latest(start, i), rest)
    ensures forall start :: Children(start, [i] + rest) == Children(WithChild(start, i), rest)
  {
    assert ([i] + rest)[1..] == rest;
  }

  lemma One(i: Item)
    ensures Models([i]) == ModelsIn(i) && Upgrades([i]) == UpgradesIn(i) && DirectSum([i]) == Worth(i)
    ensures forall start :: Direct(start, [i]) == Latest(start, i)
    ensures forall start :: Children(start, [i]) == WithChild(start, i)
  {
    assert [i] + [] == [i];
    Cons(i, []);
  }

  lemma RootAfterOne(f: Frame, i: Item)
    ensures RootAfter(f, [i]) ==
              f.(modelCount := f.modelCount + ModelsIn(i), directPoints := Latest(f.directPoints, i),
                 immediateChildPoints := if WithChild(ChildPoints(f), i).Some? then WithChild(ChildPoints(f), i).value
                                         else f.immediateChildPoints,
                 hasImmediateChildPoints := WithChild(ChildPoints(f), i).Some?,
                 nestedUpgradePoints := f.nestedUpgradePoints + UpgradesIn(i))
  {
    One(i);
  }

  lemma RootAfterCons(f: Frame, i: Item, rest: seq<Item>)
    ensures RootAfter(RootAfter(f, [i]), rest) == RootAfter(f, [i] + rest)
  {
    RootAfterOne(f, i);
    Cons(i, rest);
    WithChildStays(ChildPoints(f), i);
    ChildrenStay(WithChild(ChildPoints(f), i), rest);
    hide Models, Upgrades, Direct, Children, WithChild, Latest, ModelsIn, UpgradesIn;
  }

  lemma RootBelowCons(f: Frame, kind: string, i: Item, rest: seq<Item>)
    ensures RootBelow(RootBelow(f, kind, [i]), kind, rest) == RootBelow(f, kind, [i] + rest)
  {
    One(i);
    Cons(i, rest);
    hide Models, Upgrades, DirectSum, ModelsIn, UpgradesIn, Worth;
  }

  lemma WithChildStays(start: Option<real>, i: Item)
    ensures start.Some? ==> WithChild(start, i).Some?
  {}

  /** Reading one item and then the rest. */
  lemma AfterCons(stack: seq<Frame>, i: Item, rest: seq<Item>)
    requires Nested(stack)
    ensures After(After(stack, [i]), rest) == After(stack, [i] + rest)
  {
    var n := |stack| - 1;
    One(i);
    Cons(i, rest);
    if n == 0 {
      RootAfterCons(stack[0], i, rest);
    } else {
      RootBelowCons(stack[0], stack[n].header.kind, i, rest);
      hide RootBelow, RootAfter, Direct, Latest;
      var once := After(stack, [i]);
      assert once[0] == RootBelow(stack[0], stack[n].header.kind, [i]) && once[1..n] == stack[1..n];
    }
  }

  lemma CostEffect(s: State, c: Cost)
    requires Nested(s.stack)
    ensures StepCost(s, c) == s.(stack := After(s.stack, [CostItem(c)]))
  {
    var n := |s.stack| - 1;
    One(CostItem(c));
    RootAfterOne(s.stack[0], CostItem(c));
    hide Models, Upgrades, DirectSum, Direct, Children, RootAfter;
    if n > 0 {
      assert s.stack == [s.stack[0]] + s.stack[1..n] + [s.stack[n]];
      var changed := SetTop(s.stack, Top(s).(directPoints := c.value));
      assert changed[1..] == s.stack[1..n] + [Top(s).(directPoints := c.value)];
      assert changed == [s.stack[0]] + s.stack[1..n] + [Top(s).(directPoints := c.value)];
    }
  }

  lemma ProfileEffect(stack: seq<Frame>, typeName: string)
    requires Nested(stack)
    ensures After(stack, [Profile(typeName)]) == stack
  {
    var n := |stack| - 1;
    One(Profile(typeName));
    RootAfterOne(stack[0], Profile(typeName));
    hide Models, Upgrades, DirectSum, Direct, Children, RootAfter;
    if n > 0 { assert stack == [stack[0]] + stack[1..n] + [stack[n]]; }
  }

  function Opened(h: Header, topLevel: bool): Frame { Frame(h, topLevel, 0.0, None, 0.0, false, 0.0) }

  function Counted(stack: seq<Frame>, h: Header): seq<Frame>
    requires stack != []
  {
    if h.kind == "model" then SetRoot(stack, stack[0].(modelCount := stack[0].modelCount + h.number)) else stack
  }

  lemma CountedNested(stack: seq<Frame>, h: Header)
    requires Nested(stack)
    ensures Nested(Counted(stack, h)) && Nested(Counted(stack, h) + [Opened(h, false)]) &&
            Counted(stack, h)[1..] == stack[1..]
  {}

  /** Credit for a nested selection that read its items. */
  lemma CreditEffect(s: State, i: Item)
    requires Nested(s.stack) && i.Selection?
    ensures var f := Opened(i.header, false).(directPoints := Direct(None, i.items));
            var popped := [RootBelow(Counted(s.stack, i.header)[0], i.header.kind, i.items)] + s.stack[1..];
            Credit(s.(stack := popped), f) == s.(stack := After(s.stack, [i]))
  {
    var stack, n := s.stack, |s.stack| - 1;
    One(i);
    RootAfterOne(stack[0], i);
    hide Models, Upgrades, DirectSum, Direct, Children, RootAfter;
    if n > 0 { assert stack[1..] == stack[1..n] + [stack[n]]; }
  }

  /** A nested selection, from its opening to its end. */
  lemma SelectionEffect(key: string -> string, s: State, i: Item)
    requires Nested(s.stack) && i.Selection?
    ensures var up := Counted(s.stack, i.header) + [Opened(i.header, false)];
            StepClose(key, s.(stack := After(up, i.items))) == s.(stack := After(s.stack, [i]))
  {
    var h, n := i.header, |s.stack| - 1;
    CountedNested(s.stack, h);
    CreditEffect(s, i);
    hide Models, Upgrades, DirectSum, Direct, Children, RootAfter, RootBelow, Credit;
    var counted := Counted(s.stack, h);
    var up := counted + [Opened(h, false)];
    assert up[1..n + 1] == counted[1..];
    var down := After(up, i.items);
    assert down[n + 1] == Opened(h, false).(directPoints := Direct(None, i.items));
    assert down[..n + 1] == [RootBelow(counted[0], h.kind, i.items)] + s.stack[1..];
  }
}
