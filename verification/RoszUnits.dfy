/**
  lib/rosterpilot/enriched-rosz.ts:159-274: on well-nested tokens the pass reports, for every
  top-level unit, what its own tree says.
 */
module RoszUnits {
  import opened Wrappers
  import opened RoszSelections

  // ---- Items below a top-level selection ----

  lemma {:induction false} RunItem(key: string -> string, s: State, i: Item, rest: seq<Token>)
    requires WellFormed(i) && Nested(s.stack)
    ensures Run(key, s, Flatten(i) + rest) == Run(key, s.(stack := After(s.stack, [i])), rest)
    decreases i, 1
  {
    hide After, Run;
    match i
    case CostItem(c) =>
      CostEffect(s, c);
      RunOne(key, s, CostToken(c), rest);
    case Profile(typeName) =>
      ProfileEffect(s.stack, typeName);
      RunOne(key, s, ProfileToken(typeName), rest);
    case Selection(h, selfClosing, items) =>
      RunSelection(key, s, i, rest);
  }

  lemma {:induction false} RunSelection(key: string -> string, s: State, i: Item, rest: seq<Token>)
    requires WellFormed(i) && Nested(s.stack) && i.Selection?
    ensures Run(key, s, Flatten(i) + rest) == Run(key, s.(stack := After(s.stack, [i])), rest)
    decreases i, 0
  {
    var h := i.header;
    var up := Counted(s.stack, h) + [Opened(h, false)];
    CountedNested(s.stack, h);
    SelectionEffect(key, s, i);
    OpenNested(key, s, h);
    hide After, Run, StepClose, Counted;
    if i.selfClosing {
      AfterNothing(up);
      CloseEmpty(key, s, h);
      RunOne(key, s, OpenSelection(h, true), rest);
    } else {
      var tail := [CloseSelection] + rest;
      assert Flatten(i) + rest == [OpenSelection(h, false)] + (FlattenAll(i.items) + tail);
      RunOne(key, s, OpenSelection(h, false), FlattenAll(i.items) + tail);
      RunItems(key, s.(stack := up), i, i.items, tail);
      RunOne(key, s.(stack := After(up, i.items)), CloseSelection, rest);
    }
  }

  lemma OpenNested(key: string -> string, s: State, h: Header)
    requires Nested(s.stack)
    ensures StepOpen(key, s, h, false) == s.(stack := Counted(s.stack, h) + [Opened(h, false)])
    ensures StepOpen(key, s, h, true) == s.(stack := Counted(s.stack, h))
  {}

  lemma CloseEmpty(key: string -> string, s: State, h: Header)
    requires Nested(s.stack)
    ensures StepClose(key, s.(stack := Counted(s.stack, h) + [Opened(h, false)])) == s.(stack := Counted(s.stack, h))
  {
    var counted := Counted(s.stack, h);
    assert (counted + [Opened(h, false)])[..|counted|] == counted;
  }

  lemma {:induction false} RunItems(key: string -> string, s: State, parent: Item, items: seq<Item>, rest: seq<Token>)
    requires AllWellFormed(items) && Nested(s.stack) && forall k :: 0 <= k < |items| ==> items[k] < parent
    ensures Run(key, s, FlattenAll(items) + rest) == Run(key, s.(stack := After(s.stack, items)), rest)
    decreases parent, 0, |items|
  {
    if items == [] {
      AfterNothing(s.stack);
      assert FlattenAll(items) + rest == rest;
    } else {
      var first, others := items[0], items[1..];
      assert items == [first] + others && first < parent;
      assert FlattenAll(items) + rest == Flatten(first) + (FlattenAll(others) + rest);
      hide After, Run, Flatten, FlattenAll, WellFormed;
      AfterNested(s.stack, [first]);
      AfterCons(s.stack, first, others);
      RunItem(key, s, first, FlattenAll(others) + rest);
      RunItems(key, s.(stack := After(s.stack, [first])), parent, others, rest);
    }
  }

  // ---- Top-level items ----

  /** The state after the top-level items `done`. */
  ghost predicate Reached(key: string -> string, s: State, done: seq<Item>) {
    s.stack == [] && s.units == UnitsOf(key, done) && forall k :: Seen(s.ordinals, k) == Same(key, done, k)
  }

  /** A top-level selection, closed. */
  function Finished(key: string -> string, s: State, i: Item): State
    requires i.Selection?
  {
    if UnitKind(i.header.kind) then
      var ordinal := Seen(s.ordinals, key(i.header.name)) + 1;
      State([], s.units + [UnitOf(i.header, i.items, ordinal)], s.ordinals[key(i.header.name) := ordinal])
    else s
  }

  lemma CloseTop(key: string -> string, s: State, i: Item)
    requires s.stack == [] && i.Selection?
    ensures StepClose(key, s.(stack := After([Opened(i.header, true)], i.items))) == Finished(key, s, i)
    ensures i.items == [] ==> StepOpen(key, s, i.header, true) == Finished(key, s, i)
  {
    hide Models, Upgrades, Direct, Children, ModelCount;
    var f := RootAfter(Opened(i.header, true), i.items);
    assert After([Opened(i.header, true)], i.items) == [f] && [f][..0] == [];
    if i.items == [] { NothingBelow(); }
  }

  lemma NothingBelow()
    ensures Models([]) == 0.0 && Upgrades([]) == 0.0 && Direct(None, []) == None && Children(None, []) == None
  {}

  lemma RunTop(key: string -> string, s: State, i: Item, rest: seq<Token>)
    requires WellFormed(i) && s.stack == []
    ensures Run(key, s, Flatten(i) + rest) == Run(key, if i.Selection? then Finished(key, s, i) else s, rest)
  {
    match i
    case CostItem(c) => RunOne(key, s, CostToken(c), rest);
    case Profile(typeName) => RunOne(key, s, ProfileToken(typeName), rest);
    case Selection(h, selfClosing, items) =>
      CloseTop(key, s, i);
      if selfClosing {
        RunOne(key, s, OpenSelection(h, true), rest);
      } else {
        var tail := [CloseSelection] + rest;
        var up := s.(stack := [Opened(h, true)]);
        assert Step(key, s, OpenSelection(h, false)) == up;
        assert Flatten(i) + rest == [OpenSelection(h, false)] + (FlattenAll(items) + tail);
        hide After, Run, StepClose, Finished, Flatten, FlattenAll;
        RunOne(key, s, OpenSelection(h, false), FlattenAll(items) + tail);
        RunItems(key, up, i, items, tail);
        RunOne(key, up.(stack := After(up.stack, items)), CloseSelection, rest);
      }
  }

  lemma ReachedMore(key: string -> string, s: State, done: seq<Item>, i: Item)
    requires Reached(key, s, done)
    ensures Reached(key, if i.Selection? then Finished(key, s, i) else s, done + [i])
  {
    var after := if i.Selection? then Finished(key, s, i) else s;
    DoneAppend(key, done, i);
    hide UnitOf, UnitsOf, Same;
    forall k ensures Seen(after.ordinals, k) == Same(key, done + [i], k) {
      assert Seen(s.ordinals, k) == Same(key, done, k);
    }
  }

  lemma DoneAppend(key: string -> string, done: seq<Item>, i: Item)
    ensures UnitsOf(key, done + [i]) == UnitsOf(key, done) +
              (if i.Selection? && UnitKind(i.header.kind) then
                 [UnitOf(i.header, i.items, Same(key, done, key(i.header.name)) + 1)]
               else [])
    ensures forall k :: Same(key, done + [i], k) == Same(key, done, k) +
              (if i.Selection? && UnitKind(i.header.kind) && key(i.header.name) == k then 1 else 0)
  {
    hide UnitOf;
    assert (done + [i])[..|done|] == done;
  }

  lemma {:induction false} RunForest(key: string -> string, s: State, done: seq<Item>, items: seq<Item>)
    requires AllWellFormed(items) && Reached(key, s, done)
    ensures Reached(key, Run(key, s, FlattenAll(items)), done + items)
    decreases |items|
  {
    if items == [] {
      assert done + items == done && FlattenAll(items) == [] && Run(key, s, []) == s;
    } else {
      var first, others := items[0], items[1..];
      assert FlattenAll(items) == Flatten(first) + FlattenAll(others);
      hide Flatten, FlattenAll, Run, WellFormed, Reached, Finished;
      RunTop(key, s, first, FlattenAll(others));
      ReachedMore(key, s, done, first);
      RunForest(key, if first.Selection? then Finished(key, s, first) else s, done + [first], others);
      assert done + items == done + [first] + others;
    }
  }

  /** Well-nested tokens: the units found are the top-level units of the forest, each read off its own tree. */
  lemma UnitsOfForest(key: string -> string, items: seq<Item>)
    requires AllWellFormed(items)
    ensures Run(key, INITIAL, FlattenAll(items)).units == UnitsOf(key, items)
  {
    hide Run, FlattenAll, AllWellFormed;
    assert Reached(key, INITIAL, []);
    RunForest(key, INITIAL, [], items);
    assert [] + items == items;
  }

  // ---- The loop ----

  /** The variables of `topLevelUnits`. */
  class UnitPass {
    const key: string -> string
    var stack: seq<Frame>
    var units: seq<Unit>
    var ordinals: map<string, nat>

    constructor (key: string -> string)
      ensures this.key == key && Now() == INITIAL
    {
      this.key := key;
      stack, units, ordinals := [], [], map[];
    }

    ghost function Now(): State
      reads this
    {
      State(stack, units, ordinals)
    }

    /** The closure `finish`. */
    method FinishNode(node: Frame)
      modifies this`units, this`ordinals
      ensures Now() == Finish(key, old(Now()), node)
    {
      var basePoints := if node.directPoints.Some? then node.directPoints
                        else if node.hasImmediateChildPoints then Some(node.immediateChildPoints) else None;
      var points := if basePoints.None? then
                      (if node.nestedUpgradePoints > 0.0 then Some(node.nestedUpgradePoints) else None)
                    else Some(basePoints.value + node.nestedUpgradePoints);
      if node.topLevel && (node.header.kind == "unit" || node.header.kind == "model") {
        var name := key(node.header.name);
        var ordinal := (if name in ordinals then ordinals[name] else 0) + 1;
        ordinals := ordinals[name := ordinal];
        var models := if node.header.kind == "model" then node.header.number
                      else if node.modelCount >= node.header.number then node.modelCount else node.header.number;
        units := units + [Unit(node.header.name, models, node.header.id, ordinal, points)];
      }
    }

    method ReadCost(cost: Cost)
      modifies this`stack
      ensures Now() == StepCost(old(Now()), cost)
    {
      if stack == [] || !cost.inPoints || cost.value.None? { return; }
      var current := stack[|stack| - 1];
      stack := stack[..|stack| - 1] + [current.(directPoints := cost.value)];
      if !current.topLevel && current.header.kind == "upgrade" {
        var root := stack[0];
        stack := [root.(nestedUpgradePoints := root.nestedUpgradePoints + cost.value.value)] + stack[1..];
      }
    }

    /** A node that ends gives its points to a top-level parent. */
    method CreditParent(node: Frame)
      modifies this`stack
      ensures Now() == Credit(old(Now()), node)
    {
      var isUnit := node.header.kind == "unit" || node.header.kind == "model";
      if stack != [] && stack[|stack| - 1].topLevel && isUnit && node.directPoints.Some? {
        var parent := stack[|stack| - 1];
        stack := stack[..|stack| - 1] +
                 [parent.(immediateChildPoints := parent.immediateChildPoints + node.directPoints.value,
                                                 hasImmediateChildPoints := true)];
      }
    }

    method ReadClose()
      modifies this
      ensures Now() == StepClose(key, old(Now()))
    {
      hide Credit, Finish;
      if stack == [] { return; }
      var node := stack[|stack| - 1];
      stack := stack[..|stack| - 1];
      CreditParent(node);
      FinishNode(node);
    }

    method ReadOpen(header: Header, selfClosing: bool)
      modifies this
      ensures Now() == StepOpen(key, old(Now()), header, selfClosing)
    {
      hide Credit, Finish;
      var node := Frame(header, stack == [], 0.0, None, 0.0, false, 0.0);
      if !node.topLevel && header.kind == "model" {
        var root := stack[0];
        stack := [root.(modelCount := root.modelCount + header.number)] + stack[1..];
      }
      if selfClosing {
        CreditParent(node);
        FinishNode(node);
      } else {
        stack := stack + [node];
      }
    }
  }

  /** `topLevelUnits` on any tokens. */
  method TopLevelUnits(key: string -> string, tokens: seq<Token>) returns (reported: seq<Unit>)
    ensures reported == Filter(Run(key, INITIAL, tokens).units)
  {
    hide StepCost, StepOpen, StepClose;
    var pass := new UnitPass(key);
    for n := 0 to |tokens|
      invariant pass.key == key && Run(key, INITIAL, tokens) == Run(key, pass.Now(), tokens[n..])
    {
      var token := tokens[n];
      assert tokens[n..][1..] == tokens[n + 1..];
      match token
      case ProfileToken(_) =>
      case CostToken(cost) => pass.ReadCost(cost);
      case CloseSelection => pass.ReadClose();
      case OpenSelection(header, selfClosing) => pass.ReadOpen(header, selfClosing);
    }
    reported := [];
    var all := pass.units;
    for n := 0 to |all|
      invariant reported == Filter(all[..n])
    {
      FilterAppend(all, n);
      if all[n].name != "" && all[n].modelCount > 0.0 { reported := reported + [all[n]]; }
    }
    assert all[..|all|] == all;
  }

  lemma {:induction false} FilterConcat(a: seq<Unit>, b: seq<Unit>)
    ensures Filter(a + b) == Filter(a) + Filter(b)
  {
    if a == [] {
      assert a + b == b;
    } else {
      assert (a + b)[1..] == a[1..] + b;
      FilterConcat(a[1..], b);
    }
  }

  lemma FilterAppend(units: seq<Unit>, n: nat)
    requires n < |units|
    ensures Filter(units[..n + 1]) == Filter(units[..n]) + (if Reported(units[n]) then [units[n]] else [])
  {
    assert units[..n + 1] == units[..n] + [units[n]];
    FilterConcat(units[..n], [units[n]]);
    assert [units[n]][1..] == [];
  }
}
