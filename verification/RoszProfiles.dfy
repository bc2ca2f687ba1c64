/**
  lib/rosterpilot/enriched-rosz.ts:281-352, `inspectEnrichedUnitProfileCoverage`: a second pass counts
  profiles per top-level unit, and unit `i` of the first pass is paired with count `i` of the second.
 */
module RoszProfiles {
  import opened Sequences
  import opened Wrappers
  import opened RoszSelections
  import opened RoszUnits

  datatype Counts = Counts(unitProfiles: nat, weaponProfiles: nat)

  function Plus(a: Counts, b: Counts): Counts {
    Counts(a.unitProfiles + b.unitProfiles, a.weaponProfiles + b.weaponProfiles)
  }

  function Counted(typeName: string): Counts {
    if typeName == "Unit" then Counts(1, 0)
    else if typeName == "Ranged Weapons" || typeName == "Melee Weapons" then Counts(0, 1)
    else Counts(0, 0)
  }

  // ---- What a tree holds ----

  function ProfilesIn(i: Item): Counts
    decreases i
  {
    match i
    case Profile(typeName) => Counted(typeName)
    case CostItem(_) => Counts(0, 0)
    case Selection(_, _, items) => Profiles(items)
  }

  function Profiles(items: seq<Item>): Counts
    decreases items
  {
    if items == [] then Counts(0, 0) else Plus(ProfilesIn(items[0]), Profiles(items[1..]))
  }

  predicate TopUnit(i: Item) { i.Selection? && UnitKind(i.header.kind) }

  /** The top-level units of a list of items. */
  function TopUnits(items: seq<Item>): seq<Item> {
    if items == [] then [] else (if TopUnit(items[0]) then [items[0]] else []) + TopUnits(items[1..])
  }

  function CoverageOf(items: seq<Item>): seq<Counts> {
    if items == [] then [] else (if TopUnit(items[0]) then [ProfilesIn(items[0])] else []) + CoverageOf(items[1..])
  }

  // ---- The pass ----

  /** The stack holds, for each open selection, the place its profiles are counted in. */
  datatype Pass = Pass(stack: seq<Option<nat>>, coverage: seq<Counts>)

  predicate Placed(p: Pass) { forall k :: 0 <= k < |p.stack| && p.stack[k].Some? ==> p.stack[k].value < |p.coverage| }

  function Root(p: Pass): Option<nat> { if p.stack == [] then None else p.stack[0] }

  function AddTo(p: Pass, counts: Counts): Pass
    requires Placed(p)
  {
    if Root(p).None? then p else p.(coverage := p.coverage[Root(p).value := Plus(p.coverage[Root(p).value], counts)])
  }

  function PassStep(p: Pass, t: Token): (r: Pass)
    requires Placed(p)
    ensures Placed(r)
  {
    match t
    case CostToken(_) => p
    case ProfileToken(typeName) => AddTo(p, Counted(typeName))
    case CloseSelection => if p.stack == [] then p else p.(stack := p.stack[..|p.stack| - 1])
    case OpenSelection(h, selfClosing) =>
      var isUnit := p.stack == [] && UnitKind(h.kind);
      var coverage := if isUnit then p.coverage + [Counts(0, 0)] else p.coverage;
      var index := if isUnit then Some(|p.coverage|) else Root(p);
      Pass(if selfClosing then p.stack else p.stack + [index], coverage)
  }

  function PassRun(p: Pass, tokens: seq<Token>): (r: Pass)
    requires Placed(p)
    ensures Placed(r)
    decreases |tokens|
  {
    if tokens == [] then p else PassRun(PassStep(p, tokens[0]), tokens[1..])
  }

  lemma PassOne(p: Pass, t: Token, rest: seq<Token>)
    requires Placed(p)
    ensures PassRun(p, [t] + rest) == PassRun(PassStep(p, t), rest)
  {
    hide PassStep;
    assert ([t] + rest)[1..] == rest;
  }

  // ---- Below a top-level item ----

  lemma AddTwice(p: Pass, a: Counts, b: Counts)
    requires Placed(p)
    ensures AddTo(AddTo(p, a), b) == AddTo(p, Plus(a, b)) && AddTo(p, a).stack == p.stack
  {}

  lemma AddNothing(p: Pass)
    requires Placed(p)
    ensures AddTo(p, Counts(0, 0)) == p
  {}

  lemma {:induction false} PassItem(p: Pass, i: Item, rest: seq<Token>)
    requires WellFormed(i) && Placed(p) && p.stack != []
    ensures PassRun(p, Flatten(i) + rest) == PassRun(AddTo(p, ProfilesIn(i)), rest)
    decreases i, 1
  {
    hide PassRun, AddTo;
    match i
    case Profile(typeName) => PassOne(p, ProfileToken(typeName), rest);
    case CostItem(c) =>
      AddNothing(p);
      PassOne(p, CostToken(c), rest);
    case Selection(h, selfClosing, items) => PassSelection(p, i, rest);
  }

  /** Any selection, once it is open, counts what is inside it at the root's place. */
  lemma {:induction false} PassSelection(p: Pass, i: Item, rest: seq<Token>)
    requires WellFormed(i) && Placed(p) && i.Selection? && p.stack != []
    ensures PassRun(p, Flatten(i) + rest) == PassRun(AddTo(p, ProfilesIn(i)), rest)
    decreases i, 0
  {
    if i.selfClosing {
      AddNothing(p);
      PassOne(p, OpenSelection(i.header, true), rest);
    } else {
      var up := p.(stack := p.stack + [Root(p)]);
      var tail := [CloseSelection] + rest;
      assert Flatten(i) + rest == [OpenSelection(i.header, false)] + (FlattenAll(i.items) + tail);
      PassOne(p, OpenSelection(i.header, false), FlattenAll(i.items) + tail);
      PassItems(up, i, i.items, tail);
      CloseAdds(p, Profiles(i.items));
      hide PassRun, AddTo;
      PassOne(AddTo(up, Profiles(i.items)), CloseSelection, rest);
    }
  }

  lemma CloseAdds(p: Pass, counts: Counts)
    requires Placed(p) && p.stack != []
    ensures var up := p.(stack := p.stack + [Root(p)]);
            Placed(up) && Placed(AddTo(up, counts)) && PassStep(AddTo(up, counts), CloseSelection) == AddTo(p, counts)
  {
    assert (p.stack + [Root(p)])[..|p.stack|] == p.stack;
  }

  lemma {:induction false} PassItems(p: Pass, parent: Item, items: seq<Item>, rest: seq<Token>)
    requires AllWellFormed(items) && Placed(p) && p.stack != [] && forall k :: 0 <= k < |items| ==> items[k] < parent
    ensures Placed(AddTo(p, Profiles(items)))
    ensures PassRun(p, FlattenAll(items) + rest) == PassRun(AddTo(p, Profiles(items)), rest)
    decreases parent, 0, |items|
  {
    if items == [] {
      AddNothing(p);
      assert FlattenAll(items) + rest == rest;
    } else {
      var first, others := items[0], items[1..];
      assert first < parent;
      assert FlattenAll(items) + rest == Flatten(first) + (FlattenAll(others) + rest);
      AddTwice(p, ProfilesIn(first), Profiles(others));
      assert Placed(AddTo(p, ProfilesIn(first)));
      hide PassRun, AddTo, Flatten, FlattenAll, WellFormed;
      PassItem(p, first, FlattenAll(others) + rest);
      PassItems(AddTo(p, ProfilesIn(first)), parent, others, rest);
    }
  }

  // ---- Top-level items ----

  /** The coverage after one more top-level item. */
  function Covered(coverage: seq<Counts>, i: Item): seq<Counts> {
    if TopUnit(i) then coverage + [ProfilesIn(i)] else coverage
  }

  lemma PassTop(p: Pass, i: Item, rest: seq<Token>)
    requires WellFormed(i) && p.stack == []
    ensures PassRun(p, Flatten(i) + rest) == PassRun(Pass([], Covered(p.coverage, i)), rest)
  {
    hide Counted, UnitKind;
    match i
    case CostItem(c) => PassOne(p, CostToken(c), rest);
    case Profile(typeName) => PassOne(p, ProfileToken(typeName), rest);
    case Selection(h, selfClosing, items) =>
      if selfClosing {
        assert Profiles([]) == Counts(0, 0);
        PassOne(p, OpenSelection(h, true), rest);
      } else {
        PassTopOpen(p, i, rest);
      }
  }

  lemma PassTopOpen(p: Pass, i: Item, rest: seq<Token>)
    requires WellFormed(i) && i.Selection? && !i.selfClosing && p.stack == []
    ensures PassRun(p, Flatten(i) + rest) == PassRun(Pass([], Covered(p.coverage, i)), rest)
  {
    var h, items := i.header, i.items;
    var tail := [CloseSelection] + rest;
    var up := PassStep(p, OpenSelection(h, false));
    assert Flatten(i) + rest == [OpenSelection(h, false)] + (FlattenAll(items) + tail);
    TopCloses(p, h, items);
    assert up.stack != [];
    hide PassRun, AddTo, PassStep, Flatten, FlattenAll, Profiles, UnitKind, Counted;
    PassOne(p, OpenSelection(h, false), FlattenAll(items) + tail);
    PassItems(up, i, items, tail);
    PassOne(AddTo(up, Profiles(items)), CloseSelection, rest);
  }

  lemma TopCloses(p: Pass, h: Header, items: seq<Item>)
    requires p.stack == []
    ensures var up := PassStep(p, OpenSelection(h, false));
            && Placed(AddTo(up, Profiles(items)))
            && PassStep(AddTo(up, Profiles(items)), CloseSelection) ==
                 Pass([], if UnitKind(h.kind) then p.coverage + [Profiles(items)] else p.coverage)
  {
    OpenTop(p, h);
    UnitCounts(p.coverage, Profiles(items));
    NothingCounts(p.coverage, Profiles(items));
    hide UnitKind, Profiles, Counted, AddTo, PassStep;
    if UnitKind(h.kind) {
      CloseOne(Some(|p.coverage|), p.coverage + [Profiles(items)]);
    } else {
      CloseOne(None, p.coverage);
    }
  }

  lemma OpenTop(p: Pass, h: Header)
    requires p.stack == []
    ensures PassStep(p, OpenSelection(h, false)) ==
              if UnitKind(h.kind) then Pass([Some(|p.coverage|)], p.coverage + [Counts(0, 0)])
              else Pass([None], p.coverage)
  {
    hide UnitKind;
  }

  lemma CloseOne(index: Option<nat>, coverage: seq<Counts>)
    requires Placed(Pass([index], coverage))
    ensures PassStep(Pass([index], coverage), CloseSelection) == Pass([], coverage)
  {
    assert [index][..0] == [];
  }

  lemma UnitCounts(coverage: seq<Counts>, counts: Counts)
    ensures var up := Pass([Some(|coverage|)], coverage + [Counts(0, 0)]);
            Placed(up) && AddTo(up, counts) == Pass([Some(|coverage|)], coverage + [counts]) &&
            Placed(AddTo(up, counts)) && up.stack[..0] == []
  {
    PlusNothing(counts);
    hide Plus;
    assert (coverage + [Counts(0, 0)])[|coverage| := counts] == coverage + [counts];
  }

  lemma NothingCounts(coverage: seq<Counts>, counts: Counts)
    ensures var up := Pass([None], coverage);
            Placed(up) && AddTo(up, counts) == up && up.stack[..0] == []
  {}

  lemma PlusNothing(counts: Counts)
    ensures Plus(Counts(0, 0), counts) == counts
  {}

  lemma {:induction false} PassForest(p: Pass, items: seq<Item>)
    requires AllWellFormed(items) && p.stack == []
    ensures PassRun(p, FlattenAll(items)) == Pass([], p.coverage + CoverageOf(items))
    decreases |items|
  {
    if items == [] {
      assert p.coverage + [] == p.coverage;
    } else {
      var first, others := items[0], items[1..];
      assert FlattenAll(items) == Flatten(first) + FlattenAll(others);
      PassTop(p, first, FlattenAll(others));
      CoverageCons(p.coverage, items);
      hide PassRun, Flatten, FlattenAll, WellFormed, Covered, CoverageOf;
      PassForest(Pass([], Covered(p.coverage, first)), others);
    }
  }

  lemma CoverageCons(coverage: seq<Counts>, items: seq<Item>)
    requires items != []
    ensures Covered(coverage, items[0]) + CoverageOf(items[1..]) == coverage + CoverageOf(items)
  {
    var one := if TopUnit(items[0]) then [ProfilesIn(items[0])] else [];
    assert CoverageOf(items) == one + CoverageOf(items[1..]);
    assert Covered(coverage, items[0]) == coverage + one;
    hide *;
    Associative(coverage, one, CoverageOf(items[1..]));
  }

  // ---- The loop ----

  class ProfilePass {
    var stack: seq<Option<nat>>
    var coverage: seq<Counts>

    constructor ()
      ensures Now() == Pass([], [])
    {
      stack, coverage := [], [];
    }

    ghost function Now(): Pass
      reads this
    {
      Pass(stack, coverage)
    }

    method Read(token: Token)
      requires Placed(Now())
      modifies this
      ensures Now() == PassStep(old(Now()), token)
    {
      match token
      case CostToken(_) =>
      case CloseSelection =>
        if stack != [] { stack := stack[..|stack| - 1]; }
      case OpenSelection(header, selfClosing) =>
        var coverageIndex := if stack == [] then None else stack[0];
        if stack == [] && (header.kind == "unit" || header.kind == "model") {
          coverageIndex := Some(|coverage|);
          coverage := coverage + [Counts(0, 0)];
        }
        stack := stack + [coverageIndex];
        if selfClosing { stack := stack[..|stack| - 1]; }
      case ProfileToken(typeName) =>
        if stack == [] || stack[0].None? { return; }
        var index := stack[0].value;
        if typeName == "Unit" {
          coverage := coverage[index := coverage[index].(unitProfiles := coverage[index].unitProfiles + 1)];
        } else if typeName == "Ranged Weapons" || typeName == "Melee Weapons" {
          coverage := coverage[index := coverage[index].(weaponProfiles := coverage[index].weaponProfiles + 1)];
        }
    }
  }

  datatype Report = Report(unit: Unit, counts: Counts, complete: bool)

  function At(coverage: seq<Counts>, i: nat): Counts { if i < |coverage| then coverage[i] else Counts(0, 0) }

  predicate Complete(c: Counts) { c.unitProfiles > 0 && c.weaponProfiles > 0 }

  /** `inspectEnrichedUnitProfileCoverage` on any tokens. */
  method InspectCoverage(key: string -> string, tokens: seq<Token>) returns (reports: seq<Report>)
    ensures var units := Filter(Run(key, INITIAL, tokens).units);
            var coverage := PassRun(Pass([], []), tokens).coverage;
            |reports| == |units| &&
            forall i :: 0 <= i < |units| ==> reports[i] == Report(units[i], At(coverage, i), Complete(At(coverage, i)))
  {
    hide PassStep, Run, Filter;
    var units := TopLevelUnits(key, tokens);
    var pass := new ProfilePass();
    for n := 0 to |tokens|
      invariant Placed(pass.Now()) && PassRun(Pass([], []), tokens) == PassRun(pass.Now(), tokens[n..])
    {
      assert tokens[n..][1..] == tokens[n + 1..];
      pass.Read(tokens[n]);
    }
    reports := [];
    for i := 0 to |units|
      invariant |reports| == i
      invariant forall j :: 0 <= j < i ==>
                  reports[j] == Report(units[j], At(pass.coverage, j), Complete(At(pass.coverage, j)))
    {
      var observed := if i < |pass.coverage| then pass.coverage[i] else Counts(0, 0);
      reports := reports + [Report(units[i], observed, observed.unitProfiles > 0 && observed.weaponProfiles > 0)];
    }
  }

  // ---- Is a unit paired with its own profiles? ----

  /** The places of the reported units among all units. */
  function ReportedAt(units: seq<Unit>): (places: seq<nat>)
    ensures forall r :: 0 <= r < |places| ==> places[r] < |units| && Reported(units[places[r]])
  {
    if units == [] then []
    else
      var n := |units| - 1;
      ReportedAt(units[..n]) + (if Reported(units[n]) then [n] else [])
  }

  /** Unit `r` of the report is the top-level unit whose profiles are count `r`. */
  ghost predicate Aligned(units: seq<Unit>) { forall r :: 0 <= r < |ReportedAt(units)| ==> ReportedAt(units)[r] == r }

  /** No unit without a name or a count comes before one that is reported. */
  ghost predicate NoGap(units: seq<Unit>) {
    forall i, j :: 0 <= i < j < |units| && Reported(units[j]) ==> Reported(units[i])
  }

  lemma {:induction false} FilterPlaces(units: seq<Unit>)
    ensures |Filter(units)| == |ReportedAt(units)|
    ensures forall r :: 0 <= r < |Filter(units)| ==> Filter(units)[r] == units[ReportedAt(units)[r]]
  {
    if units != [] {
      var n := |units| - 1;
      FilterPlaces(units[..n]);
      FilterAppend(units, n);
      assert units[..n + 1] == units;
    }
  }

  lemma {:induction false} AllReported(units: seq<Unit>)
    requires forall i :: 0 <= i < |units| ==> Reported(units[i])
    ensures |ReportedAt(units)| == |units| && forall r :: 0 <= r < |units| ==> ReportedAt(units)[r] == r
  {
    if units != [] { AllReported(units[..|units| - 1]); }
  }

  /** Every reported place is listed. */
  lemma {:induction false} PlaceListed(units: seq<Unit>, i: nat)
    requires i < |units| && Reported(units[i])
    ensures exists r :: 0 <= r < |ReportedAt(units)| && ReportedAt(units)[r] == i
  {
    var n := |units| - 1;
    if i < n {
      PlaceListed(units[..n], i);
      var r :| 0 <= r < |ReportedAt(units[..n])| && ReportedAt(units[..n])[r] == i;
      assert ReportedAt(units)[r] == i;
    } else {
      assert ReportedAt(units)[|ReportedAt(units[..n])|] == i;
    }
  }

  /** The pairing is right exactly when the units left out all come last. */
  lemma {:induction false} AlignedIff(units: seq<Unit>)
    ensures Aligned(units) <==> NoGap(units)
  {
    hide Reported;
    if Aligned(units) {
      forall i, j | 0 <= i < j < |units| && Reported(units[j]) ensures Reported(units[i]) {
        PlaceListed(units, j);
        var r :| 0 <= r < |ReportedAt(units)| && ReportedAt(units)[r] == j;
        assert ReportedAt(units)[i] == i;
      }
    }
    if NoGap(units) { NoGapAligned(units); }
  }

  lemma {:induction false} NoGapAligned(units: seq<Unit>)
    requires NoGap(units)
    ensures Aligned(units)
  {
    hide Reported;
    if units != [] {
      var n := |units| - 1;
      if Reported(units[n]) {
        AllReported(units);
      } else {
        NoGapAligned(units[..n]);
        assert ReportedAt(units) == ReportedAt(units[..n]);
      }
    }
  }

  lemma {:induction false} CoverageUnits(items: seq<Item>)
    ensures |CoverageOf(items)| == |TopUnits(items)|
    ensures forall r :: 0 <= r < |TopUnits(items)| ==>
              TopUnit(TopUnits(items)[r]) && CoverageOf(items)[r] == ProfilesIn(TopUnits(items)[r])
  {
    if items != [] { CoverageUnits(items[1..]); }
  }

  lemma {:induction false} TopUnitsAppend(items: seq<Item>, i: Item)
    ensures TopUnits(items + [i]) == TopUnits(items) + (if TopUnit(i) then [i] else [])
    decreases |items|
  {
    hide TopUnit;
    var one := if TopUnit(i) then [i] else [];
    if items == [] {
      assert items + [i] == [i] && [i][1..] == [];
      assert TopUnits([i]) == one + TopUnits([i][1..]);
    } else {
      var all, first := items + [i], if TopUnit(items[0]) then [items[0]] else [];
      assert all[0] == items[0] && all[1..] == items[1..] + [i];
      assert TopUnits(all) == first + TopUnits(all[1..]) && TopUnits(items) == first + TopUnits(items[1..]);
      hide *;
      TopUnitsAppend(items[1..], i);
      Associative(first, TopUnits(items[1..]), one);
    }
  }

  lemma {:induction false} UnitsTop(key: string -> string, items: seq<Item>)
    ensures |UnitsOf(key, items)| == |TopUnits(items)|
    ensures forall r :: 0 <= r < |TopUnits(items)| ==>
              TopUnits(items)[r].Selection? && FromItem(UnitsOf(key, items)[r], TopUnits(items)[r])
  {
    if items != [] {
      var n := |items| - 1;
      UnitsTop(key, items[..n]);
      assert items == items[..n] + [items[n]];
      TopUnitsAppend(items[..n], items[n]);
      UnitsLast(key, items);
      hide UnitsOf, TopUnits, FromItem, TopUnit;
      var before, tops := UnitsOf(key, items[..n]), TopUnits(items[..n]);
      forall r | 0 <= r < |TopUnits(items)|
        ensures TopUnits(items)[r].Selection? && FromItem(UnitsOf(key, items)[r], TopUnits(items)[r]) {
        if r < |tops| { assert TopUnits(items)[r] == tops[r] && UnitsOf(key, items)[r] == before[r]; }
      }
    }
  }

  lemma UnitsLast(key: string -> string, items: seq<Item>)
    requires items != []
    ensures var i, before := items[|items| - 1], UnitsOf(key, items[..|items| - 1]);
            if TopUnit(i) then |UnitsOf(key, items)| == |before| + 1 && UnitsOf(key, items)[..|before|] == before
                               && i.Selection? && FromItem(UnitsOf(key, items)[|before|], i)
            else UnitsOf(key, items) == before
  {
    hide Models, Upgrades, Direct, Children, ModelCount, Same, UnitKind;
  }

  /** A unit read off an item. */
  predicate FromItem(u: Unit, i: Item)
    requires i.Selection?
  {
    u == UnitOf(i.header, i.items, u.ordinal)
  }

  /**
    On well-nested tokens whose unnamed or empty units, if any, all come last, every reported unit is
    paired with the profiles inside its own top-level selection.
   */
  lemma OwnProfiles(key: string -> string, items: seq<Item>, r: nat)
    requires AllWellFormed(items) && NoGap(UnitsOf(key, items))
    requires r < |Filter(Run(key, INITIAL, FlattenAll(items)).units)|
    ensures r < |TopUnits(items)| && TopUnits(items)[r].Selection?
    ensures FromItem(Filter(Run(key, INITIAL, FlattenAll(items)).units)[r], TopUnits(items)[r])
    ensures At(PassRun(Pass([], []), FlattenAll(items)).coverage, r) == ProfilesIn(TopUnits(items)[r])
  {
    UnitsOfForest(key, items);
    PassForest(Pass([], []), items);
    assert [] + CoverageOf(items) == CoverageOf(items);
    hide Run, PassRun, FlattenAll, Reported, ProfilesIn, FromItem;
    AlignedIff(UnitsOf(key, items));
    FilterPlaces(UnitsOf(key, items));
    CoverageUnits(items);
    UnitsTop(key, items);
    assert ReportedAt(UnitsOf(key, items))[r] == r;
  }

  // ---- When the pairing slips ----

  function SlipItems(): seq<Item> {
    [Selection(Header("", "", "unit", 1.0), false, []),
     Selection(Header("", "Boyz", "unit", 1.0), false, [Profile("Unit"), Profile("Melee Weapons")])]
  }

  /** An unnamed first unit shifts the profiles: the complete second unit is reported with none. */
  lemma UnnamedUnitShifts(key: string -> string)
    ensures AllWellFormed(SlipItems())
    ensures var units := Filter(Run(key, INITIAL, FlattenAll(SlipItems())).units);
            var coverage := PassRun(Pass([], []), FlattenAll(SlipItems())).coverage;
            |units| == 1 && units[0].name == "Boyz" && !Complete(At(coverage, 0)) &&
            Complete(ProfilesIn(SlipItems()[1]))
  {
    var items := SlipItems();
    UnitsOfForest(key, items);
    PassForest(Pass([], []), items);
    hide Run, PassRun, FlattenAll;
    SlipUnits(key);
    SlipCoverage();
  }

  lemma SlipUnits(key: string -> string)
    ensures |Filter(UnitsOf(key, SlipItems()))| == 1 && Filter(UnitsOf(key, SlipItems()))[0].name == "Boyz"
  {
    var items := SlipItems();
    UnitsTop(key, items);
    assert items[1..][1..] == [] && TopUnits(items[1..]) == [items[1]] + TopUnits([]);
    assert TopUnits(items) == [items[0]] + TopUnits(items[1..]);
    hide UnitsOf;
    var units := UnitsOf(key, items);
    assert |units| == 2 && FromItem(units[0], items[0]) && FromItem(units[1], items[1]);
    NotEmpty(units);
  }

  lemma NotEmpty(units: seq<Unit>)
    requires |units| == 2 && !Reported(units[0]) && Reported(units[1])
    ensures Filter(units) == [units[1]]
  {
    hide Reported;
    var tail := units[1..];
    assert tail[0] == units[1] && tail[1..] == [];
    assert Filter(tail) == [units[1]] + Filter(tail[1..]);
    assert Filter(units) == [] + Filter(tail);
  }

  lemma SlipCoverage()
    ensures !Complete(At([] + CoverageOf(SlipItems()), 0)) && Complete(ProfilesIn(SlipItems()[1]))
  {
    var items := SlipItems();
    assert Profiles([]) == Counts(0, 0) && ProfilesIn(items[0]) == Counts(0, 0);
    assert CoverageOf(items)[0] == ProfilesIn(items[0]);
    SlipInside(items[1].items);
  }

  lemma SlipInside(inside: seq<Item>)
    requires inside == [Profile("Unit"), Profile("Melee Weapons")]
    ensures Profiles(inside) == Counts(1, 1)
  {
    KnownProfiles();
    ProfilesCons("Melee Weapons", []);
    ProfilesCons("Unit", [Profile("Melee Weapons")]);
    hide *;
    assert [Profile("Melee Weapons")] + [] == [Profile("Melee Weapons")];
    assert inside == [Profile("Unit")] + [Profile("Melee Weapons")];
    PlusKnown(Counted("Unit"), Counted("Melee Weapons"), Profiles([]));
  }

  lemma ProfilesCons(typeName: string, rest: seq<Item>)
    ensures Profiles([Profile(typeName)] + rest) == Plus(Counted(typeName), Profiles(rest))
    ensures Profiles([]) == Counts(0, 0)
  {
    hide Counted;
    assert ([Profile(typeName)] + rest)[1..] == rest;
  }

  lemma PlusKnown(a: Counts, b: Counts, none: Counts)
    requires a == Counts(1, 0) && b == Counts(0, 1) && none == Counts(0, 0)
    ensures Plus(a, Plus(b, none)) == Counts(1, 1)
  {}

  lemma KnownProfiles()
    ensures Counted("Unit") == Counts(1, 0) && Counted("Melee Weapons") == Counts(0, 1)
  {
    assert |"Unit"| != |"Melee Weapons"|;
  }
}
