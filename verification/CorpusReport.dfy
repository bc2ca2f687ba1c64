/**
  lib/rosterpilot/combat-corpus-conformance.ts:46-72, 850-1008 and 1183-1573: the reviewed overlay, the
  conformance report, and what their schemas ask across fields.
 */
module CorpusReport {
  import opened Sequences
  import opened Wrappers
  import opened Ordering
  import opened SourceInventory
  import opened InventoryValidity
  import opened InventoryValidator

  datatype RulesPhase = Command | Movement | Shooting | Charge | Fight

  datatype BundleBinding = BundleBinding(bundleId: Digest, engineDataSchemaVersion: int, rulesSemanticSha256: Digest)

  datatype Component = Component(id: string, version: string, contentSha256: Digest)

  /** What a report says it was made with. */
  datatype Runtime = Runtime(bundle: BundleBinding, community: Component, compiler: Component, adapter: Component,
                             engine: Component)

  datatype CorpusInventory = CorpusInventory(bundle: BundleBinding, body: Inventory, inventorySha256: Digest)

  // ---- The overlay ----

  datatype SourceBinding = SourceBinding(sourceId: string, entitySha256: Digest, jsonPointer: string,
                                         fragmentSha256: Digest)

  datatype Scope = InScope | OutOfScope | NotInQuestion

  /** `evidence` is who reviewed the entry, when and why. */
  datatype OverlayEntry =
    | PhaseMapping(entryId: string, source: SourceBinding, evidence: string, phases: seq<RulesPhase>)
    | AbilityBinding(entryId: string, source: SourceBinding, evidence: string, subject: string,
                     abilityIds: seq<string>)
    | CalculatorScope(entryId: string, source: SourceBinding, evidence: string, scope: Scope)

  datatype Overlay = Overlay(bundle: BundleBinding, sourceInventorySha256: Digest, entries: seq<OverlayEntry>,
                             overlaySha256: Digest)

  function EntryKey(): OverlayEntry -> string { (e: OverlayEntry) => e.entryId }

  predicate IsSingleton(e: OverlayEntry) { e.PhaseMapping? || e.CalculatorScope? }

  function SingletonKey(): OverlayEntry -> string {
    (e: OverlayEntry) => (if e.PhaseMapping? then "phase-mapping" else "calculator-scope")
                         + "\0" + e.source.sourceId + "\0" + e.source.jsonPointer
  }

  function Singletons(entries: seq<OverlayEntry>): seq<OverlayEntry> {
    if entries == [] then []
    else
      var n := |entries| - 1;
      Singletons(entries[..n]) + (if IsSingleton(entries[n]) then [entries[n]] else [])
  }

  ghost predicate EntrySchema(e: OverlayEntry) {
    match e
    case PhaseMapping(_, _, _, phases) => phases != [] && NoRepeats(phases)
    case AbilityBinding(_, _, _, _, abilityIds) => abilityIds != [] && NoRepeats(abilityIds)
    case CalculatorScope(_, _, _, _) => true
  }

  /** `CombatSemanticsOverlayV1Schema`. */
  ghost predicate OverlaySchema(o: Overlay) {
    && (forall e :: e in o.entries ==> EntrySchema(e))
    && DistinctKeys(EntryKey(), o.entries)
    && OncePerPlace(o.entries)
  }

  ghost predicate OncePerPlace(entries: seq<OverlayEntry>) {
    forall i, j :: 0 <= i < j < |entries| ==> !SamePlace(entries[i], entries[j])
  }

  /** Two phase mappings, or two scope entries, whose sources and pointers join to the same text. */
  ghost predicate SamePlace(a: OverlayEntry, b: OverlayEntry) {
    && ((a.PhaseMapping? && b.PhaseMapping?) || (a.CalculatorScope? && b.CalculatorScope?))
    && a.source.sourceId + "\0" + a.source.jsonPointer == b.source.sourceId + "\0" + b.source.jsonPointer
  }

  lemma SamePlaceIff(a: OverlayEntry, b: OverlayEntry)
    requires IsSingleton(a) && IsSingleton(b)
    ensures SingletonKey()(a) == SingletonKey()(b) <==> SamePlace(a, b)
  {
    var x, y := if a.PhaseMapping? then "phase-mapping" else "calculator-scope",
                if b.PhaseMapping? then "phase-mapping" else "calculator-scope";
    var s, t := a.source.sourceId + "\0" + a.source.jsonPointer, b.source.sourceId + "\0" + b.source.jsonPointer;
    assert SingletonKey()(a) == x + "\0" + s && SingletonKey()(b) == y + "\0" + t by {
      JoinKind(x, a.source.sourceId, a.source.jsonPointer);
      JoinKind(y, b.source.sourceId, b.source.jsonPointer);
    }
    assert (x + "\0" + s)[0] == x[0] && (y + "\0" + t)[0] == y[0];
    assert (x + "\0" + s)[|x| + 1..] == s && (y + "\0" + t)[|y| + 1..] == t;
  }

  lemma JoinKind(kind: string, sourceId: string, pointer: string)
    ensures kind + "\0" + sourceId + "\0" + pointer == kind + "\0" + (sourceId + "\0" + pointer)
  {}

  lemma {:induction false} OncePerPlaceIff(entries: seq<OverlayEntry>)
    ensures OncePerPlace(entries) <==> DistinctKeys(SingletonKey(), Singletons(entries))
    ensures forall e :: e in Singletons(entries) <==> e in entries && IsSingleton(e)
  {
    hide SingletonKey;
    if entries != [] {
      var n := |entries| - 1;
      var before, last := entries[..n], entries[n];
      assert entries == before + [last];
      OncePerPlaceIff(before);
      hide Singletons, DistinctKeys;
      LastSingleton(entries);
      hide SamePlace, IsSingleton, OncePerPlace;
      OnceMore(before, last);
      if IsSingleton(last) {
        DistinctKeysAppend(SingletonKey(), Singletons(before), last);
        forall e | e in before && IsSingleton(e)
          ensures SingletonKey()(e) == SingletonKey()(last) <==> SamePlace(e, last) {
          SamePlaceIff(e, last);
        }
        assert (forall e :: e in Singletons(before) ==> SingletonKey()(e) != SingletonKey()(last)) <==>
          forall e :: e in before && IsSingleton(e) ==> !SamePlace(e, last);
      } else {
        assert Singletons(before) + [] == Singletons(before);
      }
    }
  }

  lemma LastSingleton(entries: seq<OverlayEntry>)
    requires entries != []
    ensures var n := |entries| - 1;
            Singletons(entries) == Singletons(entries[..n]) + (if IsSingleton(entries[n]) then [entries[n]] else [])
  {}

  lemma OnceMore(before: seq<OverlayEntry>, last: OverlayEntry)
    ensures OncePerPlace(before + [last]) <==>
            OncePerPlace(before) &&
            forall e :: e in before && IsSingleton(e) && IsSingleton(last) ==> !SamePlace(e, last)
  {
    var all := before + [last];
    if OncePerPlace(all) {
      forall i, j | 0 <= i < j < |before| ensures !SamePlace(before[i], before[j]) {
        assert !SamePlace(all[i], all[j]);
      }
      forall e | e in before ensures !SamePlace(e, last) {
        var i :| 0 <= i < |before| && before[i] == e;
        assert !SamePlace(all[i], all[|before|]);
      }
    }
    if OncePerPlace(before) && forall e :: e in before && IsSingleton(e) && IsSingleton(last) ==> !SamePlace(e, last) {
      forall i, j | 0 <= i < j < |all| ensures !SamePlace(all[i], all[j]) {
        if j == |before| { assert before[i] in before; }
      }
    }
  }

  method CheckEntry(e: OverlayEntry) returns (ok: bool)
    ensures ok <==> EntrySchema(e)
  {
    match e {
      case PhaseMapping(_, _, _, phases) =>
        var unique := Unique(phases);
        ok := phases != [] && unique;
      case AbilityBinding(_, _, _, _, abilityIds) =>
        var unique := Unique(abilityIds);
        ok := abilityIds != [] && unique;
      case CalculatorScope(_, _, _, _) =>
        ok := true;
    }
  }

  method CheckOverlay(o: Overlay) returns (ok: bool)
    ensures ok <==> OverlaySchema(o)
  {
    hide DistinctKeys, EntrySchema, Singletons, EntryKey, SingletonKey, OncePerPlace;
    OncePerPlaceIff(o.entries);
    ok := true;
    for i := 0 to |o.entries|
      invariant ok <==> forall e :: e in o.entries[..i] ==> EntrySchema(e)
    {
      assert o.entries[..i + 1] == o.entries[..i] + [o.entries[i]];
      var fine := CheckEntry(o.entries[i]);
      ok := ok && fine;
    }
    assert o.entries[..|o.entries|] == o.entries;
    var distinct := UniqueKeys(EntryKey(), o.entries);
    var once := UniqueKeys(SingletonKey(), Singletons(o.entries));
    ok := ok && distinct && once;
  }

  // ---- Accounts of leaves ----

  datatype Grounds = CommunityMapping | StructuredTrigger | AttackSemantics

  datatype Evidence =
    | InSource(grounds: Grounds, phases: seq<RulesPhase>, jsonPointer: string, fragmentSha256: Digest)
    | Reviewed(phases: seq<RulesPhase>, overlayEntryId: string)
    | NotRequired(reason: string)
    | Unresolved(reason: string)

  datatype Disposition =
    | Calculated(mechanicIds: seq<string>)
    | StateRequired(mechanicIds: seq<string>, reason: string)
    | OutOfCalculator(overlayEntryId: string, reason: string)
    | NotRelevant(reason: string, reviewEntryId: Option<string>)
    | Unsupported(reason: string)

  datatype LeafAccount = LeafAccount(leafId: Digest, evidence: Evidence, stateKeys: seq<string>,
                                     disposition: Disposition)

  function AccountKey(): LeafAccount -> string { (a: LeafAccount) => a.leafId }

  /** `"phases" in account.phaseEvidence`. */
  predicate HasPhases(e: Evidence) { e.InSource? || e.Reviewed? }

  /** The leaves the calculator models, at once or once a state is chosen. */
  predicate Combat(d: Disposition) { d.Calculated? || d.StateRequired? }

  ghost predicate AccountSchema(a: LeafAccount) {
    && NoRepeats(a.stateKeys)
    && (a.disposition.StateRequired? <==> a.stateKeys != [])
    && (a.evidence.Unresolved? ==> a.disposition.Unsupported?)
    && (a.evidence.NotRequired? ==> a.disposition.OutOfCalculator? || a.disposition.NotRelevant?)
    && (HasPhases(a.evidence) ==> a.evidence.phases != [] && NoRepeats(a.evidence.phases))
    && (Combat(a.disposition) ==> a.disposition.mechanicIds != [] && NoRepeats(a.disposition.mechanicIds))
  }

  method CheckAccount(a: LeafAccount) returns (ok: bool)
    ensures ok <==> AccountSchema(a)
  {
    ok := Unique(a.stateKeys);
    if a.evidence.InSource? || a.evidence.Reviewed? {
      var unique := Unique(a.evidence.phases);
      ok := ok && a.evidence.phases != [] && unique;
    }
    if a.disposition.Calculated? || a.disposition.StateRequired? {
      var unique := Unique(a.disposition.mechanicIds);
      ok := ok && a.disposition.mechanicIds != [] && unique;
    }
    if if a.disposition.StateRequired? then a.stateKeys == [] else a.stateKeys != [] { ok := false; }
    if a.evidence.Unresolved? && !a.disposition.Unsupported? { ok := false; }
    if a.evidence.NotRequired? && !a.disposition.OutOfCalculator? && !a.disposition.NotRelevant? { ok := false; }
  }

  // ---- The report ----

  datatype Kind = CalculatedKind | StateRequiredKind | OutOfCalculatorKind | NotRelevantKind | UnsupportedKind

  function KindOf(d: Disposition): Kind {
    match d
    case Calculated(_) => CalculatedKind
    case StateRequired(_, _) => StateRequiredKind
    case OutOfCalculator(_, _) => OutOfCalculatorKind
    case NotRelevant(_, _) => NotRelevantKind
    case Unsupported(_) => UnsupportedKind
  }

  function CountKind(accounts: seq<LeafAccount>, kind: Kind): nat {
    if accounts == [] then 0
    else
      var n := |accounts| - 1;
      CountKind(accounts[..n], kind) + if KindOf(accounts[n].disposition) == kind then 1 else 0
  }

  datatype Summary = Summary(sources: int, fragments: int, leaves: int, accounted: int, calculated: int,
                             stateRequired: int, outOfCalculator: int, notRelevant: int, unsupported: int,
                             traversalIssues: int)

  datatype Report = Report(runtime: Runtime, sourceInventorySha256: Digest, overlaySha256: Digest,
                           inventory: CorpusInventory, supportedStateKeys: seq<string>,
                           accounts: seq<LeafAccount>, summary: Summary, reportSha256: Digest)

  function ExpectedSummary(r: Report): Summary {
    var inv, accounts := r.inventory.body, r.accounts;
    Summary(|inv.sources|, |inv.fragments|, |inv.leaves|, |accounts|, CountKind(accounts, CalculatedKind),
            CountKind(accounts, StateRequiredKind), CountKind(accounts, OutOfCalculatorKind),
            CountKind(accounts, NotRelevantKind), CountKind(accounts, UnsupportedKind), |inv.issues|)
  }

  ghost predicate InventorySchema(i: CorpusInventory) {
    && i.body.sources != [] && i.body.fragments != [] && i.body.leaves != []
    && ValidInventory(i.body)
  }

  /** The accounts are those of the inventory's leaves, one each. */
  ghost predicate AccountsExact(inv: Inventory, accounts: seq<LeafAccount>) {
    && DistinctKeys(AccountKey(), accounts)
    && (forall l :: l in inv.leaves ==> exists a :: a in accounts && a.leafId == l.leafId)
    && (forall a :: a in accounts ==> exists l :: l in inv.leaves && l.leafId == a.leafId)
  }

  ghost predicate AccountFits(a: LeafAccount, supported: seq<string>) {
    AccountSchema(a) && forall k :: k in a.stateKeys ==> k in supported
  }

  /** `CombatCorpusConformanceReportV1Schema`. */
  ghost predicate ReportSchema(r: Report) {
    && InventorySchema(r.inventory)
    && NoRepeats(r.supportedStateKeys)
    && AccountsExact(r.inventory.body, r.accounts)
    && (forall a :: a in r.accounts ==> AccountFits(a, r.supportedStateKeys))
    && r.sourceInventorySha256 == r.inventory.inventorySha256 && r.runtime.bundle == r.inventory.bundle
    && r.summary == ExpectedSummary(r)
  }

  /** `dispositionCounts` within `expectedSummary`. */
  method MakeSummary(r: Report) returns (summary: Summary)
    ensures summary == ExpectedSummary(r)
  {
    var calculated, stateRequired, outOfCalculator, notRelevant, unsupported := 0, 0, 0, 0, 0;
    for i := 0 to |r.accounts|
      invariant calculated == CountKind(r.accounts[..i], CalculatedKind)
      invariant stateRequired == CountKind(r.accounts[..i], StateRequiredKind)
      invariant outOfCalculator == CountKind(r.accounts[..i], OutOfCalculatorKind)
      invariant notRelevant == CountKind(r.accounts[..i], NotRelevantKind)
      invariant unsupported == CountKind(r.accounts[..i], UnsupportedKind)
    {
      assert r.accounts[..i + 1][..i] == r.accounts[..i];
      match r.accounts[i].disposition {
        case Calculated(_) => calculated := calculated + 1;
        case StateRequired(_, _) => stateRequired := stateRequired + 1;
        case OutOfCalculator(_, _) => outOfCalculator := outOfCalculator + 1;
        case NotRelevant(_, _) => notRelevant := notRelevant + 1;
        case Unsupported(_) => unsupported := unsupported + 1;
      }
    }
    assert r.accounts[..|r.accounts|] == r.accounts;
    var inv := r.inventory.body;
    summary := Summary(|inv.sources|, |inv.fragments|, |inv.leaves|, |r.accounts|, calculated, stateRequired,
                       outOfCalculator, notRelevant, unsupported, |inv.issues|);
  }

  method CheckFits(a: LeafAccount, supported: seq<string>) returns (ok: bool)
    ensures ok <==> AccountFits(a, supported)
  {
    hide AccountSchema;
    var fine := CheckAccount(a);
    var known := true;
    for k := 0 to |a.stateKeys|
      invariant known <==> forall key :: key in a.stateKeys[..k] ==> key in supported
    {
      assert a.stateKeys[..k + 1] == a.stateKeys[..k] + [a.stateKeys[k]];
      if a.stateKeys[k] !in supported { known := false; }
    }
    assert a.stateKeys[..|a.stateKeys|] == a.stateKeys;
    ok := fine && known;
  }

  method CheckAccounts(r: Report) returns (ok: bool)
    ensures ok <==> forall a :: a in r.accounts ==> AccountFits(a, r.supportedStateKeys)
  {
    hide AccountFits;
    ok := true;
    for i := 0 to |r.accounts|
      invariant ok <==> forall a :: a in r.accounts[..i] ==> AccountFits(a, r.supportedStateKeys)
    {
      assert r.accounts[..i + 1] == r.accounts[..i] + [r.accounts[i]];
      var fits := CheckFits(r.accounts[i], r.supportedStateKeys);
      ok := ok && fits;
    }
    assert r.accounts[..|r.accounts|] == r.accounts;
  }

  method CheckExact(inv: Inventory, accounts: seq<LeafAccount>) returns (ok: bool)
    ensures ok <==> AccountsExact(inv, accounts)
  {
    hide DistinctKeys;
    var distinct := UniqueKeys(AccountKey(), accounts);
    var leafIds := set l | l in inv.leaves :: l.leafId;
    var accountedIds := set a | a in accounts :: a.leafId;
    var missing, extra := leafIds - accountedIds, accountedIds - leafIds;
    ok := distinct && missing == {} && extra == {};
    if missing == {} {
      forall l | l in inv.leaves ensures exists a :: a in accounts && a.leafId == l.leafId {
        assert l.leafId in leafIds && l.leafId !in missing;
      }
    }
    if extra == {} {
      forall a | a in accounts ensures exists l :: l in inv.leaves && l.leafId == a.leafId {
        assert a.leafId in accountedIds && a.leafId !in extra;
      }
    }
  }

  method CheckInventory(i: CorpusInventory) returns (ok: bool)
    ensures ok <==> InventorySchema(i)
  {
    ok := Validate(i.body);
    ok := ok && i.body.sources != [] && i.body.fragments != [] && i.body.leaves != [];
  }

  method CheckReport(r: Report) returns (ok: bool)
    ensures ok <==> ReportSchema(r)
  {
    hide InventorySchema, AccountFits, AccountsExact, ExpectedSummary;
    ok := CheckInventory(r.inventory);
    var keys := Unique(r.supportedStateKeys);
    var accounts := CheckAccounts(r);
    var exact := CheckExact(r.inventory.body, r.accounts);
    var summary := MakeSummary(r);
    ok := ok && keys && accounts && exact && summary == r.summary
          && r.sourceInventorySha256 == r.inventory.inventorySha256 && r.runtime.bundle == r.inventory.bundle;
  }
}
