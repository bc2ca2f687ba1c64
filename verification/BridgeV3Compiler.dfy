/**
  lib/rosterpilot/combat-bridge-v3.ts:210-229, 441-591, 640-729 and 754-849: compiling an exact bridge.
  Every rule must be bound to a current corpus source, and the v2 bridge underneath must be exact.
 */
module BridgeV3Compiler {
  import opened Sequences
  import opened Wrappers
  import opened Ordering
  import opened CombatTypes
  import opened BridgeTypes
  import opened BridgeHash
  import opened BridgeV3Hash
  import CellCompiler
  import CellCoverage
  import BridgeCompiler
  import CorpusAdmission
  import CorpusReport
  import InventoryValidator
  import InventoryValidity
  import SourceInventory

  datatype RuleV3 = RuleV3(abilityId: string, corpusSourceId: string, entityHash: Digest, effect: string,
                           source: string)

  datatype VariantV3 = VariantV3(planId: string, attackerRules: seq<RuleV3>, targetRules: seq<RuleV3>)

  datatype CellV3 = CellV3(cellId: string, phase: Phase, ruleVariants: seq<VariantV3>)

  type CorpusLeaf = SourceInventory.SourceLeaf

  type Account = CorpusReport.LeafAccount

  /** The parts of an admitted corpus report that compiling reads, as the maps it makes of them. */
  datatype Corpus = Corpus(sources: map<string, SourceInventory.Source>, leaves: seq<CorpusLeaf>,
                           accounts: map<Digest, Account>, reportSha256: Digest, sourceInventorySha256: Digest,
                           overlaySha256: Digest)

  function CorpusOf(r: CorpusReport.Report, o: CorpusReport.Overlay): Corpus {
    Corpus(CorpusAdmission.MapBy(InventoryValidity.SourceKey(), r.inventory.body.sources), r.inventory.body.leaves,
           CorpusAdmission.MapBy(CorpusReport.AccountKey(), r.accounts), r.reportSha256, r.inventory.inventorySha256,
           o.overlaySha256)
  }

  datatype RuleIssue = SourceUnbound | EntityStale | EffectStale

  // ---- Rule bindings ----

  function BindingOf(d: Digests, cell: CellV3, v: VariantV3, perspective: string, rule: RuleV3): RuleBinding {
    RuleBinding(cell.cellId, v.planId, perspective, rule.abilityId, rule.corpusSourceId, rule.entityHash,
                d.v3(EffectPre(rule.effect)), d.v3(SourcePre(rule.source)))
  }

  /** Where a rule stands: its cell, variant and side. */
  datatype Place = Place(cell: CellV3, variant: VariantV3, perspective: string, rule: RuleV3)

  function RulePlaces(cell: CellV3, v: VariantV3, perspective: string, rules: seq<RuleV3>): seq<Place> {
    seq(|rules|, i requires 0 <= i < |rules| => Place(cell, v, perspective, rules[i]))
  }

  function VariantPlaces(cell: CellV3, v: VariantV3): seq<Place> {
    RulePlaces(cell, v, "attacker", v.attackerRules) + RulePlaces(cell, v, "target", v.targetRules)
  }

  function CellPlaces(cell: CellV3, variants: seq<VariantV3>): seq<Place> {
    if variants == [] then []
    else CellPlaces(cell, variants[..|variants| - 1]) + VariantPlaces(cell, variants[|variants| - 1])
  }

  /** Every rule of the input, in the order the loops take them. */
  function Places(cells: seq<CellV3>): seq<Place> {
    if cells == [] then []
    else Places(cells[..|cells| - 1]) + CellPlaces(cells[|cells| - 1], cells[|cells| - 1].ruleVariants)
  }

  function BindingAt(d: Digests, p: Place): RuleBinding { BindingOf(d, p.cell, p.variant, p.perspective, p.rule) }

  function IssuesAt(d: Digests, c: Corpus, p: Place): seq<RuleIssue> {
    if p.rule.corpusSourceId !in c.sources then [SourceUnbound]
    else
      (if p.rule.entityHash != c.sources[p.rule.corpusSourceId].entitySha256 then [EntityStale] else [])
      + (if d.v3(EffectPre(p.rule.effect)) != c.sources[p.rule.corpusSourceId].effectSha256 then [EffectStale] else [])
  }

  /** A rule that names a current source, with the source's own entity and effect. */
  predicate BoundRule(d: Digests, c: Corpus, rule: RuleV3) {
    && rule.corpusSourceId in c.sources
    && rule.entityHash == c.sources[rule.corpusSourceId].entitySha256
    && d.v3(EffectPre(rule.effect)) == c.sources[rule.corpusSourceId].effectSha256
  }

  function Bindings(d: Digests, c: Corpus, places: seq<Place>): seq<RuleBinding> {
    if places == [] then []
    else
      var n := |places| - 1;
      Bindings(d, c, places[..n]) +
      (if places[n].rule.corpusSourceId in c.sources then [BindingAt(d, places[n])] else [])
  }

  function Issues(d: Digests, c: Corpus, places: seq<Place>): seq<RuleIssue> {
    if places == [] then [] else Issues(d, c, places[..|places| - 1]) + IssuesAt(d, c, places[|places| - 1])
  }

  /** The lists `bindings` and `issues`, and the loops that push to them. */
  class BindingLists {
    const d: Digests
    const corpus: Corpus
    var bindings: seq<RuleBinding>
    var issues: seq<RuleIssue>

    constructor (d: Digests, corpus: Corpus)
      ensures this.d == d && this.corpus == corpus && Holds([])
    {
      this.d, this.corpus := d, corpus;
      bindings, issues := [], [];
    }

    ghost predicate Holds(places: seq<Place>)
      reads this
    {
      bindings == Bindings(d, corpus, places) && issues == Issues(d, corpus, places)
    }

    method AddRule(cell: CellV3, v: VariantV3, perspective: string, rule: RuleV3, ghost before: seq<Place>)
      requires Holds(before)
      modifies this
      ensures Holds(before + [Place(cell, v, perspective, rule)])
    {
      PlacesAppend(d, corpus, before, Place(cell, v, perspective, rule));
      hide BindingOf, Bindings, Issues;
      if rule.corpusSourceId !in corpus.sources {
        issues := issues + [SourceUnbound];
        return;
      }
      var source := corpus.sources[rule.corpusSourceId];
      ghost var was := issues;
      if rule.entityHash != source.entitySha256 { issues := issues + [EntityStale]; }
      if d.v3(EffectPre(rule.effect)) != source.effectSha256 { issues := issues + [EffectStale]; }
      assert issues == was + IssuesAt(d, corpus, Place(cell, v, perspective, rule));
      bindings := bindings + [BindingOf(d, cell, v, perspective, rule)];
    }

    method AddRules(cell: CellV3, v: VariantV3, perspective: string, rules: seq<RuleV3>, ghost before: seq<Place>)
      requires Holds(before)
      modifies this
      ensures Holds(before + RulePlaces(cell, v, perspective, rules))
    {
      hide Holds, RulePlaces, Bindings, Issues;
      ghost var places := RulePlaces(cell, v, perspective, rules);
      PlacesOfRules(cell, v, perspective, rules);
      assert before + places[..0] == before;
      for i := 0 to |rules|
        invariant Holds(before + places[..i])
      {
        AddRule(cell, v, perspective, rules[i], before + places[..i]);
        assert before + places[..i + 1] == before + places[..i] + [places[i]];
      }
      assert places[..|places|] == places;
    }

    method AddCell(cell: CellV3, ghost before: seq<Place>)
      requires Holds(before)
      modifies this
      ensures Holds(before + CellPlaces(cell, cell.ruleVariants))
    {
      hide Holds, RulePlaces;
      var variants := cell.ruleVariants;
      assert before + CellPlaces(cell, variants[..0]) == before;
      for i := 0 to |variants|
        invariant Holds(before + CellPlaces(cell, variants[..i]))
      {
        var v := variants[i];
        ghost var placed := before + CellPlaces(cell, variants[..i]);
        AddRules(cell, v, "attacker", v.attackerRules, placed);
        AddRules(cell, v, "target", v.targetRules, placed + RulePlaces(cell, v, "attacker", v.attackerRules));
        assert variants[..i + 1][..i] == variants[..i];
        assert before + CellPlaces(cell, variants[..i + 1]) ==
               placed + RulePlaces(cell, v, "attacker", v.attackerRules) + RulePlaces(cell, v, "target", v.targetRules);
      }
      assert variants[..|variants|] == variants;
    }
  }

  lemma PlacesOfRules(cell: CellV3, v: VariantV3, perspective: string, rules: seq<RuleV3>)
    ensures |RulePlaces(cell, v, perspective, rules)| == |rules|
    ensures forall i :: 0 <= i < |rules| ==>
              RulePlaces(cell, v, perspective, rules)[i] == Place(cell, v, perspective, rules[i])
  {}

  lemma PlacesAppend(d: Digests, c: Corpus, places: seq<Place>, p: Place)
    ensures Bindings(d, c, places + [p]) ==
            Bindings(d, c, places) + (if p.rule.corpusSourceId in c.sources then [BindingAt(d, p)] else [])
    ensures Issues(d, c, places + [p]) == Issues(d, c, places) + IssuesAt(d, c, p)
  {
    hide BindingAt, IssuesAt;
    assert (places + [p])[..|places|] == places;
  }

  /** `[...new Map(bindings.map(b => [canonicalJson(b), b])).values()]`. */
  function Distinct(bindings: seq<RuleBinding>): (r: seq<RuleBinding>)
    ensures (forall b :: b in r <==> b in bindings) && NoRepeats(r)
  {
    if bindings == [] then []
    else
      var n := |bindings| - 1;
      var before := Distinct(bindings[..n]);
      assert bindings == bindings[..n] + [bindings[n]];
      if bindings[n] in before then before else before + [bindings[n]]
  }

  function SortedBindings(bindings: seq<RuleBinding>): seq<RuleBinding> { SortBy(BindingBefore, Distinct(bindings)) }

  /** `ruleBindingResult`. */
  method RuleBindingResult(d: Digests, corpus: Corpus, cells: seq<CellV3>)
    returns (bindings: seq<RuleBinding>, issues: seq<RuleIssue>)
    ensures bindings == SortedBindings(Bindings(d, corpus, Places(cells))) && issues == Issues(d, corpus, Places(cells))
  {
    hide Bindings, Issues, CellPlaces;
    var lists := new BindingLists(d, corpus);
    for i := 0 to |cells|
      invariant lists.d == d && lists.corpus == corpus && lists.Holds(Places(cells[..i]))
    {
      assert cells[..i + 1][..i] == cells[..i];
      lists.AddCell(cells[i], Places(cells[..i]));
    }
    assert cells[..|cells|] == cells;
    return SortedBindings(lists.bindings), lists.issues;
  }

  /** No issue is raised exactly when every rule of every cell is bound to a current source. */
  lemma {:induction false} NoIssuesIff(d: Digests, c: Corpus, places: seq<Place>)
    ensures Issues(d, c, places) == [] <==> forall p :: p in places ==> BoundRule(d, c, p.rule)
  {
    if places != [] {
      var n := |places| - 1;
      NoIssuesIff(d, c, places[..n]);
      var last := places[n];
      assert places == places[..n] + [last];
      assert IssuesAt(d, c, last) == [] <==> BoundRule(d, c, last.rule);
      hide BoundRule, IssuesAt;
      assert forall p :: p in places <==> p in places[..n] || p == last;
    }
  }

  /** The bindings are those of the rules whose source is known. */
  lemma {:induction false} BindingMembers(d: Digests, c: Corpus, places: seq<Place>, b: RuleBinding)
    ensures b in Bindings(d, c, places) <==>
            exists p :: p in places && p.rule.corpusSourceId in c.sources && b == BindingAt(d, p)
  {
    if places != [] {
      var n := |places| - 1;
      var last := places[n];
      BindingMembers(d, c, places[..n], b);
      assert places == places[..n] + [last] && last in places;
      hide BindingAt;
      if p :| p in places && p.rule.corpusSourceId in c.sources && b == BindingAt(d, p) {
        assert p in places[..n] || p == last;
      }
      if b in Bindings(d, c, places[..n]) {
        var p :| p in places[..n] && p.rule.corpusSourceId in c.sources && b == BindingAt(d, p);
        assert p in places;
      }
    }
  }

  lemma BindingsAscend(bindings: seq<RuleBinding>)
    ensures forall i, j :: 0 <= i < j < |SortedBindings(bindings)| ==>
              BindingBefore(SortedBindings(bindings)[i], SortedBindings(bindings)[j])
    ensures forall b :: b in SortedBindings(bindings) <==> b in bindings
  {
    var distinct, sorted := Distinct(bindings), SortedBindings(bindings);
    hide SortBy, BindingBefore, Distinct;
    BindingBeforeOrder();
    SortBySorted(BindingBefore, distinct);
    SortByMembers(BindingBefore, distinct);
    SortByMultiset(BindingBefore, distinct);
    forall i, j | 0 <= i < j < |sorted| ensures BindingBefore(sorted[i], sorted[j]) {
      NoRepeatCount(distinct, sorted[i]);
      if sorted[i] == sorted[j] { CountTwice(sorted, i, j); }
    }
  }

  // ---- Relevant leaves ----

  /** `isCombatDisposition`. */
  predicate CombatAccount(a: Account) { CorpusReport.Combat(a.disposition) }

  /** `phaseEvidencePhases(account).includes(phase)`. */
  predicate ActsIn(a: Account, phase: Phase) {
    && CorpusReport.HasPhases(a.evidence)
    && (if phase == Shooting then CorpusReport.Shooting else CorpusReport.Fight) in a.evidence.phases
  }

  function DispositionName(a: Account): string {
    if a.disposition.Calculated? then "modeled" else "state-required"
  }

  /** `relevantLeafIdsForSourcePhase`. */
  function RelevantFor(c: Corpus, leaves: seq<CorpusLeaf>, sourceId: string, phase: Phase): seq<Digest> {
    if leaves == [] then []
    else
      var l := leaves[0];
      (if l.sourceId == sourceId && l.leafId in c.accounts && CombatAccount(c.accounts[l.leafId]) &&
       ActsIn(c.accounts[l.leafId], phase)
       then [l.leafId] else [])
      + RelevantFor(c, leaves[1..], sourceId, phase)
  }

  function AllRelevant(c: Corpus, places: seq<Place>): seq<Digest> {
    if places == [] then []
    else RelevantFor(c, c.leaves, places[0].rule.corpusSourceId, places[0].cell.phase) + AllRelevant(c, places[1..])
  }

  /** The last leaf with an id, as the map of leaves holds it. */
  function SourceOfLeaf(leaves: seq<CorpusLeaf>, leafId: Digest): Option<string> {
    if leaves == [] then None
    else if leaves[|leaves| - 1].leafId == leafId then Some(leaves[|leaves| - 1].sourceId)
    else SourceOfLeaf(leaves[..|leaves| - 1], leafId)
  }

  function LeafEntries(d: Digests, c: Corpus, ids: seq<Digest>): Option<seq<RelevantLeaf>> {
    if ids == [] then Some([])
    else
      var n := |ids| - 1;
      var before, id := LeafEntries(d, c, ids[..n]), ids[n];
      if before.None? || id !in c.accounts || SourceOfLeaf(c.leaves, id).None? || !CombatAccount(c.accounts[id]) then
        None
      else Some(before.value +
                [RelevantLeaf(id, SourceOfLeaf(c.leaves, id).value, DispositionName(c.accounts[id]),
                              d.v3(AccountPre(c.accounts[id])))])
  }

  /** A leaf of the source whose account is calculated and acts in the phase. */
  ghost predicate Bears(c: Corpus, leaves: seq<CorpusLeaf>, sourceId: string, phase: Phase, id: Digest) {
    && id in c.accounts && CombatAccount(c.accounts[id]) && ActsIn(c.accounts[id], phase)
    && exists l :: l in leaves && l.leafId == id && l.sourceId == sourceId
  }

  lemma {:induction false} RelevantForIff(c: Corpus, leaves: seq<CorpusLeaf>, sourceId: string, phase: Phase,
                                          id: Digest)
    ensures id in RelevantFor(c, leaves, sourceId, phase) <==> Bears(c, leaves, sourceId, phase, id)
  {
    if leaves != [] {
      RelevantForIff(c, leaves[1..], sourceId, phase, id);
      hide CombatAccount, ActsIn;
      assert forall l :: l in leaves <==> l == leaves[0] || l in leaves[1..];
    }
  }

  ghost predicate BearsOn(c: Corpus, p: Place, id: Digest) {
    Bears(c, c.leaves, p.rule.corpusSourceId, p.cell.phase, id)
  }

  /** The relevant leaves are those that bear on some rule. */
  lemma {:induction false} AllRelevantIff(c: Corpus, places: seq<Place>, id: Digest)
    ensures id in AllRelevant(c, places) <==> exists p :: p in places && BearsOn(c, p, id)
  {
    if places != [] {
      AllRelevantIff(c, places[1..], id);
      RelevantForIff(c, c.leaves, places[0].rule.corpusSourceId, places[0].cell.phase, id);
      hide RelevantFor, Bears;
      assert BearsOn(c, places[0], id) <==> Bears(c, c.leaves, places[0].rule.corpusSourceId, places[0].cell.phase, id);
      hide BearsOn;
      assert forall p :: p in places <==> p == places[0] || p in places[1..];
    }
  }

  lemma AllRelevantAccounted(c: Corpus, places: seq<Place>, id: Digest)
    requires id in AllRelevant(c, places)
    ensures id in c.accounts && CombatAccount(c.accounts[id]) && exists l :: l in c.leaves && l.leafId == id
  {
    AllRelevantIff(c, places, id);
    hide CombatAccount, ActsIn;
  }

  lemma {:induction false} LeafHasSource(leaves: seq<CorpusLeaf>, id: Digest)
    requires exists l :: l in leaves && l.leafId == id
    ensures SourceOfLeaf(leaves, id).Some? &&
            exists l :: l in leaves && l.leafId == id && l.sourceId == SourceOfLeaf(leaves, id).value
  {
    var n := |leaves| - 1;
    assert leaves == leaves[..n] + [leaves[n]];
    if leaves[n].leafId == id {
      assert leaves[n] in leaves;
    } else {
      LeafHasSource(leaves[..n], id);
      var l :| l in leaves[..n] && l.leafId == id && l.sourceId == SourceOfLeaf(leaves[..n], id).value;
      assert l in leaves;
    }
  }

  /** Every relevant leaf gets its entry: the refusal inside the index never happens. */
  lemma {:induction false} EntriesAlways(d: Digests, c: Corpus, ids: seq<Digest>)
    requires forall id :: id in ids ==>
               id in c.accounts && CombatAccount(c.accounts[id]) && exists l :: l in c.leaves && l.leafId == id
    ensures LeafEntries(d, c, ids).Some? && |LeafEntries(d, c, ids).value| == |ids|
    ensures forall i :: 0 <= i < |ids| ==> EntryFor(d, c, ids[i], LeafEntries(d, c, ids).value[i])
  {
    hide CombatAccount;
    if ids != [] {
      var n := |ids| - 1;
      EntriesAlways(d, c, ids[..n]);
      assert ids[n] in ids;
      LeafHasSource(c.leaves, ids[n]);
    }
  }

  ghost predicate EntryFor(d: Digests, c: Corpus, id: Digest, e: RelevantLeaf) {
    && e.leafId == id && id in c.accounts && e.accountingSha256 == d.v3(AccountPre(c.accounts[id]))
    && e.disposition == DispositionName(c.accounts[id])
    && exists l :: l in c.leaves && l.leafId == id && l.sourceId == e.sourceId
  }

  // ---- Compiling ----

  datatype Refusal = NotAdmitted | ReplayInvalid | BundleMismatch | RuleUnbound | NotExact

  /** The bundle a caller names; `text` is all of it, as hashed. */
  datatype BundleV3 = BundleV3(bundleId: Digest, engineDataSchemaVersion: int, text: string)

  /** `CompileCombatBridgeInputV3`; what the v2 compiler says of the bundle comes in as `bundleSays`. */
  datatype Request = Request(bundle: BundleV3, bundleSays: seq<Diagnostic>, policy: Policy, cells: seq<CellV3>,
                             report: CorpusReport.Report, overlay: CorpusReport.Overlay,
                             expected: CorpusAdmission.Expectation, replay: Replay) {
    function Corpus(): Corpus { CorpusOf(report, overlay) }

    ghost predicate Admitted(d: Digests) { CorpusAdmission.Admissible(d.corpus, report, overlay, expected) }

    predicate SameBundle() {
      && bundle.bundleId == report.inventory.bundle.bundleId
      && bundle.engineDataSchemaVersion == report.inventory.bundle.engineDataSchemaVersion
    }
  }

  function CompilerIdentity(legacy: Bridge): CompilerV3 {
    CompilerV3(V3_VERSION, THIS_COMPILER.effectVocabularyVersion, V3_HASH_CONTRACT, THIS_COMPILER.rulesCompiler,
               legacy.compiler, REPORT_SCHEMA, OVERLAY_SCHEMA)
  }

  /** The exact bridge around a v2 bridge. */
  function Seal(d: Digests, c: Corpus, replay: Replay, legacy: Bridge, bindings: seq<RuleBinding>,
                leaves: seq<RelevantLeaf>): BridgeV3 {
    var binding := CorpusBinding(c.reportSha256, c.sourceInventorySha256, c.overlaySha256, bindings,
                                 d.v3(BindingsPre(bindings)), leaves, d.v3(LeavesPre(leaves)));
    var open := BridgeV3(V3_SCHEMA, BRIDGE_KIND, CompilerIdentity(legacy), legacy.bundle, legacy.policy,
                         legacy.policySha256, legacy.cells,
                         legacy.coverage, legacy.coverageUnit, legacy.diagnostics, legacy.cellIndexSha256,
                         Exactness(DECISION_GRADE, binding, replay, legacy.bridgeSha256), "");
    open.(bridgeSha256 := BridgeV3Sha(d, open))
  }

  /** An effect the exact bridge could not admit, were it bound to a relevant leaf. */
  ghost predicate InexactEffect(b: Bridge, e: Effect) {
    exists c, v :: c in b.cells && v in c.variants && e in v.effects &&
      (e.status == Approximated || e.status == Omitted)
  }

  /** `compileCombatBridgeV3`; `toV2` turns a cell into the v2 input. */
  ghost function CompiledV3(d: Digests, lib: CellCompiler.Library, toV2: CellV3 -> CellInput,
                            q: Request): Result<BridgeV3, Refusal> {
    var places := Places(q.cells);
    if !q.Admitted(d) then Err(NotAdmitted)
    else if !ReplaySound(q.replay) then Err(ReplayInvalid)
    else if !q.SameBundle() then Err(BundleMismatch)
    else if Issues(d, q.Corpus(), places) != [] then Err(RuleUnbound)
    else
      var legacy := BridgeCompiler.CompiledBridge(lib, q.bundle.text, q.bundleSays, q.policy, V2Cells(toV2, q.cells));
      var leaves := LeafEntries(d, q.Corpus(), SortedUnique(AllRelevant(q.Corpus(), places)));
      if !ExactCoverage(legacy.coverage) then Err(NotExact)
      else if leaves.None? then Err(NotAdmitted)
      else Ok(Seal(d, q.Corpus(), q.replay, legacy, SortedBindings(Bindings(d, q.Corpus(), places)), leaves.value))
  }

  function V2Cells(toV2: CellV3 -> CellInput, cells: seq<CellV3>): (r: seq<CellInput>)
    ensures |r| == |cells| && forall i :: 0 <= i < |r| ==> r[i] == toV2(cells[i])
  {
    seq(|cells|, i requires 0 <= i < |cells| => toV2(cells[i]))
  }

  method CompileCombatBridgeV3(d: Digests, lib: CellCompiler.Library, toV2: CellV3 -> CellInput, q: Request)
    returns (r: Result<BridgeV3, Refusal>)
    requires lib.hash == d.v2
    ensures NoCollision(lib.hash, BridgeCompiler.KeyObjects(V2Cells(toV2, q.cells))) ==>
            r == CompiledV3(d, lib, toV2, q)
    ensures && r.Ok? && AlwaysDigests(d) && CorpusSchema(q.Corpus())
            && (forall p :: p in Places(q.cells) ==> Identified(p))
        ==> BoundV3(d, r.value)
  {
    hide Places, ReplaySound, SortedBindings, Bindings, Issues, AllRelevant, LeafEntries, SortedUnique,
      BridgeCompiler.CompiledBridge, ExactCoverage, Seal,
      NoCollision, BridgeCompiler.KeyObjects, AlwaysDigests, CorpusSchema, BridgeBound, BoundV3;
    var admission := CorpusAdmission.EvaluateStrictAdmission(d.corpus, q.report, q.overlay, q.expected);
    if admission != Some([]) { return Err(NotAdmitted); }
    if !ReplaySound(q.replay) { return Err(ReplayInvalid); }
    if !q.SameBundle() { return Err(BundleMismatch); }
    var bindings, issues := RuleBindingResult(d, q.Corpus(), q.cells);
    if issues != [] { return Err(RuleUnbound); }
    var legacy := BridgeCompiler.CompileCombatBridgeV2(lib, q.bundle.text, q.bundleSays, q.policy,
                                                       V2Cells(toV2, q.cells));
    if !ExactCoverage(legacy.coverage) { return Err(NotExact); }
    var leaves := LeafEntries(d, q.Corpus(), SortedUnique(AllRelevant(q.Corpus(), Places(q.cells))));
    if leaves.None? { return Err(NotAdmitted); }
    r := Ok(Seal(d, q.Corpus(), q.replay, legacy, bindings, leaves.value));
    if AlwaysDigests(d) && CorpusSchema(q.Corpus()) && forall p :: p in Places(q.cells) ==> Identified(p) {
      SealedVerifies(d, q, legacy);
    }
  }

  // ---- What an exact bridge is worth ----

  /** The corpus fields a report's own schema promises. */
  ghost predicate CorpusSchema(c: Corpus) {
    && IsDigest(c.reportSha256) && IsDigest(c.sourceInventorySha256) && IsDigest(c.overlaySha256)
    && (forall id :: id in c.sources ==> id != "" && IsDigest(c.sources[id].entitySha256))
    && forall l :: l in c.leaves ==> IsDigest(l.leafId) && l.sourceId != ""
  }

  ghost predicate AlwaysDigests(d: Digests) { (forall x :: IsDigest(d.v2(x))) && forall x :: IsDigest(d.v3(x)) }

  predicate Identified(p: Place) { p.cell.cellId != "" && p.variant.planId != "" && p.rule.abilityId != "" }

  lemma BindingsAreSound(d: Digests, c: Corpus, places: seq<Place>)
    requires CorpusSchema(c) && AlwaysDigests(d) && Issues(d, c, places) == [] &&
             forall p :: p in places ==> Identified(p)
    ensures BindingsSound(SortedBindings(Bindings(d, c, places)))
  {
    NoIssuesIff(d, c, places);
    BindingsAscend(Bindings(d, c, places));
    hide SortedBindings, Bindings, BindingBefore, IsDigest;
    forall b | b in SortedBindings(Bindings(d, c, places)) ensures BindingSound(b) {
      BindingMembers(d, c, places, b);
      var p :| p in places && p.rule.corpusSourceId in c.sources && b == BindingAt(d, p);
      assert BoundRule(d, c, p.rule) && Identified(p);
    }
  }

  lemma LeavesAreSound(d: Digests, c: Corpus, places: seq<Place>)
    requires CorpusSchema(c) && AlwaysDigests(d)
    ensures LeafEntries(d, c, SortedUnique(AllRelevant(c, places))).Some?
    ensures LeavesSound(LeafEntries(d, c, SortedUnique(AllRelevant(c, places))).value)
  {
    var ids := SortedUnique(AllRelevant(c, places));
    SortedUniqueAscending(AllRelevant(c, places));
    forall id | id in ids
      ensures id in c.accounts && CombatAccount(c.accounts[id]) && exists l :: l in c.leaves && l.leafId == id {
      AllRelevantAccounted(c, places, id);
    }
    hide SortedUnique, AllRelevant, StringLess, CombatAccount, IsDigest;
    EntriesAlways(d, c, ids);
    hide LeafEntries;
    var leaves := LeafEntries(d, c, ids).value;
    forall e | e in leaves ensures LeafSound(e) {
      var i :| 0 <= i < |leaves| && leaves[i] == e;
      assert EntryFor(d, c, ids[i], e);
    }
    forall i, j | 0 <= i && j == i + 1 && j < |leaves| ensures StringLess(leaves[i].leafId, leaves[j].leafId) {
      assert EntryFor(d, c, ids[i], leaves[i]) && EntryFor(d, c, ids[j], leaves[j]);
    }
  }

  /** Every exact bridge compiled from identified cells verifies. */
  lemma CompiledV3Verifies(d: Digests, lib: CellCompiler.Library, toV2: CellV3 -> CellInput, q: Request)
    requires lib.hash == d.v2 && AlwaysDigests(d) && CorpusSchema(q.Corpus())
    requires CompiledV3(d, lib, toV2, q).Ok? && forall p :: p in Places(q.cells) ==> Identified(p)
    ensures BoundV3(d, CompiledV3(d, lib, toV2, q).value)
  {
    var places := Places(q.cells);
    hide Places, SortedBindings, Bindings, Issues, LeafEntries, AllRelevant, SortedUnique, BindingsSound, LeavesSound,
      ReplaySound, ExactCoverage, BridgeBound, IsDigest, BridgeCompiler.CompiledBridge;
    var cells := V2Cells(toV2, q.cells);
    BridgeCompiler.CompiledBridgeVerifies(lib, q.bundle.text, q.bundleSays, q.policy, cells);
    SealedVerifies(d, q, BridgeCompiler.CompiledBridge(lib, q.bundle.text, q.bundleSays, q.policy, cells));
  }

  /** Sealing any verifying v2 bridge that is exact, once no rule is unbound, gives a verifying exact bridge. */
  lemma SealedVerifies(d: Digests, q: Request, legacy: Bridge)
    requires AlwaysDigests(d) && CorpusSchema(q.Corpus()) && ReplaySound(q.replay) &&
             Issues(d, q.Corpus(), Places(q.cells)) == []
    requires forall p :: p in Places(q.cells) ==> Identified(p)
    requires BridgeBound(d.v2, legacy) && legacy.compiler == THIS_COMPILER && ExactCoverage(legacy.coverage)
    ensures var leaves := LeafEntries(d, q.Corpus(), SortedUnique(AllRelevant(q.Corpus(), Places(q.cells))));
            && leaves.Some?
            && BoundV3(d, Seal(d, q.Corpus(), q.replay, legacy,
                               SortedBindings(Bindings(d, q.Corpus(), Places(q.cells))), leaves.value))
  {
    hide *;
    var places := Places(q.cells);
    BindingsAreSound(d, q.Corpus(), places);
    LeavesAreSound(d, q.Corpus(), places);
    SealVerifies(d, q, legacy, SortedBindings(Bindings(d, q.Corpus(), places)),
                 LeafEntries(d, q.Corpus(), SortedUnique(AllRelevant(q.Corpus(), places))).value);
  }

  lemma SealVerifies(d: Digests, q: Request, legacy: Bridge, bindings: seq<RuleBinding>, leaves: seq<RelevantLeaf>)
    requires AlwaysDigests(d) && CorpusSchema(q.Corpus()) && BindingsSound(bindings) && LeavesSound(leaves) &&
             ReplaySound(q.replay)
    requires BridgeBound(d.v2, legacy) && legacy.compiler == THIS_COMPILER && ExactCoverage(legacy.coverage)
    ensures BoundV3(d, Seal(d, q.Corpus(), q.replay, legacy, bindings, leaves))
  {
    hide BindingsSound, LeavesSound, ReplaySound, ExactCoverage, CellBound, IsDigest;
    var b := Seal(d, q.Corpus(), q.replay, legacy, bindings, leaves);
    assert Legacy(b) == legacy;
  }

  /**
    Coverage alone decides: once it is exact, no effect of any cell is approximated or omitted, so the
    search for inexact effects on relevant leaves can find nothing more.
   */
  lemma ExactLeavesNothingOut(lib: CellCompiler.Library, q: Request, cells: seq<CellInput>, e: Effect)
    requires NoCollision(lib.hash,
                         BridgeCompiler.AllMechanics(BridgeCompiler.CompiledBridge(lib, q.bundle.text, q.bundleSays,
                                                                                   q.policy, cells).cells))
    requires ExactCoverage(BridgeCompiler.CompiledBridge(lib, q.bundle.text, q.bundleSays, q.policy, cells).coverage)
    ensures !InexactEffect(BridgeCompiler.CompiledBridge(lib, q.bundle.text, q.bundleSays, q.policy, cells), e)
  {
    hide *;
    AllExact(lib, q, cells);
    OnlyCompiledCells(lib, q, cells);
    NothingInexact(lib, q.policy, cells,
                   BridgeCompiler.CompiledBridge(lib, q.bundle.text, q.bundleSays, q.policy, cells), e);
  }

  ghost predicate ExactCell(lib: CellCompiler.Library, policy: Policy, cell: CellInput) {
    forall v :: v in CellCompiler.CompiledCell(lib, cell, policy).variants ==> CellCoverage.ExactEffects(v)
  }

  lemma AllExact(lib: CellCompiler.Library, q: Request, cells: seq<CellInput>)
    requires NoCollision(lib.hash,
                         BridgeCompiler.AllMechanics(BridgeCompiler.CompiledBridge(lib, q.bundle.text, q.bundleSays,
                                                                                   q.policy, cells).cells))
    requires ExactCoverage(BridgeCompiler.CompiledBridge(lib, q.bundle.text, q.bundleSays, q.policy, cells).coverage)
    ensures forall cell :: cell in cells ==> ExactCell(lib, q.policy, cell)
  {
    hide BridgeCompiler.CompiledBridge, CellCompiler.CompiledCell, CellCoverage.FullProduct, CellCoverage.ExactEffects,
      NoCollision;
    BridgeCompiler.DecisionGradeBridge(lib, q.bundle.text, q.bundleSays, q.policy, cells);
  }

  lemma NothingInexact(lib: CellCompiler.Library, policy: Policy, cells: seq<CellInput>, b: Bridge, e: Effect)
    requires forall cell :: cell in cells ==> ExactCell(lib, policy, cell)
    requires forall c :: c in b.cells ==>
               exists cell :: cell in cells && c == CellCompiler.CompiledCell(lib, cell, policy)
    ensures !InexactEffect(b, e)
  {
    hide CellCompiler.CompiledCell;
    forall c, v | c in b.cells && v in c.variants && e in v.effects
      ensures e.status == Modeled || e.status == NotApplicable {
      var cell :| cell in cells && c == CellCompiler.CompiledCell(lib, cell, policy);
      assert ExactCell(lib, policy, cell) && CellCoverage.ExactEffects(v);
    }
  }

  lemma OnlyCompiledCells(lib: CellCompiler.Library, q: Request, cells: seq<CellInput>)
    ensures forall c :: c in BridgeCompiler.CompiledBridge(lib, q.bundle.text, q.bundleSays, q.policy, cells).cells ==>
              exists cell :: cell in cells && c == CellCompiler.CompiledCell(lib, cell, q.policy)
  {
    hide CellCompiler.CompiledCell, SortBy, BridgeCompiler.InputDiagnostics, BridgeCompiler.PolicyDiagnostics,
      CellCompiler.AggregateCoverage, BridgeCompiler.UniqueMechanics;
    var b := BridgeCompiler.CompiledBridge(lib, q.bundle.text, q.bundleSays, q.policy, cells);
    var sorted := SortBy(ByKey(BridgeCompiler.CellKey()), cells);
    SortByMembers(ByKey(BridgeCompiler.CellKey()), cells);
    forall c | c in b.cells
      ensures exists cell :: cell in cells && c == CellCompiler.CompiledCell(lib, cell, q.policy) {
      var i :| 0 <= i < |b.cells| && b.cells[i] == c;
      assert sorted[i] in sorted;
    }
  }

  /** A rule that stands on one side of a variant of a cell. */
  ghost predicate Stands(cells: seq<CellV3>, p: Place) {
    && p.cell in cells && p.variant in p.cell.ruleVariants
    && ((p.perspective == "attacker" && p.rule in p.variant.attackerRules) ||
        (p.perspective == "target" && p.rule in p.variant.targetRules))
  }

  /** What a binding says of a rule in its place. */
  ghost predicate Binds(d: Digests, p: Place, b: RuleBinding) {
    && b.cellId == p.cell.cellId && b.attachmentPlanId == p.variant.planId && b.perspective == p.perspective
    && b.abilityId == p.rule.abilityId && b.corpusSourceId == p.rule.corpusSourceId
    && b.entitySha256 == p.rule.entityHash && b.effectSha256 == d.v3(EffectPre(p.rule.effect))
    && b.ruleSourceSha256 == d.v3(SourcePre(p.rule.source))
  }

  lemma VariantPlacesIff(cell: CellV3, v: VariantV3, p: Place)
    ensures p in VariantPlaces(cell, v) <==>
            p.cell == cell && p.variant == v &&
              ((p.perspective == "attacker" && p.rule in v.attackerRules) ||
               (p.perspective == "target" && p.rule in v.targetRules))
  {
    RulePlacesIff(cell, v, "attacker", v.attackerRules, p);
    RulePlacesIff(cell, v, "target", v.targetRules, p);
    hide RulePlaces;
  }

  lemma RulePlacesIff(cell: CellV3, v: VariantV3, perspective: string, rules: seq<RuleV3>, p: Place)
    ensures p in RulePlaces(cell, v, perspective, rules) <==>
            p.cell == cell && p.variant == v && p.perspective == perspective && p.rule in rules
  {
    PlacesOfRules(cell, v, perspective, rules);
    var places := RulePlaces(cell, v, perspective, rules);
    hide RulePlaces;
    if p.cell == cell && p.variant == v && p.perspective == perspective && p.rule in rules {
      var i :| 0 <= i < |rules| && rules[i] == p.rule;
      assert places[i] == p;
    }
  }

  lemma {:induction false} CellPlacesIff(cell: CellV3, variants: seq<VariantV3>, p: Place)
    ensures p in CellPlaces(cell, variants) <==> p.variant in variants && p in VariantPlaces(cell, p.variant)
    decreases |variants|
  {
    hide VariantPlaces;
    if variants != [] {
      var n := |variants| - 1;
      assert variants == variants[..n] + [variants[n]];
      CellPlacesIff(cell, variants[..n], p);
      VariantPlacesIff(cell, variants[n], p);
      VariantPlacesIff(cell, p.variant, p);
    }
  }

  /** The places are exactly where a rule stands. */
  lemma {:induction false} PlacesIff(cells: seq<CellV3>, p: Place)
    ensures p in Places(cells) <==> Stands(cells, p)
    decreases |cells|
  {
    hide CellPlaces;
    if cells != [] {
      var n := |cells| - 1;
      assert cells == cells[..n] + [cells[n]];
      PlacesIff(cells[..n], p);
      CellPlacesIff(cells[n], cells[n].ruleVariants, p);
      VariantPlacesIff(cells[n], p.variant, p);
      hide VariantPlaces;
    }
  }

  /** An exact bridge binds every rule it was compiled from to a current corpus source, and lists nothing else. */
  lemma CompiledV3BindsRules(d: Digests, lib: CellCompiler.Library, toV2: CellV3 -> CellInput, q: Request,
                             b: RuleBinding)
    requires CompiledV3(d, lib, toV2, q).Ok?
    ensures forall p :: Stands(q.cells, p) ==> BoundRule(d, q.Corpus(), p.rule)
    ensures b in CompiledV3(d, lib, toV2, q).value.exactness.corpus.ruleBindings <==>
            exists p :: Stands(q.cells, p) && Binds(d, p, b)
  {
    var places := Places(q.cells);
    forall p ensures p in places <==> Stands(q.cells, p) { PlacesIff(q.cells, p); }
    forall p ensures Binds(d, p, b) <==> b == BindingAt(d, p) {}
    hide Stands, Binds;
    NoIssuesIff(d, q.Corpus(), places);
    BindingsAscend(Bindings(d, q.Corpus(), places));
    BindingMembers(d, q.Corpus(), places, b);
    CompiledBindings(d, lib, toV2, q);
    hide CompiledV3, Places, SortedBindings, Bindings, Issues, BindingAt;
    assert forall p :: p in places ==> BoundRule(d, q.Corpus(), p.rule);
  }

  lemma CompiledBindings(d: Digests, lib: CellCompiler.Library, toV2: CellV3 -> CellInput, q: Request)
    requires CompiledV3(d, lib, toV2, q).Ok?
    ensures Issues(d, q.Corpus(), Places(q.cells)) == []
    ensures CompiledV3(d, lib, toV2, q).value.exactness.corpus.ruleBindings ==
            SortedBindings(Bindings(d, q.Corpus(), Places(q.cells)))
  {
    hide Places, SortedBindings, Bindings, Issues, LeafEntries, AllRelevant, SortedUnique, ReplaySound, ExactCoverage,
      BridgeCompiler.CompiledBridge, BridgeV3Sha;
  }

  // ---- The corpus behind an exact bridge ----

  /** In an admitted report the maps hold exactly the report's own entries. */
  lemma AdmittedMaps(h: CorpusAdmission.Seals, r: CorpusReport.Report, o: CorpusReport.Overlay,
                     expected: CorpusAdmission.Expectation, a: Account)
    requires CorpusAdmission.Admissible(h, r, o, expected) && a in r.accounts
    ensures a.leafId in CorpusOf(r, o).accounts && CorpusOf(r, o).accounts[a.leafId] == a
  {
    hide CorpusAdmission.MapBy, InventoryValidity.ValidInventory, CorpusReport.OverlaySchema, CorpusReport.AccountFits,
      CorpusReport.ExpectedSummary, CorpusAdmission.BindingsValid, CorpusAdmission.AccountAdmitted;
    CorpusAdmission.MapByIndexed(CorpusReport.AccountKey(), r.accounts);
    CorpusAdmission.IndexedExactlyOne(CorpusOf(r, o).accounts, CorpusReport.AccountKey(), r.accounts, a);
  }

  /** The leaves an exact bridge lists, as `LeafEntries` made them. */
  lemma CompiledLeaves(d: Digests, lib: CellCompiler.Library, toV2: CellV3 -> CellInput, q: Request)
    requires CompiledV3(d, lib, toV2, q).Ok?
    ensures q.Admitted(d) && q.SameBundle()
    ensures var c := q.Corpus();
            var entries := LeafEntries(d, c, SortedUnique(AllRelevant(c, Places(q.cells))));
            entries.Some? && CompiledV3(d, lib, toV2, q).value.exactness.corpus.relevantLeaves == entries.value
  {
    hide Places, SortedBindings, Bindings, Issues, LeafEntries, AllRelevant, SortedUnique, ReplaySound, ExactCoverage,
      BridgeCompiler.CompiledBridge, BridgeV3Sha, CorpusOf, CorpusAdmission.Admissible;
  }

  lemma ListedIffRelevant(d: Digests, c: Corpus, places: seq<Place>, id: Digest)
    ensures var entries := LeafEntries(d, c, SortedUnique(AllRelevant(c, places)));
            && entries.Some?
            && ((exists e :: e in entries.value && e.leafId == id) <==> exists p :: p in places && BearsOn(c, p, id))
            && forall e :: e in entries.value ==> EntryFor(d, c, e.leafId, e)
  {
    var ids := SortedUnique(AllRelevant(c, places));
    SortedUniqueAscending(AllRelevant(c, places));
    AllRelevantIff(c, places, id);
    forall x | x in ids
      ensures x in c.accounts && CombatAccount(c.accounts[x]) && exists l :: l in c.leaves && l.leafId == x {
      AllRelevantAccounted(c, places, x);
    }
    hide SortedUnique, AllRelevant, CombatAccount, ActsIn, BearsOn;
    EntriesAlways(d, c, ids);
    hide LeafEntries;
    var entries := LeafEntries(d, c, ids).value;
    forall e | e in entries ensures EntryFor(d, c, e.leafId, e) && e.leafId in ids {
      var i :| 0 <= i < |entries| && entries[i] == e;
      assert EntryFor(d, c, ids[i], e);
    }
    if id in ids {
      var i :| 0 <= i < |ids| && ids[i] == id;
      assert EntryFor(d, c, ids[i], entries[i]);
    }
  }

  /**
    The leaves an exact bridge lists are exactly those that bear on it: calculated leaves of a source that some
    rule was compiled from, acting in that rule's phase. The report behind it was strictly admitted, so each
    listed leaf is settled, and the entry names its source and the digest of its account.
   */
  lemma ExactBridgeLeaves(d: Digests, lib: CellCompiler.Library, toV2: CellV3 -> CellInput, q: Request,
                          l: CorpusLeaf, a: Account)
    requires CompiledV3(d, lib, toV2, q).Ok?
    requires l in q.report.inventory.body.leaves && a in q.report.accounts && a.leafId == l.leafId
    ensures var index := CompiledV3(d, lib, toV2, q).value.exactness.corpus.relevantLeaves;
            var calculated := a.disposition.Calculated? || a.disposition.StateRequired?;
            var name := if a.disposition.Calculated? then "modeled" else "state-required";
            && ((exists e :: e in index && e.leafId == l.leafId)
                <==> calculated && exists p :: Stands(q.cells, p) && p.rule.corpusSourceId == l.sourceId
                                               && NamesPhase(a.evidence, p.cell.phase))
            && (forall e :: e in index && e.leafId == l.leafId ==>
                  e == RelevantLeaf(l.leafId, l.sourceId, name, d.v3(AccountPre(a))))
    ensures CorpusAdmission.Settled(q.report.inventory.body, q.overlay, q.expected, l, a)
    ensures q.bundle.bundleId == q.report.inventory.bundle.bundleId &&
            q.bundle.engineDataSchemaVersion == q.report.inventory.bundle.engineDataSchemaVersion
  {
    AccountRead(a);
    BundleRead(q);
    hide *;
    var c, places := q.Corpus(), Places(q.cells);
    forall p ensures p in places <==> Stands(q.cells, p) { PlacesIff(q.cells, p); }
    CompiledLeaves(d, lib, toV2, q);
    ListedIffRelevant(d, c, places, l.leafId);
    AdmittedParts(d, q, l, a);
    forall p ensures BearsOn(c, p, l.leafId)
                <==> CombatAccount(a) && p.rule.corpusSourceId == l.sourceId && ActsIn(a, p.cell.phase)
    {
      BearsOnOne(c, p, l, a);
    }
    var index := CompiledV3(d, lib, toV2, q).value.exactness.corpus.relevantLeaves;
    forall e | e in index && e.leafId == l.leafId
      ensures e == RelevantLeaf(l.leafId, l.sourceId, DispositionName(a), d.v3(AccountPre(a)))
    {
      EntryOfOne(d, c, l, a, e);
    }
  }

  /** The evidence of an account names a combat phase. */
  ghost predicate NamesPhase(e: CorpusReport.Evidence, phase: Phase) {
    match e
    case InSource(_, phases, _, _) => (if phase.Shooting? then CorpusReport.Shooting else CorpusReport.Fight) in phases
    case Reviewed(phases, _) => (if phase.Shooting? then CorpusReport.Shooting else CorpusReport.Fight) in phases
    case NotRequired(_) => false
    case Unresolved(_) => false
  }

  lemma AccountRead(a: Account)
    ensures CombatAccount(a) <==> a.disposition.Calculated? || a.disposition.StateRequired?
    ensures forall phase :: ActsIn(a, phase) <==> NamesPhase(a.evidence, phase)
    ensures DispositionName(a) == if a.disposition.Calculated? then "modeled" else "state-required"
  {}

  lemma BundleRead(q: Request)
    ensures q.SameBundle() <==>
            q.bundle.bundleId == q.report.inventory.bundle.bundleId &&
            q.bundle.engineDataSchemaVersion == q.report.inventory.bundle.engineDataSchemaVersion
  {}

  lemma AdmittedParts(d: Digests, q: Request, l: CorpusLeaf, a: Account)
    requires q.Admitted(d)
    requires l in q.report.inventory.body.leaves && a in q.report.accounts && a.leafId == l.leafId
    ensures CorpusAdmission.Settled(q.report.inventory.body, q.overlay, q.expected, l, a)
    ensures DistinctKeys(InventoryValidity.LeafKey(), q.Corpus().leaves) && l in q.Corpus().leaves
    ensures a.leafId in q.Corpus().accounts && q.Corpus().accounts[a.leafId] == a
  {
    hide CorpusAdmission.Admissible, CorpusAdmission.Settled, CorpusAdmission.MapBy;
    AdmittedMaps(d.corpus, q.report, q.overlay, q.expected, a);
    AdmittedLeavesDistinct(d.corpus, q.report, q.overlay, q.expected);
    var account := CorpusAdmission.AdmittedLeafSettled(d.corpus, q.report, q.overlay, q.expected, l);
    assert a == account;
  }

  lemma AdmittedLeavesDistinct(h: CorpusAdmission.Seals, r: CorpusReport.Report, o: CorpusReport.Overlay,
                               expected: CorpusAdmission.Expectation)
    requires CorpusAdmission.Admissible(h, r, o, expected)
    ensures DistinctKeys(InventoryValidity.LeafKey(), r.inventory.body.leaves)
  {
    hide DistinctKeys, CorpusReport.OverlaySchema, CorpusReport.AccountFits, CorpusReport.ExpectedSummary,
      CorpusAdmission.BindingsValid, CorpusAdmission.AccountAdmitted, InventoryValidity.FragmentSound,
      InventoryValidity.LeafSound, InventoryValidity.IssueSound, InventoryValidity.RootSound;
  }

  lemma OneLeaf(leaves: seq<CorpusLeaf>, l: CorpusLeaf, k: CorpusLeaf)
    requires DistinctKeys(InventoryValidity.LeafKey(), leaves) && l in leaves && k in leaves && k.leafId == l.leafId
    ensures k == l
  {
    InventoryValidator.SameKeySame(InventoryValidity.LeafKey(), leaves, k, l);
  }

  lemma BearsOnOne(c: Corpus, p: Place, l: CorpusLeaf, a: Account)
    requires DistinctKeys(InventoryValidity.LeafKey(), c.leaves) && l in c.leaves
    requires l.leafId in c.accounts && c.accounts[l.leafId] == a
    ensures BearsOn(c, p, l.leafId)
       <==> CombatAccount(a) && p.rule.corpusSourceId == l.sourceId && ActsIn(a, p.cell.phase)
  {
    hide DistinctKeys, CombatAccount, ActsIn;
    forall k | k in c.leaves && k.leafId == l.leafId ensures k == l { OneLeaf(c.leaves, l, k); }
  }

  lemma EntryOfOne(d: Digests, c: Corpus, l: CorpusLeaf, a: Account, e: RelevantLeaf)
    requires DistinctKeys(InventoryValidity.LeafKey(), c.leaves) && l in c.leaves
    requires l.leafId in c.accounts && c.accounts[l.leafId] == a && EntryFor(d, c, l.leafId, e)
    ensures e == RelevantLeaf(l.leafId, l.sourceId, DispositionName(a), d.v3(AccountPre(a)))
  {
    hide DistinctKeys, DispositionName;
    forall k | k in c.leaves && k.leafId == l.leafId ensures k == l { OneLeaf(c.leaves, l, k); }
  }
}
