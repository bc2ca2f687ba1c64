/**
  lib/rosterpilot/combat-bridge.ts:2337-2584: compiling a list of cells through the shared
  mechanics cache, and the bridge around them.
 */
module BridgeCompiler {
  import opened Wrappers
  import opened Ordering
  import opened CombatTypes
  import opened BridgeTypes
  import opened BridgeHash
  import opened CellCompiler
  import ActivationEnumeration
  import AttachmentEnvelope
  import CellCoverage

  function CellKey(): CellInput -> string { (c: CellInput) => c.cellId }

  /** `combatCellCompileCacheSha256`. */
  function CacheKey(lib: Library, cell: CellInput): Digest { lib.hash(KeyObject(cell)) }

  function KeyObject(cell: CellInput): Preimage {
    CellInputPre(cell.attacker, cell.target, cell.scenario, cell.ruleVariants)
  }

  function KeyObjects(cells: seq<CellInput>): set<Preimage> { set c | c in cells :: KeyObject(c) }

  /** `aliasCompiledCombatCell`. */
  function Alias(lib: Library, cell: CellInput, compiled: Cell): Cell {
    if cell.cellId == compiled.cellId && cell.direction == compiled.direction && cell.metric == compiled.metric then
      compiled
    else
      var renamed := compiled.(cellId := cell.cellId, direction := cell.direction, metric := cell.metric);
      renamed.(cellSha256 := CellSha(lib.hash, renamed, renamed.mechanicsSha256, renamed.variantIndexSha256))
  }

  predicate SameMechanics(a: CellInput, b: CellInput) {
    a.attacker == b.attacker && a.target == b.target && a.scenario == b.scenario && a.ruleVariants == b.ruleVariants
  }

  // ---- Only the mechanics decide what a cell compiles to ----

  lemma SameTranslations(lib: Library, a: CellInput, b: CellInput, policy: Policy, rv: RuleVariant)
    requires SameMechanics(a, b)
    ensures forall p :: TranslationOf(lib, a, rv, p) == TranslationOf(lib, b, rv, p)
    ensures forall p :: ContextFor(lib, a, rv.attachmentPlan, p) == ContextFor(lib, b, rv.attachmentPlan, p)
    ensures LeversOf(lib, a, rv) == LeversOf(lib, b, rv)
    ensures ActivationsOf(lib, a, policy, rv) == ActivationsOf(lib, b, policy, rv)
  {
    hide ActivationEnumeration.ActivationEnvelopeOf;
  }

  lemma {:induction false} SameJoint(lib: Library, a: CellInput, b: CellInput, policy: Policy, plans: seq<RuleVariant>)
    requires SameMechanics(a, b)
    ensures JointOf(lib, a, policy, plans) == JointOf(lib, b, policy, plans)
    ensures PlanDiagnostics(lib, a, policy, plans) == PlanDiagnostics(lib, b, policy, plans)
    ensures LeverIds(lib, a, plans) == LeverIds(lib, b, plans)
  {
    hide ActivationsOf, LeversOf, Paired;
    if plans != [] {
      SameJoint(lib, a, b, policy, plans[..|plans| - 1]);
      SameTranslations(lib, a, b, policy, plans[|plans| - 1]);
    }
  }

  lemma SameVariants(lib: Library, a: CellInput, b: CellInput, policy: Policy, joint: seq<Joint>)
    requires SameMechanics(a, b)
    ensures CompileAll(lib, a, joint) == CompileAll(lib, b, joint)
  {
    forall i | 0 <= i < |joint| ensures CompileJoint(lib, a, joint[i]) == CompileJoint(lib, b, joint[i]) {
      SameTranslations(lib, a, b, policy, joint[i].ruleVariant);
      hide TranslationOf, ContextFor, SortBy, Mapped, Included, CoverageFrom;
    }
  }

  /** Compiling a cell is renaming the compiled form of any cell with the same mechanics. */
  lemma CompileIsAlias(lib: Library, a: CellInput, b: CellInput, policy: Policy)
    requires SameMechanics(a, b)
    ensures CompiledCell(lib, b, policy) == Alias(lib, b, CompiledCell(lib, a, policy))
  {
    hide JointOf, CompileAll, PlanDiagnostics, LeverIds, SortBy, AttachmentEnvelope.AttachmentEnvelopeOf;
    SameJoint(lib, a, b, policy, PlansOf(a, policy));
    var sorted := SortBy(JointBefore, JointOf(lib, a, policy, PlansOf(a, policy)));
    SameVariants(lib, a, b, policy, if |sorted| > JointLimit(policy) then sorted[..JointLimit(policy)] else sorted);
  }

  // ---- The cache ----

  ghost function CompileEach(lib: Library, policy: Policy, cells: seq<CellInput>): seq<Cell> {
    seq(|cells|, i requires 0 <= i < |cells| => CompiledCell(lib, cells[i], policy))
  }

  /** Every cached cell is the compiled form of one of the cells, with that key. */
  ghost predicate Faithful(lib: Library, policy: Policy, cells: seq<CellInput>, cache: map<Digest, Cell>) {
    forall key :: key in cache ==>
      exists c :: c in cells && CacheKey(lib, c) == key && cache[key] == CompiledCell(lib, c, policy)
  }

  ghost predicate Named(cell: CellInput, c: Cell) {
    c.cellId == cell.cellId && c.direction == cell.direction && c.metric == cell.metric
  }

  /**
    The shared cache changes nothing: unless the mechanics of two of these very cells collide, the result
    is every cell compiled on its own, in id order, hashes included. Whatever collides, each result is
    sealed and carries its own cell's name.
   */
  method CompileCells(lib: Library, policy: Policy, cells: seq<CellInput>) returns (compiled: seq<Cell>)
    ensures NoCollision(lib.hash, KeyObjects(cells)) ==>
            compiled == CompileEach(lib, policy, SortBy(ByKey(CellKey()), cells))
    ensures |compiled| == |cells| == |SortBy(ByKey(CellKey()), cells)|
    ensures forall i :: 0 <= i < |compiled| ==>
              CellBound(lib.hash, compiled[i]) && Named(SortBy(ByKey(CellKey()), cells)[i], compiled[i])
  {
    hide CompiledCell, SortBy, CellBound, Alias, NoCollision, KeyObjects, CacheKey;
    var sorted := SortBy(ByKey(CellKey()), cells);
    SortByMembers(ByKey(CellKey()), cells);
    var cache: map<Digest, Cell> := map[];
    compiled := [];
    for i := 0 to |sorted|
      invariant Faithful(lib, policy, cells, cache)
      invariant |compiled| == i
      invariant forall k :: 0 <= k < i ==> CellBound(lib.hash, compiled[k]) && Named(sorted[k], compiled[k])
      invariant NoCollision(lib.hash, KeyObjects(cells)) ==>
                forall k :: 0 <= k < i ==> compiled[k] == CompiledCell(lib, sorted[k], policy)
    {
      var cell := sorted[i];
      var key := CacheKey(lib, cell);
      if key !in cache {
        var shared := CompileCell(lib, cell, policy);
        cache := cache[key := shared];
      }
      ghost var source :| source in cells && CacheKey(lib, source) == key && cache[key] == CompiledCell(lib, source,
                                                                                                        policy);
      if NoCollision(lib.hash, KeyObjects(cells)) { SharedIsOwn(lib, policy, cells, source, cell); }
      CompiledCellBound(lib, source, policy);
      AliasBound(lib, cell, cache[key]);
      compiled := compiled + [Alias(lib, cell, cache[key])];
    }
  }

  lemma SharedIsOwn(lib: Library, policy: Policy, cells: seq<CellInput>, source: CellInput, cell: CellInput)
    requires NoCollision(lib.hash, KeyObjects(cells)) && source in cells && cell in cells &&
             CacheKey(lib, source) == CacheKey(lib, cell)
    ensures Alias(lib, cell, CompiledCell(lib, source, policy)) == CompiledCell(lib, cell, policy)
  {
    assert KeyObject(source) in KeyObjects(cells) && KeyObject(cell) in KeyObjects(cells);
    hide CompiledCell, Alias;
    CompileIsAlias(lib, source, cell, policy);
  }

  lemma AliasBound(lib: Library, cell: CellInput, c: Cell)
    requires CellBound(lib.hash, c)
    ensures CellBound(lib.hash, Alias(lib, cell, c)) && Named(cell, Alias(lib, cell, c))
  {}

  lemma SealedCellBound(lib: Library, cell: CellInput, variants: seq<BridgeVariant>, available: seq<string>,
                        diagnostics: seq<Diagnostic>)
    requires forall v :: v in variants ==> VariantBound(lib.hash, v)
    ensures CellBound(lib.hash, SealCell(lib, cell, variants, available, diagnostics))
  {
    hide VariantBound, AggregateCoverage;
  }

  lemma CompiledVariantsBound(lib: Library, cell: CellInput, joint: seq<Joint>)
    ensures forall v :: v in CompileAll(lib, cell, joint) ==> VariantBound(lib.hash, v)
  {
    hide TranslationOf, ContextFor, SortBy, Mapped, Included, CoverageFrom, TranslationEntries;
    forall i | 0 <= i < |joint| ensures VariantBound(lib.hash, CompileJoint(lib, cell, joint[i])) {}
  }

  lemma CompiledCellBound(lib: Library, cell: CellInput, policy: Policy)
    ensures CellBound(lib.hash, CompiledCell(lib, cell, policy))
  {
    hide JointOf, LeverIds, SortBy, AttachmentEnvelope.AttachmentEnvelopeOf, CellDiagnostics, SealCell, CellBound,
      VariantBound, CompileAll;
    var sorted := SortBy(JointBefore, JointOf(lib, cell, policy, PlansOf(cell, policy)));
    CompiledVariantsBound(lib, cell, if |sorted| > JointLimit(policy) then sorted[..JointLimit(policy)] else sorted);
    SealedCellBound(lib, cell, VariantsCompiled(lib, cell, policy),
                    SortedUnique(LeverIds(lib, cell, PlansOf(cell, policy))), CellDiagnostics(lib, cell, policy));
  }

  // ---- The bridge ----

  /** `validateCompileInput`; what it says of the bundle's own identity comes in as `bundleSays`. */
  function InputDiagnostics(bundleSays: seq<Diagnostic>, policy: Policy, cells: seq<CellInput>): seq<Diagnostic> {
    bundleSays
    + (if policy.limits.Some? && !(1 <= policy.limits.value.maxAttachmentPlans <= MAX_COMBAT_ATTACHMENT_PLANS
                                && 1 <= policy.limits.value.maxJointVariants <= MAX_COMBAT_JOINT_VARIANTS)
       then [Diagnostic(InputDiagnostic("limits"), Unusable)] else [])
    + (if policy.resourceBudget.Some? && (!IsInteger(policy.resourceBudget.value) || policy.resourceBudget.value < 0.0)
       then [Diagnostic(InputDiagnostic("budget"), Unusable)] else [])
    + (if cells == [] then [Diagnostic(InputDiagnostic("no-cells"), Unusable)] else [])
    + IdDiagnostics(cells, {})
  }

  function IdDiagnostics(cells: seq<CellInput>, seen: set<string>): seq<Diagnostic> {
    if cells == [] then []
    else
      (if cells[0].cellId == "" || cells[0].cellId in seen then [Diagnostic(InputDiagnostic("cell-id"), Unusable)]
       else [])
      + IdDiagnostics(cells[1..], seen + {cells[0].cellId})
  }

  predicate AnyOffers(cells: seq<Cell>, id: string) {
    exists i :: 0 <= i < |cells| && id in cells[i].availableActivationIds
  }

  function UnresolvedOptions(options: seq<PolicyOption>, cells: seq<Cell>): seq<Diagnostic> {
    if options == [] then []
    else (if AnyOffers(cells, options[0].id) then [] else [Diagnostic(ActivationPolicyOptionUnresolved, Unusable)])
         + UnresolvedOptions(options[1..], cells)
  }

  function UndeclaredSelections(ids: seq<string>, options: seq<PolicyOption>): seq<Diagnostic> {
    if ids == [] then []
    else (if exists i :: 0 <= i < |options| &&
               options[i].id == ids[0] then [] else [Diagnostic(ActivationPolicySelectionUndeclared, Unusable)])
         + UndeclaredSelections(ids[1..], options)
  }

  /** `activationPolicyDiagnostics`. */
  function PolicyDiagnostics(policy: Policy, cells: seq<Cell>): seq<Diagnostic> {
    if policy.activationConstraints.None? then []
    else UnresolvedOptions(policy.activationConstraints.value.options, cells)
         + UndeclaredSelections(policy.selectedActivationIds, policy.activationConstraints.value.options)
  }

  // ---- What is said of the input and the policy ----

  ghost predicate LimitsSound(policy: Policy) {
    policy.limits.Some? ==>
      && 1 <= policy.limits.value.maxAttachmentPlans <= 16
      && 1 <= policy.limits.value.maxJointVariants <= 64
  }

  ghost predicate BudgetSound(policy: Policy) {
    policy.resourceBudget.Some? ==>
      policy.resourceBudget.value >= 0.0 && policy.resourceBudget.value.Floor as real == policy.resourceBudget.value
  }

  /** A cell without an id, or with the id of an earlier one. */
  ghost predicate IdUnsound(cells: seq<CellInput>, i: nat)
    requires i < |cells|
  {
    cells[i].cellId == "" || exists j :: 0 <= j < i && cells[j].cellId == cells[i].cellId
  }

  /** Exactly the diagnostics there are reasons for. */
  lemma InputSays(bundleSays: seq<Diagnostic>, policy: Policy, cells: seq<CellInput>, x: Diagnostic)
    ensures x in InputDiagnostics(bundleSays, policy, cells) <==>
            || x in bundleSays
            || (x == Diagnostic(InputDiagnostic("limits"), Unusable) && !LimitsSound(policy))
            || (x == Diagnostic(InputDiagnostic("budget"), Unusable) && !BudgetSound(policy))
            || (x == Diagnostic(InputDiagnostic("no-cells"), Unusable) && cells == [])
            || (x == Diagnostic(InputDiagnostic("cell-id"), Unusable) &&
                exists i :: 0 <= i < |cells| && IdUnsound(cells, i))
  {
    IdSays(cells, 0, {}, x);
    IntegerIff(policy);
    assert cells[0..] == cells;
    hide IdDiagnostics, IdUnsound, BudgetSound, IsInteger;
  }

  lemma IntegerIff(policy: Policy)
    ensures BudgetSound(policy) <==> policy.resourceBudget.Some? ==>
              IsInteger(policy.resourceBudget.value) && policy.resourceBudget.value >= 0.0
  {
  }

  lemma {:induction false} IdSays(cells: seq<CellInput>, i: nat, seen: set<string>, x: Diagnostic)
    requires i <= |cells| && forall id :: id in seen <==> exists j :: 0 <= j < i && cells[j].cellId == id
    ensures x in IdDiagnostics(cells[i..], seen) <==>
            x == Diagnostic(InputDiagnostic("cell-id"), Unusable) &&
            exists k :: i <= k < |cells| && IdUnsound(cells, k)
    decreases |cells| - i
  {
    if i < |cells| {
      assert cells[i..][0] == cells[i] && cells[i..][1..] == cells[i + 1..];
      IdSays(cells, i + 1, seen + {cells[i].cellId}, x);
      assert cells[i].cellId == "" || cells[i].cellId in seen <==> IdUnsound(cells, i);
      hide IdUnsound;
    }
  }

  /** An activation some cell offers, and one the catalogue declares. */
  ghost predicate Offered(cells: seq<Cell>, id: string) { exists c :: c in cells && id in c.availableActivationIds }

  ghost predicate Declared(options: seq<PolicyOption>, id: string) { exists o :: o in options && o.id == id }

  /** Under a catalogue: an option no cell offers, and a selection the catalogue does not declare. */
  lemma PolicySays(policy: Policy, cells: seq<Cell>, x: Diagnostic)
    ensures x in PolicyDiagnostics(policy, cells) <==>
            policy.activationConstraints.Some? &&
            var options := policy.activationConstraints.value.options;
            || (x == Diagnostic(ActivationPolicyOptionUnresolved, Unusable) &&
                exists o :: o in options && !Offered(cells, o.id))
            || (x == Diagnostic(ActivationPolicySelectionUndeclared, Unusable) &&
                exists id :: id in policy.selectedActivationIds && !Declared(options, id))
  {
    if policy.activationConstraints.Some? {
      UnresolvedSays(policy.activationConstraints.value.options, cells, x);
      UndeclaredSays(policy.selectedActivationIds, policy.activationConstraints.value.options, x);
    }
    hide UnresolvedOptions, UndeclaredSelections, Offered, Declared;
  }

  lemma {:induction false} UnresolvedSays(options: seq<PolicyOption>, cells: seq<Cell>, x: Diagnostic)
    ensures x in UnresolvedOptions(options, cells) <==>
            x == Diagnostic(ActivationPolicyOptionUnresolved, Unusable) &&
            exists o :: o in options && !Offered(cells, o.id)
  {
    if options != [] {
      UnresolvedSays(options[1..], cells, x);
      assert AnyOffers(cells, options[0].id) <==> Offered(cells, options[0].id);
      hide AnyOffers, Offered;
      assert forall o :: o in options <==> o == options[0] || o in options[1..];
    }
  }

  lemma {:induction false} UndeclaredSays(ids: seq<string>, options: seq<PolicyOption>, x: Diagnostic)
    ensures x in UndeclaredSelections(ids, options) <==>
            x == Diagnostic(ActivationPolicySelectionUndeclared, Unusable) &&
            exists id :: id in ids && !Declared(options, id)
  {
    if ids != [] {
      UndeclaredSays(ids[1..], options, x);
      assert Declared(options, ids[0]) <==> exists i :: 0 <= i < |options| && options[i].id == ids[0];
      hide Declared;
      assert forall id :: id in ids <==> id == ids[0] || id in ids[1..];
    }
  }

  /** Nothing is said of a sound input under a policy that is met. */
  lemma NothingSaidIff(bundleSays: seq<Diagnostic>, policy: Policy, cells: seq<CellInput>, compiled: seq<Cell>)
    ensures InputDiagnostics(bundleSays, policy, cells) + PolicyDiagnostics(policy, compiled) == [] <==>
            bundleSays == [] && InputSound(policy, cells) && PolicyMet(policy, compiled)
  {
    var a, b := InputDiagnostics(bundleSays, policy, cells), PolicyDiagnostics(policy, compiled);
    forall x ensures x in a <==>
      || x in bundleSays
      || (x == Diagnostic(InputDiagnostic("limits"), Unusable) && !LimitsSound(policy))
      || (x == Diagnostic(InputDiagnostic("budget"), Unusable) && !BudgetSound(policy))
      || (x == Diagnostic(InputDiagnostic("no-cells"), Unusable) && cells == [])
      || (x == Diagnostic(InputDiagnostic("cell-id"), Unusable) &&
          exists i :: 0 <= i < |cells| && IdUnsound(cells, i))
    {
      InputSays(bundleSays, policy, cells, x);
    }
    hide InputDiagnostics, LimitsSound, BudgetSound, IdUnsound;
    PolicyEmptyIff(policy, compiled);
    hide PolicyDiagnostics, PolicyMet;
    assert bundleSays != [] ==> bundleSays[0] in bundleSays;
    if a == [] {
      assert Diagnostic(InputDiagnostic("limits"), Unusable) !in a;
      assert Diagnostic(InputDiagnostic("budget"), Unusable) !in a;
      assert Diagnostic(InputDiagnostic("no-cells"), Unusable) !in a;
      assert Diagnostic(InputDiagnostic("cell-id"), Unusable) !in a;
    } else {
      assert a[0] in a;
    }
  }

  ghost predicate InputSound(policy: Policy, cells: seq<CellInput>) {
    && LimitsSound(policy) && BudgetSound(policy) && cells != []
    && forall i :: 0 <= i < |cells| ==> !IdUnsound(cells, i)
  }

  ghost predicate PolicyMet(policy: Policy, cells: seq<Cell>) {
    policy.activationConstraints.Some? ==>
      && (forall o :: o in policy.activationConstraints.value.options ==> Offered(cells, o.id))
      && (forall id :: id in policy.selectedActivationIds ==>
            Declared(policy.activationConstraints.value.options, id))
  }

  lemma PolicyEmptyIff(policy: Policy, cells: seq<Cell>)
    ensures PolicyDiagnostics(policy, cells) == [] <==> PolicyMet(policy, cells)
  {
    var b := PolicyDiagnostics(policy, cells);
    PolicySays(policy, cells, Diagnostic(ActivationPolicyOptionUnresolved, Unusable));
    PolicySays(policy, cells, Diagnostic(ActivationPolicySelectionUndeclared, Unusable));
    if b != [] { PolicySays(policy, cells, b[0]); }
    hide PolicyDiagnostics, Offered, Declared;
  }

  /** The values of a map keyed by mechanics digest: one cell per digest, the last one seen. */
  function LastByMechanics(cells: seq<Cell>): map<Digest, Cell> {
    if cells == [] then map[]
    else LastByMechanics(cells[..|cells| - 1])[cells[|cells| - 1].mechanicsSha256 := cells[|cells| - 1]]
  }

  /** Those values in insertion order. */
  function UniqueMechanics(cells: seq<Cell>): seq<Cell> {
    var last := LastByMechanics(cells);
    var keys := Dedup(MechanicsKeys(cells));
    MechanicsMembers(cells);
    seq(|keys|, i requires 0 <= i < |keys| => assert keys[i] in keys; last[keys[i]])
  }

  function MechanicsKeys(cells: seq<Cell>): seq<Digest> {
    if cells == [] then [] else MechanicsKeys(cells[..|cells| - 1]) + [cells[|cells| - 1].mechanicsSha256]
  }

  lemma {:induction false} MechanicsMembers(cells: seq<Cell>)
    ensures forall k :: k in MechanicsKeys(cells) <==> k in LastByMechanics(cells)
    ensures forall c :: c in cells ==> c.mechanicsSha256 in LastByMechanics(cells)
    ensures forall k :: k in LastByMechanics(cells) ==>
              LastByMechanics(cells)[k] in cells && LastByMechanics(cells)[k].mechanicsSha256 == k
  {
    if cells != [] {
      var n := |cells| - 1;
      MechanicsMembers(cells[..n]);
      assert cells == cells[..n] + [cells[n]];
    }
  }

  function SealBridge(lib: Library, bundle: string, policy: Policy, cells: seq<Cell>,
                      diagnostics: seq<Diagnostic>): Bridge {
    var coverage := AggregateCoverage(CellCoverages(UniqueMechanics(cells)), diagnostics);
    var open := Bridge(BRIDGE_SCHEMA, BRIDGE_KIND, THIS_COMPILER, bundle, policy, lib.hash(PolicyPre(policy)), cells,
                       coverage, COVERAGE_UNIT, diagnostics, CellIndexSha(lib.hash, cells), "");
    open.(bridgeSha256 := BridgeSha(lib.hash, open, open.cellIndexSha256))
  }

  function CellCoverages(cells: seq<Cell>): seq<Coverage> {
    seq(|cells|, i requires 0 <= i < |cells| => cells[i].coverage)
  }

  ghost function CompiledBridge(lib: Library, bundle: string, bundleSays: seq<Diagnostic>, policy: Policy,
                                cells: seq<CellInput>): Bridge {
    var compiled := CompileEach(lib, policy, SortBy(ByKey(CellKey()), cells));
    SealBridge(lib, bundle, policy, compiled,
               InputDiagnostics(bundleSays, policy, cells) + PolicyDiagnostics(policy, compiled))
  }

  method CompileCombatBridgeV2(lib: Library, bundle: string, bundleSays: seq<Diagnostic>, policy: Policy,
                               cells: seq<CellInput>)
    returns (bridge: Bridge)
    ensures BridgeBound(lib.hash, bridge) && bridge.compiler == THIS_COMPILER && bridge.policy == policy &&
            bridge.bundle == bundle
    ensures NoCollision(lib.hash, KeyObjects(cells)) ==>
            bridge == CompiledBridge(lib, bundle, bundleSays, policy, cells)
  {
    hide SealBridge, InputDiagnostics, PolicyDiagnostics, CompileEach, SortBy, CellBound;
    var diagnostics := InputDiagnostics(bundleSays, policy, cells);
    var compiled := CompileCells(lib, policy, cells);
    diagnostics := diagnostics + PolicyDiagnostics(policy, compiled);
    SealedBridgeBound(lib, bundle, policy, compiled, diagnostics);
    return SealBridge(lib, bundle, policy, compiled, diagnostics);
  }

  // ---- What a compiled bridge is worth ----

  lemma SealedBridgeBound(lib: Library, bundle: string, policy: Policy, cells: seq<Cell>, diagnostics: seq<Diagnostic>)
    requires forall c :: c in cells ==> CellBound(lib.hash, c)
    ensures var b := SealBridge(lib, bundle, policy, cells, diagnostics);
            BridgeBound(lib.hash, b) && b.compiler == THIS_COMPILER && b.policy == policy && b.bundle == bundle
  {
    hide AggregateCoverage, CellBound, UniqueMechanics, CellCoverages;
  }

  /** Every compiled bridge verifies. */
  lemma CompiledBridgeVerifies(lib: Library, bundle: string, bundleSays: seq<Diagnostic>, policy: Policy,
                               cells: seq<CellInput>)
    ensures BridgeBound(lib.hash, CompiledBridge(lib, bundle, bundleSays, policy, cells))
    ensures CompiledBridge(lib, bundle, bundleSays, policy, cells).compiler == THIS_COMPILER
  {
    hide CompiledCell, SortBy, InputDiagnostics, PolicyDiagnostics, AggregateCoverage, CellBound;
    var b := CompiledBridge(lib, bundle, bundleSays, policy, cells);
    forall c | c in b.cells ensures CellBound(lib.hash, c) {
      var i :| 0 <= i < |b.cells| && b.cells[i] == c;
      CompiledCellBound(lib, SortBy(ByKey(CellKey()), cells)[i], policy);
    }
  }

  /** The mechanics whose digests the bridge counts its cells by. */
  function AllMechanics(cells: seq<Cell>): set<Preimage> { set c | c in cells :: MechanicsObject(c) }

  lemma SameMechanicsSameCoverage(lib: Library, cells: seq<Cell>, c: Cell, d: Cell)
    requires NoCollision(lib.hash, AllMechanics(cells)) && c in cells && d in cells
    requires CellBound(lib.hash, c) && CellBound(lib.hash, d) && c.mechanicsSha256 == d.mechanicsSha256
    ensures c.coverage == d.coverage
  {
    assert MechanicsObject(c) in AllMechanics(cells) && MechanicsObject(d) in AllMechanics(cells);
  }

  /** Counting one cell per mechanics digest loses no cell: equal digests mean equal coverage. */
  lemma UniqueMechanicsSpeakForAll(lib: Library, cells: seq<Cell>)
    requires NoCollision(lib.hash, AllMechanics(cells)) && forall c :: c in cells ==> CellBound(lib.hash, c)
    ensures forall c :: c in cells ==> exists u :: u in UniqueMechanics(cells) && u.coverage == c.coverage
    ensures forall u :: u in UniqueMechanics(cells) ==> u in cells
  {
    hide CellBound;
    MechanicsMembers(cells);
    var last, keys, unique := LastByMechanics(cells), Dedup(MechanicsKeys(cells)), UniqueMechanics(cells);
    forall c | c in cells ensures exists u :: u in unique && u.coverage == c.coverage {
      var key := c.mechanicsSha256;
      assert key in keys;
      var i :| 0 <= i < |keys| && keys[i] == key;
      assert unique[i] in unique;
      SameMechanicsSameCoverage(lib, cells, c, unique[i]);
    }
    forall u | u in unique ensures u in cells {
      var i :| 0 <= i < |unique| && unique[i] == u;
      assert keys[i] in keys;
    }
  }

  lemma AllCoverages(cells: seq<Cell>)
    ensures (forall k :: k in CellCoverages(cells) ==> k.status == Complete) <==>
            (forall c :: c in cells ==> c.coverage.status == Complete)
  {
    var coverages := CellCoverages(cells);
    if forall k :: k in coverages ==> k.status == Complete {
      forall c | c in cells ensures c.coverage.status == Complete {
        var i :| 0 <= i < |cells| && cells[i] == c;
        assert coverages[i] in coverages;
      }
    }
  }

  /** The bridge is complete exactly when nothing is said against it and every cell is complete. */
  lemma BridgeCompleteIff(lib: Library, bundle: string, policy: Policy, cells: seq<Cell>, diagnostics: seq<Diagnostic>)
    requires NoCollision(lib.hash, AllMechanics(cells)) && forall c :: c in cells ==> CellBound(lib.hash, c)
    ensures SealBridge(lib, bundle, policy, cells, diagnostics).coverage.status == Complete <==>
      diagnostics == [] && forall c :: c in cells ==> c.coverage.status == Complete
  {
    hide CellBound, LastByMechanics, UniqueMechanics, AggregateCoverage, CellCoverages;
    UniqueMechanicsSpeakForAll(lib, cells);
    AggregateCompleteIff(CellCoverages(UniqueMechanics(cells)), diagnostics);
    AllCoverages(UniqueMechanics(cells));
  }

  /**
    A decision-grade bridge: the input is sound, every option of a catalogue is offered and every selection
    declared, and every cell the caller asked for is compiled, whole, and exact.
   */
  lemma DecisionGradeBridge(lib: Library, bundle: string, bundleSays: seq<Diagnostic>, policy: Policy,
                            cells: seq<CellInput>)
    requires NoCollision(lib.hash, AllMechanics(CompiledBridge(lib, bundle, bundleSays, policy, cells).cells))
    requires CompiledBridge(lib, bundle, bundleSays, policy, cells).coverage.claimEligibility == DecisionGrade
    ensures bundleSays == [] && InputSound(policy, cells)
    ensures PolicyMet(policy, CompiledBridge(lib, bundle, bundleSays, policy, cells).cells)
    ensures forall cell :: cell in cells ==>
      var c := CompiledCell(lib, cell, policy);
      && c in CompiledBridge(lib, bundle, bundleSays, policy, cells).cells
      && c.variants != [] && CellCoverage.FullProduct(lib, cell, policy, c.variants)
      && forall v :: v in c.variants ==>
           CellCoverage.ExactEffects(v) && CellCoverage.Answers(lib, cell, policy, v)
  {
    hide CompiledCell, SortBy, InputDiagnostics, PolicyDiagnostics, AggregateCoverage, CellBound, UniqueMechanics,
      CellCoverage.FullProduct, CellCoverage.ExactEffects, CellCoverage.Answers, InputSound, PolicyMet;
    var sorted := SortBy(ByKey(CellKey()), cells);
    var compiled := CompileEach(lib, policy, sorted);
    var b := CompiledBridge(lib, bundle, bundleSays, policy, cells);
    CompiledBridgeVerifies(lib, bundle, bundleSays, policy, cells);
    GradeMeansComplete(CellCoverages(UniqueMechanics(compiled)), b.diagnostics);
    BridgeCompleteIff(lib, bundle, policy, compiled, b.diagnostics);
    NothingSaidIff(bundleSays, policy, cells, compiled);
    SortByMembers(ByKey(CellKey()), cells);
    forall cell | cell in cells
      ensures var c := CompiledCell(lib, cell, policy);
              && c in b.cells && c.variants != [] && CellCoverage.FullProduct(lib, cell, policy, c.variants)
              && forall v :: v in c.variants ==>
                   CellCoverage.ExactEffects(v) && CellCoverage.Answers(lib, cell, policy, v)
    {
      var i :| 0 <= i < |sorted| && sorted[i] == cell;
      assert compiled[i] in compiled;
      CellCoverage.CompleteCellIsWhole(lib, cell, policy);
    }
  }

  lemma GradeMeansComplete(coverages: seq<Coverage>, diagnostics: seq<Diagnostic>)
    ensures AggregateCoverage(coverages, diagnostics).claimEligibility == DecisionGrade <==>
            AggregateCoverage(coverages, diagnostics).status == Complete
  {}
}
