/**
  lib/rosterpilot/combat-bridge.ts, the records of a combat bridge. `canonicalJson` followed by
  `sha256Hex` is one function from `Preimage` values to digests: every constructor below is one
  object the source hashes.
 */
module BridgeTypes {
  import opened Wrappers
  import opened CombatTypes

  type Digest = string

  datatype Plan = Plan(id: string, selection: Selection)

  datatype Phase = Shooting | Fight

  /** `rest` stands for the scenario fields that are only handed on to the translator. */
  datatype Scenario = Scenario(
    phase: Phase,
    distanceInches: Option<real>,
    attackerAttached: Option<bool>,
    targetAttached: Option<bool>,
    rest: string)

  datatype Participant = Participant(rosterId: string, selectionId: string, unitId: string, factionId: string,
                                     keywords: seq<string>)

  datatype RuleVariant = RuleVariant(attachmentPlan: Plan, attackerRules: seq<string>, targetRules: seq<string>)

  datatype CellInput = CellInput(
    cellId: string,
    direction: string,
    metric: string,
    attacker: Participant,
    target: Participant,
    scenario: Scenario,
    ruleVariants: seq<RuleVariant>)

  datatype EffectStatus = Modeled | Approximated | Omitted | NotApplicable

  datatype Contribution = Contribution(kind: string, roll: Option<string>, payload: string)

  datatype Effect = Effect(effectId: string, status: EffectStatus, contribution: Option<Contribution>,
                           provenance: string)

  datatype CoverageStatus = Complete | PartialCoverage | UnusableCoverage

  datatype Claim = DecisionGrade | Provisional | NoClaim

  datatype Coverage = Coverage(
    status: CoverageStatus,
    claimEligibility: Claim,
    modeledEffects: nat,
    approximatedEffects: nat,
    omittedEffects: nat,
    notApplicableEffects: nat)

  datatype Resolved = Resolved(attacker: string, target: string)

  datatype BridgeVariant = BridgeVariant(
    variantId: string,
    variantSha256: Digest,
    attachmentPlan: Plan,
    activation: Variant,
    effects: seq<Effect>,
    resolvedByPerspective: Resolved,
    resolved: string,
    coverage: Coverage)

  datatype Cell = Cell(
    cellId: string,
    direction: string,
    metric: string,
    mechanicsSha256: Digest,
    scenarioSha256: Digest,
    attacker: Participant,
    target: Participant,
    scenario: Scenario,
    variants: seq<BridgeVariant>,
    availableActivationIds: seq<string>,
    coverage: Coverage,
    diagnostics: seq<Diagnostic>,
    variantIndexSha256: Digest,
    cellSha256: Digest)

  datatype Compiler = Compiler(version: string, effectVocabularyVersion: string, hashContractVersion: string,
                               rulesCompiler: string)

  datatype Bridge = Bridge(
    schemaVersion: int,
    kind: string,
    compiler: Compiler,
    bundle: string,
    policy: Policy,
    policySha256: Digest,
    cells: seq<Cell>,
    coverage: Coverage,
    coverageUnit: string,
    diagnostics: seq<Diagnostic>,
    cellIndexSha256: Digest,
    bridgeSha256: Digest)

  const HASH_CONTRACT := "merkle-index-v1"
  const BRIDGE_KIND := "rosterpilot-combat-bridge"
  const COVERAGE_UNIT := "unique-mechanics-cell"
  const BRIDGE_SCHEMA := 2
  const THIS_COMPILER := Compiler("bundle-rules-effects-v2", "40kdc-buffs-v1", HASH_CONTRACT,
                                  "@alpaca-software/40kdc-data@1.2.1")

  datatype Preimage =
    | PolicyPre(policy: Policy)
    | ScenarioPre(scenario: Scenario)
    | CellInputPre(attacker: Participant, target: Participant, scenario: Scenario, ruleVariants: seq<RuleVariant>)
    | VariantPre(plan: Plan, activation: Variant, effects: seq<Effect>, split: Resolved, resolved: string,
                 coverage: Coverage)
    | IndexPre(entries: seq<(string, Digest)>)
    | MechanicsPre(mechanics: MechanicsBody)
    | CellPre(cellId: string, direction: string, metric: string, mechanicsSha256: Digest, mechanics: MechanicsBody)
    | BridgePre(schemaVersion: int, kind: string, compiler: Compiler, bundle: string, policySha256: Digest,
                cellCount: nat,
                cellIndexSha256: Digest, coverage: Coverage, coverageUnit: string, diagnostics: seq<Diagnostic>)

  datatype MechanicsBody = MechanicsBody(
    hashContractVersion: string,
    scenarioSha256: Digest,
    attacker: Participant,
    target: Participant,
    variantCount: nat,
    variantIndexSha256: Digest,
    availableActivationIds: seq<string>,
    coverage: Coverage,
    diagnostics: seq<Diagnostic>)

  type Hash = Preimage -> Digest

  /** No two of the listed objects share a digest. */
  ghost predicate NoCollision(hash: Hash, objects: set<Preimage>) {
    forall x, y :: x in objects && y in objects && hash(x) == hash(y) ==> x == y
  }
}
