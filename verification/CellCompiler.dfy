/**
  lib/rosterpilot/combat-bridge.ts:1106-1160, 1730-1968, 2100-2335: effects, coverage, and the
  compilation of one combat cell. The rule translator and the modifier resolver are library code
  and enter as functions.
 */
module CellCompiler {
  import opened Wrappers
  import opened Ordering
  import opened CombatTypes
  import opened BridgeTypes
  import opened BridgeHash
  import ActivationEnvelope
  import ActivationWalk
  import ActivationSubsets
  import ActivationEnumeration
  import AttachmentEnvelope

  // ---- Translation ----

  datatype Perspective = Attacker | Target

  datatype Context = Context(
    perspective: Perspective,
    phase: Phase,
    distanceInches: Option<real>,
    attackerKeywords: seq<string>,
    targetKeywords: seq<string>,
    attached: bool,
    rest: string)

  datatype Applicability = Applicability(
    phases: Option<seq<Phase>>,
    requiresAttackerKeyword: Option<string>,
    requiresTargetKeyword: Option<string>,
    maxRangeInches: Option<real>,
    rollType: Option<string>)

  datatype SourcedBuff = SourcedBuff(
    effectId: string,
    provenance: string,
    perspective: Perspective,
    contribution: Contribution,
    applicableWhen: Option<Applicability>,
    phaseMappingApproximated: bool)

  datatype InternalLever = InternalLever(lever: Lever, buffs: seq<SourcedBuff>)

  datatype Translation = Translation(
    baseBuffs: seq<SourcedBuff>,
    levers: seq<InternalLever>,
    fixedEffects: seq<Effect>,
    diagnostics: seq<Diagnostic>)

  /**
    The code the bridge calls and does not contain: `translateRules`, `resolveBuffs`, lower-casing, and trimming
    followed by lower-casing.
   */
  datatype Library = Library(
    hash: Hash,
    translate: (seq<string>, string, Context) -> Translation,
    resolve: (seq<SourcedBuff>, Context) -> string,
    lower: string -> string,
    fold: string -> string)

  function Folded(lib: Library, values: seq<string>): seq<string> {
    if values == [] then []
    else (if lib.fold(values[0]) != "" then [lib.fold(values[0])] else []) + Folded(lib, values[1..])
  }

  function NormalizedKeywords(lib: Library, values: seq<string>): seq<string> { SortedUnique(Folded(lib, values)) }

  predicate AttachesSelection(bindings: seq<Binding>, id: string) {
    exists i :: 0 <= i < |bindings| &&
      (bindings[i].leader == id || bindings[i].bodyguard == id || id in bindings[i].supports)
  }

  /** `contextFor`: what a rule of one side is translated against. */
  function ContextFor(lib: Library, cell: CellInput, plan: Plan, perspective: Perspective): Context {
    var attacking := perspective == Attacker;
    var explicit := if attacking then cell.scenario.attackerAttached else cell.scenario.targetAttached;
    var inferred := if attacking then AttachesSelection(plan.selection.attacker, cell.attacker.selectionId)
                    else AttachesSelection(plan.selection.target, cell.target.selectionId);
    Context(perspective, cell.scenario.phase, cell.scenario.distanceInches,
            NormalizedKeywords(lib, if attacking then cell.attacker.keywords else cell.target.keywords),
            NormalizedKeywords(lib, if attacking then cell.target.keywords else cell.attacker.keywords),
            if explicit.Some? then explicit.value else inferred,
            cell.scenario.rest)
  }

  function TranslationOf(lib: Library, cell: CellInput, rv: RuleVariant, perspective: Perspective): Translation {
    if perspective == Attacker then
      lib.translate(rv.attackerRules, cell.attacker.selectionId, ContextFor(lib, cell, rv.attachmentPlan, Attacker))
    else
      lib.translate(rv.targetRules, cell.target.selectionId, ContextFor(lib, cell, rv.attachmentPlan, Target))
  }

  // ---- The status of one effect ----

  predicate Lacks(lib: Library, keywords: seq<string>, required: Option<string>) {
    required.Some? && required.value != "" && lib.lower(required.value) !in NormalizedKeywords(lib, keywords)
  }

  function ApplicabilityStatus(lib: Library, when: Option<Applicability>, context: Context): EffectStatus {
    if when.None? then Modeled
    else
      var w := when.value;
      if w.phases.Some? && context.phase !in w.phases.value then NotApplicable
      else if Lacks(lib, context.attackerKeywords, w.requiresAttackerKeyword) then NotApplicable
      else if Lacks(lib, context.targetKeywords, w.requiresTargetKeyword) then NotApplicable
      else if w.maxRangeInches.Some? && context.distanceInches.None? then Approximated
      else if w.maxRangeInches.Some? && context.distanceInches.value > w.maxRangeInches.value then NotApplicable
      else Modeled
  }

  /** `effectFromBuff`: the status, which is also what decides inclusion. */
  function BuffStatus(lib: Library, buff: SourcedBuff, context: Context, active: bool): EffectStatus {
    if !active then NotApplicable
    else if buff.applicableWhen.Some? && buff.applicableWhen.value.rollType.Some?
         && buff.applicableWhen.value.rollType.value != ""
         && buff.contribution.kind == "reroll"
         && buff.contribution.roll != buff.applicableWhen.value.rollType then NotApplicable
    else if buff.phaseMappingApproximated && ApplicabilityStatus(lib, buff.applicableWhen, context) == Modeled then
      Approximated
    else ApplicabilityStatus(lib, buff.applicableWhen, context)
  }

  // ---- Coverage ----

  function CountStatus(effects: seq<Effect>, status: EffectStatus): nat {
    if effects == [] then 0 else (if effects[0].status == status then 1 else 0) + CountStatus(effects[1..], status)
  }

  function ClaimFor(status: CoverageStatus): Claim {
    match status
    case Complete => DecisionGrade
    case PartialCoverage => Provisional
    case UnusableCoverage => NoClaim
  }

  /** `coverageFrom`. */
  function CoverageFrom(effects: seq<Effect>, diagnostics: seq<Diagnostic>): Coverage {
    var approximated, omitted := CountStatus(effects, Approximated), CountStatus(effects, Omitted);
    var status :=
      if HasUnusable(diagnostics) then UnusableCoverage
      else if approximated > 0 || omitted > 0 || HasPartial(diagnostics) then PartialCoverage
      else Complete;
    Coverage(status, ClaimFor(status), CountStatus(effects, Modeled), approximated, omitted,
             CountStatus(effects, NotApplicable))
  }

  function SumBy(coverages: seq<Coverage>, count: Coverage -> nat): nat {
    if coverages == [] then 0 else count(coverages[0]) + SumBy(coverages[1..], count)
  }

  predicate AnyStatus(coverages: seq<Coverage>, status: CoverageStatus) {
    exists c :: c in coverages && c.status == status
  }

  /** `aggregateCoverage`. */
  function AggregateCoverage(coverages: seq<Coverage>, diagnostics: seq<Diagnostic>): Coverage {
    var status :=
      if HasUnusable(diagnostics) || AnyStatus(coverages, UnusableCoverage) then UnusableCoverage
      else if HasPartial(diagnostics) || AnyStatus(coverages, PartialCoverage) then PartialCoverage
      else Complete;
    Coverage(status, ClaimFor(status),
             SumBy(coverages, (c: Coverage) => c.modeledEffects),
             SumBy(coverages, (c: Coverage) => c.approximatedEffects),
             SumBy(coverages, (c: Coverage) => c.omittedEffects),
             SumBy(coverages, (c: Coverage) => c.notApplicableEffects))
  }

  lemma {:induction false} CountStatusZero(effects: seq<Effect>, status: EffectStatus)
    ensures CountStatus(effects, status) == 0 <==> forall e :: e in effects ==> e.status != status
  {
    if effects != [] {
      CountStatusZero(effects[1..], status);
      assert effects == [effects[0]] + effects[1..];
    }
  }

  /** Severity is partial or unusable, so a clean list is an empty one. */
  lemma NoSeverityNoDiagnostic(diagnostics: seq<Diagnostic>)
    ensures !HasUnusable(diagnostics) && !HasPartial(diagnostics) <==> diagnostics == []
  {
    if diagnostics != [] { assert diagnostics[0] in diagnostics; }
  }

  lemma VariantCompleteIff(effects: seq<Effect>, diagnostics: seq<Diagnostic>)
    ensures CoverageFrom(effects, diagnostics).status == Complete <==>
      diagnostics == [] && forall e :: e in effects ==> e.status == Modeled || e.status == NotApplicable
  {
    CountStatusZero(effects, Approximated);
    CountStatusZero(effects, Omitted);
    NoSeverityNoDiagnostic(diagnostics);
  }

  function StatusesOf(effects: seq<Effect>): seq<EffectStatus> {
    seq(|effects|, i requires 0 <= i < |effects| => effects[i].status)
  }

  lemma {:induction false} CountStatusIs(effects: seq<Effect>, status: EffectStatus)
    ensures CountStatus(effects, status) == multiset(StatusesOf(effects))[status]
  {
    if effects != [] {
      CountStatusIs(effects[1..], status);
      assert StatusesOf(effects) == [effects[0].status] + StatusesOf(effects[1..]);
    }
  }

  /** What a coverage says of its effects and diagnostics: every count, the status and the claim. */
  lemma CoverageSays(effects: seq<Effect>, diagnostics: seq<Diagnostic>)
    ensures var c := CoverageFrom(effects, diagnostics);
            && c.modeledEffects == multiset(StatusesOf(effects))[Modeled]
            && c.approximatedEffects == multiset(StatusesOf(effects))[Approximated]
            && c.omittedEffects == multiset(StatusesOf(effects))[Omitted]
            && c.notApplicableEffects == multiset(StatusesOf(effects))[NotApplicable]
            && (c.status == UnusableCoverage <==> exists d :: d in diagnostics && d.severity == Unusable)
            && (c.status == Complete <==>
                  diagnostics == [] && forall e :: e in effects ==> e.status == Modeled || e.status == NotApplicable)
            && ClaimFits(c)
  {
    CountStatusIs(effects, Modeled);
    CountStatusIs(effects, Approximated);
    CountStatusIs(effects, Omitted);
    CountStatusIs(effects, NotApplicable);
    VariantCompleteIff(effects, diagnostics);
    hide CountStatus, StatusesOf;
  }

  /** Decision-grade exactly when complete, no claim exactly when unusable. */
  predicate ClaimFits(c: Coverage) {
    && (c.claimEligibility == DecisionGrade <==> c.status == Complete)
    && (c.claimEligibility == NoClaim <==> c.status == UnusableCoverage)
  }

  lemma {:induction false} SumByLast(coverages: seq<Coverage>, c: Coverage, count: Coverage -> nat)
    ensures SumBy(coverages + [c], count) == SumBy(coverages, count) + count(c)
  {
    if coverages == [] {
      assert [c][1..] == [];
    } else {
      SumByLast(coverages[1..], c, count);
      assert (coverages + [c])[1..] == coverages[1..] + [c];
    }
  }

  /** What an aggregate says of its parts: statuses, and counts that add up part by part. */
  lemma AggregateSays(coverages: seq<Coverage>, c: Coverage, diagnostics: seq<Diagnostic>)
    ensures var none := AggregateCoverage([], diagnostics);
            none.modeledEffects == none.approximatedEffects == none.omittedEffects == none.notApplicableEffects == 0
    ensures var before, after := AggregateCoverage(coverages, diagnostics),
                                 AggregateCoverage(coverages + [c], diagnostics);
            && after.modeledEffects == before.modeledEffects + c.modeledEffects
            && after.approximatedEffects == before.approximatedEffects + c.approximatedEffects
            && after.omittedEffects == before.omittedEffects + c.omittedEffects
            && after.notApplicableEffects == before.notApplicableEffects + c.notApplicableEffects
    ensures var a := AggregateCoverage(coverages, diagnostics);
            && ClaimFits(a)
            && (a.status == UnusableCoverage <==>
                  || (exists d :: d in diagnostics && d.severity == Unusable)
                  || exists p :: p in coverages && p.status == UnusableCoverage)
            && (a.status == Complete <==> diagnostics == [] && forall p :: p in coverages ==> p.status == Complete)
  {
    SumByLast(coverages, c, (c: Coverage) => c.modeledEffects);
    SumByLast(coverages, c, (c: Coverage) => c.approximatedEffects);
    SumByLast(coverages, c, (c: Coverage) => c.omittedEffects);
    SumByLast(coverages, c, (c: Coverage) => c.notApplicableEffects);
    AggregateCompleteIff(coverages, diagnostics);
  }

  lemma AggregateCompleteIff(coverages: seq<Coverage>, diagnostics: seq<Diagnostic>)
    ensures AggregateCoverage(coverages, diagnostics).status == Complete <==>
      diagnostics == [] && forall c :: c in coverages ==> c.status == Complete
  {
    NoSeverityNoDiagnostic(diagnostics);
  }

  // ---- One variant ----

  datatype BuffEntry = BuffEntry(buff: SourcedBuff, active: bool)

  function Entries(buffs: seq<SourcedBuff>, active: bool): seq<BuffEntry> {
    seq(|buffs|, i requires 0 <= i < |buffs| => BuffEntry(buffs[i], active))
  }

  function LeverEntries(levers: seq<InternalLever>, activeIds: seq<string>): seq<BuffEntry> {
    if levers == [] then []
    else Entries(levers[0].buffs, levers[0].lever.id in activeIds) + LeverEntries(levers[1..], activeIds)
  }

  function TranslationEntries(t: Translation, activeIds: seq<string>): seq<BuffEntry> {
    Entries(t.baseBuffs, true) + LeverEntries(t.levers, activeIds)
  }

  function EntryStatus(lib: Library, e: BuffEntry, attackerContext: Context, targetContext: Context): EffectStatus {
    BuffStatus(lib, e.buff, if e.buff.perspective == Attacker then attackerContext else targetContext, e.active)
  }

  function Mapped(lib: Library, entries: seq<BuffEntry>, attackerContext: Context,
                  targetContext: Context): seq<Effect> {
    seq(|entries|, i requires 0 <= i < |entries| =>
      Effect(entries[i].buff.effectId, EntryStatus(lib, entries[i], attackerContext, targetContext),
             Some(entries[i].buff.contribution), entries[i].buff.provenance))
  }

  /** The buffs that count, optionally of one side only. */
  function Included(lib: Library, entries: seq<BuffEntry>, attackerContext: Context, targetContext: Context,
                    side: Option<Perspective>): seq<SourcedBuff> {
    if entries == [] then []
    else
      (if EntryStatus(lib, entries[0], attackerContext, targetContext) != NotApplicable &&
       (side.None? || entries[0].buff.perspective == side.value)
       then [entries[0].buff.(applicableWhen := None)] else []) +
      Included(lib, entries[1..], attackerContext, targetContext, side)
  }

  predicate EffectBefore(a: Effect, b: Effect) { StringLess(a.effectId, b.effectId) }

  /** `compileVariant`. */
  function CompileVariant(lib: Library, cell: CellInput, rv: RuleVariant, activation: Variant,
                          diagnostics: seq<Diagnostic>): BridgeVariant {
    var attackerContext := ContextFor(lib, cell, rv.attachmentPlan, Attacker);
    var targetContext := ContextFor(lib, cell, rv.attachmentPlan, Target);
    var a, t := TranslationOf(lib, cell, rv, Attacker), TranslationOf(lib, cell, rv, Target);
    var entries := TranslationEntries(a, activation.activeIds) + TranslationEntries(t, activation.activeIds);
    var effects := SortBy(EffectBefore,
                          a.fixedEffects + t.fixedEffects + Mapped(lib, entries, attackerContext, targetContext));
    var coverage := CoverageFrom(effects, diagnostics + a.diagnostics + t.diagnostics);
    var split := Resolved(lib.resolve(Included(lib, entries, attackerContext, targetContext, Some(Attacker)),
                                      attackerContext),
                          lib.resolve(Included(lib, entries, attackerContext, targetContext, Some(Target)),
                                      targetContext));
    var resolved := lib.resolve(Included(lib, entries, attackerContext, targetContext, None), attackerContext);
    var plan := AttachmentEnvelope.NormalizePlan(rv.attachmentPlan);
    var digest := lib.hash(VariantPre(plan, activation, effects, split, resolved, coverage));
    BridgeVariant(ShortId(digest), digest, plan, activation, effects, split, resolved, coverage)
  }

  // ---- One cell ----

  datatype Joint = Joint(ruleVariant: RuleVariant, activation: Variant, diagnostics: seq<Diagnostic>)

  function JointLimit(policy: Policy): (limit: nat)
    ensures 1 <= limit <= MAX_COMBAT_JOINT_VARIANTS
    ensures policy.limits.None? ==> limit == 64
    ensures policy.limits.Some? && 1 <= policy.limits.value.maxJointVariants <= 64 ==>
              limit == policy.limits.value.maxJointVariants
    ensures policy.limits.Some? && policy.limits.value.maxJointVariants > 64 ==> limit == 64
    ensures policy.limits.Some? && policy.limits.value.maxJointVariants < 1 ==> limit == 1
  {
    var wanted := if policy.limits.Some? then policy.limits.value.maxJointVariants else MAX_COMBAT_JOINT_VARIANTS;
    if wanted < 1 then 1 else if wanted > MAX_COMBAT_JOINT_VARIANTS then MAX_COMBAT_JOINT_VARIANTS else wanted
  }

  function LeversOf(lib: Library, cell: CellInput, rv: RuleVariant): seq<Lever> {
    var internal := TranslationOf(lib, cell, rv, Attacker).levers + TranslationOf(lib, cell, rv, Target).levers;
    seq(|internal|, i requires 0 <= i < |internal| => internal[i].lever)
  }

  function ActivationsOf(lib: Library, cell: CellInput, policy: Policy, rv: RuleVariant): EnvelopeResult<Variant> {
    ActivationEnumeration.ActivationEnvelopeOf(LeversOf(lib, cell, rv), policy, Some(JointLimit(policy) as real))
  }

  function Paired(rv: RuleVariant, r: EnvelopeResult<Variant>): seq<Joint> {
    if !r.valid then [] else seq(|r.items|, i requires 0 <= i < |r.items| => Joint(rv, r.items[i], r.diagnostics))
  }

  function JointOf(lib: Library, cell: CellInput, policy: Policy, plans: seq<RuleVariant>): seq<Joint> {
    if plans == [] then []
    else
      var n := |plans| - 1;
      JointOf(lib, cell, policy, plans[..n]) + Paired(plans[n], ActivationsOf(lib, cell, policy, plans[n]))
  }

  function PlanDiagnostics(lib: Library, cell: CellInput, policy: Policy, plans: seq<RuleVariant>): seq<Diagnostic> {
    if plans == [] then []
    else
      var n := |plans| - 1;
      PlanDiagnostics(lib, cell, policy, plans[..n]) + ActivationsOf(lib, cell, policy, plans[n]).diagnostics
  }

  function LeverIds(lib: Library, cell: CellInput, plans: seq<RuleVariant>): seq<string> {
    if plans == [] then []
    else
      var n := |plans| - 1;
      LeverIds(lib, cell, plans[..n]) + KeysOf(ActivationEnumeration.LeverId(), LeversOf(lib, cell, plans[n]))
  }

  predicate JointBefore(a: Joint, b: Joint) {
    var p, q := a.ruleVariant.attachmentPlan, b.ruleVariant.attachmentPlan;
    if |a.activation.activeIds| != |b.activation.activeIds| then |a.activation.activeIds| < |b.activation.activeIds|
    else if AttachmentEnvelope.IsEmptyPlan(p) != AttachmentEnvelope.IsEmptyPlan(q) then
      AttachmentEnvelope.IsEmptyPlan(p)
    else if p.id != q.id then StringLess(p.id, q.id)
    else StringLess(a.activation.id, b.activation.id)
  }

  function CompileJoint(lib: Library, cell: CellInput, j: Joint): BridgeVariant {
    CompileVariant(lib, cell, j.ruleVariant, j.activation, j.diagnostics)
  }

  function CompileAll(lib: Library, cell: CellInput, joint: seq<Joint>): seq<BridgeVariant> {
    seq(|joint|, i requires 0 <= i < |joint| => CompileJoint(lib, cell, joint[i]))
  }

  function CoveragesOf(variants: seq<BridgeVariant>): seq<Coverage> {
    seq(|variants|, i requires 0 <= i < |variants| => variants[i].coverage)
  }

  /** The last part of `compileCell`: coverage and the hash tree over the compiled variants. */
  function SealCell(lib: Library, cell: CellInput, variants: seq<BridgeVariant>, available: seq<string>,
                    diagnostics: seq<Diagnostic>): Cell {
    var coverage := AggregateCoverage(CoveragesOf(variants), diagnostics);
    var open := Cell(cell.cellId, cell.direction, cell.metric, "", lib.hash(ScenarioPre(cell.scenario)),
                     cell.attacker.(keywords := NormalizedKeywords(lib, cell.attacker.keywords)),
                     cell.target.(keywords := NormalizedKeywords(lib, cell.target.keywords)),
                     cell.scenario, variants, available, coverage, diagnostics,
                     VariantIndexSha(lib.hash, variants), "");
    var hashed := open.(mechanicsSha256 := MechanicsSha(lib.hash, open, open.variantIndexSha256));
    hashed.(cellSha256 := CellSha(lib.hash, hashed, hashed.mechanicsSha256, hashed.variantIndexSha256))
  }

  ghost function PlansOf(cell: CellInput, policy: Policy): seq<RuleVariant> {
    var r := AttachmentEnvelope.AttachmentEnvelopeOf(cell.ruleVariants, policy);
    if r.valid then r.items else []
  }

  ghost function CellDiagnostics(lib: Library, cell: CellInput, policy: Policy): seq<Diagnostic> {
    AttachmentEnvelope.AttachmentEnvelopeOf(cell.ruleVariants, policy).diagnostics +
    PlanDiagnostics(lib, cell, policy, PlansOf(cell, policy)) +
    if |JointOf(lib, cell, policy, PlansOf(cell, policy))| > JointLimit(policy)
    then [Diagnostic(JointEnvelopeTruncated, PartialEvidence)] else []
  }

  ghost function VariantsCompiled(lib: Library, cell: CellInput, policy: Policy): seq<BridgeVariant> {
    var sorted := SortBy(JointBefore, JointOf(lib, cell, policy, PlansOf(cell, policy)));
    CompileAll(lib, cell, if |sorted| > JointLimit(policy) then sorted[..JointLimit(policy)] else sorted)
  }

  ghost function CompiledCell(lib: Library, cell: CellInput, policy: Policy): Cell {
    SealCell(lib, cell, VariantsCompiled(lib, cell, policy), SortedUnique(LeverIds(lib, cell, PlansOf(cell, policy))),
             CellDiagnostics(lib, cell, policy))
  }

  lemma NextPlan(lib: Library, cell: CellInput, policy: Policy, plans: seq<RuleVariant>, i: nat)
    requires i < |plans|
    ensures JointOf(lib, cell, policy, plans[..i + 1]) ==
            JointOf(lib, cell, policy, plans[..i]) + Paired(plans[i], ActivationsOf(lib, cell, policy, plans[i]))
    ensures PlanDiagnostics(lib, cell, policy, plans[..i + 1]) ==
            PlanDiagnostics(lib, cell, policy, plans[..i]) + ActivationsOf(lib, cell, policy, plans[i]).diagnostics
    ensures LeverIds(lib, cell, plans[..i + 1]) ==
            LeverIds(lib, cell, plans[..i]) + KeysOf(ActivationEnumeration.LeverId(), LeversOf(lib, cell, plans[i]))
  {
    hide Paired, ActivationsOf, LeversOf;
    assert plans[..i + 1][..i] == plans[..i];
  }

  method CompilePlans(lib: Library, cell: CellInput, policy: Policy, plans: seq<RuleVariant>)
    returns (joint: seq<Joint>, diagnostics: seq<Diagnostic>, available: seq<string>)
    ensures joint == JointOf(lib, cell, policy, plans)
    ensures diagnostics == PlanDiagnostics(lib, cell, policy, plans)
    ensures available == LeverIds(lib, cell, plans)
  {
    hide Paired, LeversOf, ActivationEnumeration.ActivationEnvelopeOf, JointOf, PlanDiagnostics, LeverIds;
    NoPlans(lib, cell, policy, plans);
    joint, diagnostics, available := [], [], [];
    for i := 0 to |plans|
      invariant joint == JointOf(lib, cell, policy, plans[..i])
      invariant diagnostics == PlanDiagnostics(lib, cell, policy, plans[..i])
      invariant available == LeverIds(lib, cell, plans[..i])
    {
      NextPlan(lib, cell, policy, plans, i);
      var levers := LeversOf(lib, cell, plans[i]);
      available := available + KeysOf(ActivationEnumeration.LeverId(), levers);
      var activations := ActivationEnumeration.EnumerateActivationEnvelope(levers, policy,
                                                                           Some(JointLimit(policy) as real));
      diagnostics := diagnostics + activations.diagnostics;
      joint := joint + Paired(plans[i], activations);
    }
    assert plans[..|plans|] == plans;
  }

  lemma NoPlans(lib: Library, cell: CellInput, policy: Policy, plans: seq<RuleVariant>)
    ensures JointOf(lib, cell, policy, plans[..0]) == [] && PlanDiagnostics(lib, cell, policy, plans[..0]) == []
    ensures LeverIds(lib, cell, plans[..0]) == []
  {}

  method CompileCell(lib: Library, cell: CellInput, policy: Policy) returns (compiled: Cell)
    ensures compiled == CompiledCell(lib, cell, policy)
  {
    hide SortBy, CompileJoint, SealCell, JointOf, PlanDiagnostics, LeverIds, AttachmentEnvelope.AttachmentEnvelopeOf;
    var attachments := AttachmentEnvelope.EnumerateAttachmentEnvelope(cell.ruleVariants, policy);
    var joint, diagnostics, available := CompilePlans(lib, cell, policy,
                                                      if attachments.valid then attachments.items else []);
    diagnostics := attachments.diagnostics + diagnostics;
    assert diagnostics + [] == diagnostics;
    var sorted := SortBy(JointBefore, joint);
    SortByMembers(JointBefore, joint);
    var maximum := JointLimit(policy);
    if |joint| > maximum {
      diagnostics := diagnostics + [Diagnostic(JointEnvelopeTruncated, PartialEvidence)];
      sorted := sorted[..maximum];
    }
    var variants: seq<BridgeVariant> := [];
    for i := 0 to |sorted|
      invariant variants == CompileAll(lib, cell, sorted[..i])
    {
      variants := variants + [CompileJoint(lib, cell, sorted[i])];
    }
    assert sorted[..|sorted|] == sorted;
    return SealCell(lib, cell, variants, SortedUnique(available), diagnostics);
  }
}
