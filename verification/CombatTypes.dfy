/** The policy, activation and diagnostic records of the combat bridge compiler. */
module CombatTypes {
  import opened Wrappers

  datatype Severity = PartialEvidence | Unusable

  datatype DiagnosticCode =
    | AttachmentPlanOverlap
    | AttachmentPlanDuplicate
    | AttachmentPlanMissing
    | AttachmentSelectionOverlap
    | AttachmentSelectionUnresolved
    | AttachmentEnvelopeTruncated
    | ActivationIdDuplicate
    | ActivationConstraintInvalid
    | ActivationGroupInconsistent
    | ActivationPolicyGroupInvalid
    | ActivationPolicyOptionInvalid
    | ActivationPolicyMetadataMismatch
    | ActivationSelectionInvalid
    | ActivationEnvelopeTruncated
    | JointEnvelopeTruncated
    | ActivationPolicyOptionUnresolved
    | ActivationPolicySelectionUndeclared
    | RuleDiagnostic(rule: string)
    | InputDiagnostic(check: string)

  datatype Diagnostic = Diagnostic(code: DiagnosticCode, severity: Severity)

  /** Numbers are reals, so that `Number.isInteger` is a test that can fail. */
  datatype Group = Group(id: string, maxActivations: real)

  datatype Lever = Lever(id: string, caption: string, group: Option<Group>, cpCost: real)

  datatype PolicyOption = PolicyOption(id: string, groupId: Option<string>, cpCost: real)

  datatype Constraints = Constraints(options: seq<PolicyOption>, groups: seq<Group>)

  datatype ActivationMode = Selected | Envelope

  datatype AttachmentMode = SelectedPlan | Enumerate

  datatype Binding = Binding(leader: string, bodyguard: string, supports: seq<string>)

  datatype Selection = Selection(attacker: seq<Binding>, target: seq<Binding>)

  datatype Limits = Limits(maxAttachmentPlans: int, maxJointVariants: int)

  datatype Policy = Policy(
    activationMode: ActivationMode,
    selectedActivationIds: seq<string>,
    resourceBudget: Option<real>,
    activationConstraints: Option<Constraints>,
    attachmentMode: AttachmentMode,
    attachments: Selection,
    limits: Option<Limits>)

  datatype Variant = Variant(id: string, activeIds: seq<string>, cpSpent: real)

  datatype EnvelopeResult<+T> = EnvelopeResult(items: seq<T>, truncated: bool, valid: bool,
                                               diagnostics: seq<Diagnostic>)

  const MAX_COMBAT_ATTACHMENT_PLANS := 16
  const MAX_COMBAT_JOINT_VARIANTS := 64

  predicate IsInteger(x: real) { x == x.Floor as real }

  predicate HasUnusable(diagnostics: seq<Diagnostic>) {
    exists d :: d in diagnostics && d.severity == Unusable
  }

  predicate HasPartial(diagnostics: seq<Diagnostic>) {
    exists d :: d in diagnostics && d.severity == PartialEvidence
  }
}
