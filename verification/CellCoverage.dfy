/**
  What the claim of a combat cell is worth (lib/rosterpilot/combat-bridge.ts:1881-1968, 2191-2335):
  a complete cell is the whole product of its plans and activation sets, with every effect exact.
 */
module CellCoverage {
  import opened Sequences
  import opened Wrappers
  import opened Ordering
  import opened CombatTypes
  import opened BridgeTypes
  import opened CellCompiler
  import CellVariants
  import ActivationEnvelope
  import ActivationWalk
  import ActivationSubsets
  import ActivationEnumeration
  import AttachmentEnvelope

  /** The activation sets a policy allows over a table of levers. */
  ghost predicate SetAllowedBy(policy: Policy, order: seq<string>, levers: ActivationEnvelope.Levers, s: seq<string>) {
    if policy.activationMode.Selected? then ActivationEnumeration.IsSelection(policy, levers, s)
    else s == [] ||
         (ActivationSubsets.SubsetOf(s, order) && ActivationEnvelope.Feasible(s, levers, policy.resourceBudget))
  }

  /** The activation sets a policy allows with one attachment plan. */
  ghost predicate SetAllowed(lib: Library, cell: CellInput, policy: Policy, rv: RuleVariant, s: seq<string>) {
    exists order, levers ::
      ActivationEnumeration.Eligible(LeversOf(lib, cell, rv), policy, order, levers) &&
      SetAllowedBy(policy, order, levers, s)
  }

  ghost predicate NoRepeatedSet(items: seq<Variant>) {
    forall i, j :: 0 <= i < j < |items| ==> items[i].activeIds != items[j].activeIds
  }

  // ---- One plan ----

  /** A clean envelope lists the allowed sets, each once. */
  lemma CleanActivations(lib: Library, cell: CellInput, policy: Policy, rv: RuleVariant)
    requires ActivationsOf(lib, cell, policy, rv).diagnostics == []
    ensures ActivationsOf(lib, cell, policy, rv).valid && ActivationsOf(lib, cell, policy, rv).items != []
    ensures NoRepeatedSet(ActivationsOf(lib, cell, policy, rv).items)
    ensures forall s :: s in ActivationEnumeration.ActiveSets(ActivationsOf(lib, cell, policy, rv).items) <==>
              SetAllowed(lib, cell, policy, rv, s)
  {
    hide LeversOf, ActivationEnumeration.ActivationEnvelopeOf, ActivationEnumeration.Table,
      ActivationWalk.ActivationVariant;
    var inputs := LeversOf(lib, cell, rv);
    var maximum := Some(JointLimit(policy) as real);
    var order, levers, selected := ActivationEnumeration.EnvelopeMeaning(inputs, policy, maximum);
    var r := ActivationsOf(lib, cell, policy, rv);
    assert ActivationEnumeration.Eligible(inputs, policy, order, levers);
    forall s ensures SetAllowed(lib, cell, policy, rv, s) <==> SetAllowedBy(policy, order, levers, s) {
      if SetAllowed(lib, cell, policy, rv, s) {
        var o, l :| ActivationEnumeration.Eligible(inputs, policy, o, l) && SetAllowedBy(policy, o, l, s);
        ActivationEnumeration.EligibleUnique(inputs, policy, o, l, order, levers);
      }
    }
    if policy.activationMode.Selected? {
      assert ActivationEnumeration.ActiveSets(r.items) == [selected];
      forall s | ActivationEnumeration.IsSelection(policy, levers, s) ensures s == selected {
        ActivationEnumeration.SelectionUnique(policy, levers, s, selected);
      }
    } else {
      UncutEnvelope(r, order, levers, policy.resourceBudget, ActivationEnumeration.EffectiveLimit(maximum));
    }
  }

  lemma UncutEnvelope(r: EnvelopeResult<Variant>, order: seq<string>, levers: ActivationEnvelope.Levers,
                      budget: Option<real>, limit: nat)
    requires ActivationEnumeration.Table(order, levers) && limit >= 1
    requires ActivationEnumeration.IsEnvelope(r, order, levers, budget, limit) && r.diagnostics == []
    ensures r.items != [] && NoRepeatedSet(r.items)
    ensures forall s :: s in ActivationEnumeration.ActiveSets(r.items) <==>
      s == [] || (ActivationSubsets.SubsetOf(s, order) && ActivationEnvelope.Feasible(s, levers, budget))
  {
    var listed := [[]] + ActivationWalk.Legal(ActivationWalk.CombosFrom(order, 1), levers, budget);
    assert r.items == ActivationWalk.VariantsOf(listed, levers);
    ListedMembers(order, levers, budget);
    ListedInOrder(order, levers, budget);
    ListedAscend(order, levers, budget);
    hide ActivationEnumeration.Table, ActivationEnumeration.IsEnvelope, ActivationSubsets.SubsetOf,
      ActivationEnvelope.Feasible, ActivationWalk.Legal, ActivationWalk.CombosFrom, ActivationSubsets.Before;
    forall i | 0 <= i < |listed| ensures r.items[i].activeIds == listed[i] {
      assert listed[i] in listed;
      ActivationEnumeration.VariantFaithful(listed[i], levers);
    }
    assert ActivationEnumeration.ActiveSets(r.items) == listed;
    forall i, j | 0 <= i < j < |listed| ensures listed[i] != listed[j] {
      ActivationSubsets.BeforeIrreflexive(listed[i]);
    }
  }

  lemma ListedMembers(order: seq<string>, levers: ActivationEnvelope.Levers, budget: Option<real>)
    requires ActivationEnumeration.Table(order, levers)
    ensures forall s :: s in [[]] + ActivationWalk.Legal(ActivationWalk.CombosFrom(order, 1), levers, budget) <==>
              s == [] || (ActivationSubsets.SubsetOf(s, order) && ActivationEnvelope.Feasible(s, levers, budget))
  {
    forall s ensures s in [[]] + ActivationWalk.Legal(ActivationWalk.CombosFrom(order, 1), levers, budget) <==>
      s == [] || (ActivationSubsets.SubsetOf(s, order) && ActivationEnvelope.Feasible(s, levers, budget))
    {
      ActivationSubsets.LegalMembers(ActivationWalk.CombosFrom(order, 1), levers, budget, s);
      ActivationSubsets.CombosFromMembers(order, 1, s);
      ActivationEnvelope.AcceptsIffFeasible(s, levers, budget);
    }
  }

  lemma ListedInOrder(order: seq<string>, levers: ActivationEnvelope.Levers, budget: Option<real>)
    requires ActivationEnumeration.Table(order, levers)
    ensures ActivationSubsets.InOrder([[]] + ActivationWalk.Legal(ActivationWalk.CombosFrom(order, 1), levers, budget))
  {
    ActivationSubsets.CombosFromInOrder(order, 1);
    ActivationSubsets.LegalInOrder(ActivationWalk.CombosFrom(order, 1), levers, budget);
    forall s | s in ActivationWalk.Legal(ActivationWalk.CombosFrom(order, 1), levers, budget)
      ensures ActivationSubsets.Before([], s) {
      ActivationSubsets.LegalMembers(ActivationWalk.CombosFrom(order, 1), levers, budget, s);
      ActivationSubsets.CombosFromMembers(order, 1, s);
    }
    ActivationSubsets.OrderedConcat([[]], ActivationWalk.Legal(ActivationWalk.CombosFrom(order, 1), levers, budget));
  }

  lemma ListedAscend(order: seq<string>, levers: ActivationEnvelope.Levers, budget: Option<real>)
    requires ActivationEnumeration.Table(order, levers)
    ensures forall s :: s in [[]] + ActivationWalk.Legal(ActivationWalk.CombosFrom(order, 1), levers, budget) ==>
              Ascending(s)
  {
    ListedMembers(order, levers, budget);
    hide ActivationWalk.Legal, ActivationWalk.CombosFrom, ActivationEnvelope.Feasible;
  }

  // ---- All plans ----

  predicate SamePair(a: Joint, b: Joint) {
    a.ruleVariant == b.ruleVariant && a.activation.activeIds == b.activation.activeIds
  }

  ghost predicate NoRepeatedPair(joint: seq<Joint>) {
    forall i, j :: 0 <= i < j < |joint| ==> !SamePair(joint[i], joint[j])
  }

  lemma {:induction false} CleanJoint(lib: Library, cell: CellInput, policy: Policy, plans: seq<RuleVariant>)
    requires PlanDiagnostics(lib, cell, policy, plans) == []
    requires NoRepeats(plans)
    ensures plans != [] ==> JointOf(lib, cell, policy, plans) != []
    ensures NoRepeatedPair(JointOf(lib, cell, policy, plans))
    ensures forall j :: j in JointOf(lib, cell, policy, plans) ==>
      j.ruleVariant in plans && SetAllowed(lib, cell, policy, j.ruleVariant, j.activation.activeIds) &&
      j.diagnostics == []
    ensures forall rv, s :: rv in plans && SetAllowed(lib, cell, policy, rv, s) ==>
      exists j :: j in JointOf(lib, cell, policy, plans) && j.ruleVariant == rv && j.activation.activeIds == s
  {
    hide SetAllowed, ActivationsOf, LeversOf;
    if plans != [] {
      var n := |plans| - 1;
      var rv, before := plans[n], plans[..n];
      assert plans == before + [rv];
      CleanJoint(lib, cell, policy, before);
      CleanActivations(lib, cell, policy, rv);
      var r := ActivationsOf(lib, cell, policy, rv);
      var a, b := JointOf(lib, cell, policy, before), Paired(rv, r);
      assert JointOf(lib, cell, policy, plans) == a + b;
      PairedExact(lib, cell, policy, rv);
      forall i, j | 0 <= i < j < |a + b| ensures !SamePair((a + b)[i], (a + b)[j]) {
        if i < |a| <= j {
          assert a[i] in a;
          assert a[i].ruleVariant in before;
        }
      }
      forall rv', s | rv' in plans && SetAllowed(lib, cell, policy, rv', s)
        ensures exists j :: j in a + b && j.ruleVariant == rv' && j.activation.activeIds == s
      {
        if rv' in before {
          var j :| j in a && j.ruleVariant == rv' && j.activation.activeIds == s;
          assert j in a + b;
        } else {
          var j :| j in b && j.ruleVariant == rv && j.activation.activeIds == s;
          assert j in a + b;
        }
      }
    }
  }

  lemma PairedExact(lib: Library, cell: CellInput, policy: Policy, rv: RuleVariant)
    requires ActivationsOf(lib, cell, policy, rv).diagnostics == []
    ensures var b := Paired(rv, ActivationsOf(lib, cell, policy, rv));
            && b != [] && NoRepeatedPair(b)
            && (forall j :: j in b ==>
                  j.ruleVariant == rv && SetAllowed(lib, cell, policy, rv, j.activation.activeIds) &&
                  j.diagnostics == [])
            && (forall s :: SetAllowed(lib, cell, policy, rv, s) ==>
                  exists j :: j in b && j.ruleVariant == rv && j.activation.activeIds == s)
  {
    CleanActivations(lib, cell, policy, rv);
    hide SetAllowed, ActivationsOf;
    var r := ActivationsOf(lib, cell, policy, rv);
    var b, sets := Paired(rv, r), ActivationEnumeration.ActiveSets(r.items);
    forall j | j in b ensures SetAllowed(lib, cell, policy, rv, j.activation.activeIds) {
      var i :| 0 <= i < |b| && b[i] == j;
      assert sets[i] in sets;
    }
    forall s | SetAllowed(lib, cell, policy, rv, s)
      ensures exists j :: j in b && j.ruleVariant == rv && j.activation.activeIds == s
    {
      assert s in sets;
      var i :| 0 <= i < |sets| && sets[i] == s;
      assert b[i] in b;
    }
  }

  // ---- One variant ----

  /** Every buff that counts is certain: its distance, where it has a range, and its phase are known. */
  ghost predicate NothingUncertain(lib: Library, cell: CellInput, rv: RuleVariant, activeIds: seq<string>) {
    forall e :: e in CellVariants.VariantEntries(lib, cell, rv, activeIds) && e.active &&
                CellVariants.Applies(lib, cell, e.buff) ==>
      !CellVariants.DistanceUnknown(cell, e.buff) && !e.buff.phaseMappingApproximated
  }

  /** Nothing was said against the rules of one side, and all they do for certain is exact. */
  ghost predicate FixedExact(t: Translation) {
    t.diagnostics == [] && forall x :: x in t.fixedEffects ==> x.status == Modeled || x.status == NotApplicable
  }

  ghost predicate PairExact(lib: Library, cell: CellInput, rv: RuleVariant, activeIds: seq<string>) {
    && FixedExact(TranslationOf(lib, cell, rv, Attacker)) && FixedExact(TranslationOf(lib, cell, rv, Target))
    && NothingUncertain(lib, cell, rv, activeIds)
  }

  lemma RecordsExact(lib: Library, cell: CellInput, entries: seq<BuffEntry>, records: seq<Effect>)
    requires CellVariants.RecordsAll(lib, cell, entries, records)
    ensures (forall x :: x in records ==> x.status == Modeled || x.status == NotApplicable) <==>
            (forall e :: e in entries && e.active && CellVariants.Applies(lib, cell, e.buff) ==>
               !CellVariants.DistanceUnknown(cell, e.buff) && !e.buff.phaseMappingApproximated)
  {
    hide CellVariants.Applies, CellVariants.DistanceUnknown;
    forall i | 0 <= i < |entries|
      ensures records[i].status == Modeled || records[i].status == NotApplicable <==>
              !(entries[i].active && CellVariants.Applies(lib, cell, entries[i].buff) &&
                (CellVariants.DistanceUnknown(cell, entries[i].buff) || entries[i].buff.phaseMappingApproximated))
    {
      assert CellVariants.Records(lib, cell, entries[i], records[i]);
    }
    hide CellVariants.Records;
    if forall x :: x in records ==> x.status == Modeled || x.status == NotApplicable {
      forall e | e in entries ensures !(e.active && CellVariants.Applies(lib, cell, e.buff) &&
                                        (CellVariants.DistanceUnknown(cell, e.buff) || e.buff.phaseMappingApproximated))
      {
        var i :| 0 <= i < |entries| && entries[i] == e;
        assert records[i] in records;
      }
    } else {
      var x :| x in records && x.status != Modeled && x.status != NotApplicable;
      var i :| 0 <= i < |records| && records[i] == x;
      assert entries[i] in entries;
    }
  }

  lemma EffectsExact(effects: seq<Effect>, a: seq<Effect>, t: seq<Effect>, records: seq<Effect>)
    requires multiset(effects) == multiset(a) + multiset(t) + multiset(records)
    ensures (forall x :: x in effects ==> x.status == Modeled || x.status == NotApplicable) <==>
            && (forall x :: x in a ==> x.status == Modeled || x.status == NotApplicable)
            && (forall x :: x in t ==> x.status == Modeled || x.status == NotApplicable)
            && (forall x :: x in records ==> x.status == Modeled || x.status == NotApplicable)
  {
    assert forall x :: x in effects <==> x in multiset(effects);
    assert forall x :: x in multiset(effects) <==> x in a || x in t || x in records;
  }

  /** A variant is complete exactly when nothing is said against it and its pair is exact. */
  lemma VariantCompleteMeans(lib: Library, cell: CellInput, rv: RuleVariant, activation: Variant,
                             diagnostics: seq<Diagnostic>)
    ensures CompileVariant(lib, cell, rv, activation, diagnostics).coverage.status == Complete <==>
            diagnostics == [] && PairExact(lib, cell, rv, activation.activeIds)
  {
    var v := CompileVariant(lib, cell, rv, activation, diagnostics);
    CellVariants.VariantSays(lib, cell, rv, activation, diagnostics);
    hide CompileVariant, CoverageFrom, CellVariants.VariantEntries, TranslationOf;
    var a, t := TranslationOf(lib, cell, rv, Attacker), TranslationOf(lib, cell, rv, Target);
    var entries := CellVariants.VariantEntries(lib, cell, rv, activation.activeIds);
    assert exists records :: CellVariants.RecordsAll(lib, cell, entries, records) &&
             multiset(v.effects) == multiset(a.fixedEffects) + multiset(t.fixedEffects) + multiset(records);
    hide CellVariants.SaysOf;
    var records :| CellVariants.RecordsAll(lib, cell, entries, records) &&
      multiset(v.effects) == multiset(a.fixedEffects) + multiset(t.fixedEffects) + multiset(records);
    VariantCompleteIff(v.effects, diagnostics + a.diagnostics + t.diagnostics);
    RecordsExact(lib, cell, entries, records);
    EffectsExact(v.effects, a.fixedEffects, t.fixedEffects, records);
  }

  // ---- The cell ----

  /** Which plan a variant was compiled for, and which activations it enables. */
  predicate IsPair(v: BridgeVariant, rv: RuleVariant, s: seq<string>) {
    v.attachmentPlan == AttachmentEnvelope.NormalizePlan(rv.attachmentPlan) && v.activation.activeIds == s
  }

  /** Every effect is modelled or does not apply. */
  ghost predicate ExactEffects(v: BridgeVariant) {
    forall e :: e in v.effects ==> e.status == Modeled || e.status == NotApplicable
  }

  /** The plans and activation sets the policy allows together. */
  ghost predicate PairAllowed(lib: Library, cell: CellInput, policy: Policy, rv: RuleVariant, s: seq<string>) {
    AttachmentEnvelope.PlanAllowed(cell.ruleVariants, policy, rv) && SetAllowed(lib, cell, policy, rv, s)
  }

  ghost predicate OfAllowedPair(lib: Library, cell: CellInput, policy: Policy, v: BridgeVariant) {
    exists rv :: PairAllowed(lib, cell, policy, rv, v.activation.activeIds) && IsPair(v, rv, v.activation.activeIds)
  }

  ghost predicate Listed(variants: seq<BridgeVariant>, rv: RuleVariant, s: seq<string>) {
    exists v :: v in variants && IsPair(v, rv, s)
  }

  ghost predicate EachOnce(variants: seq<BridgeVariant>) {
    forall i, j :: 0 <= i < j < |variants| ==>
      variants[i].attachmentPlan != variants[j].attachmentPlan ||
      variants[i].activation.activeIds != variants[j].activation.activeIds
  }

  ghost predicate FullProduct(lib: Library, cell: CellInput, policy: Policy, variants: seq<BridgeVariant>) {
    && (forall v :: v in variants ==> OfAllowedPair(lib, cell, policy, v))
    && (forall rv, s :: PairAllowed(lib, cell, policy, rv, s) ==> Listed(variants, rv, s))
    && EachOnce(variants)
  }

  /** A complete cell has no diagnostic of its own, so no cap was reached and every envelope was valid. */
  lemma CompleteCellClean(lib: Library, cell: CellInput, policy: Policy)
    requires CompiledCell(lib, cell, policy).coverage.status == Complete
    ensures CellDiagnostics(lib, cell, policy) == []
    ensures forall v :: v in VariantsCompiled(lib, cell, policy) ==> v.coverage.status == Complete
    ensures PlanDiagnostics(lib, cell, policy, PlansOf(cell, policy)) == []
    ensures AttachmentEnvelope.AttachmentEnvelopeOf(cell.ruleVariants, policy).valid
    ensures AttachmentEnvelope.AttachmentEnvelopeOf(cell.ruleVariants, policy).diagnostics == []
    ensures |JointOf(lib, cell, policy, PlansOf(cell, policy))| <= JointLimit(policy)
  {
    var variants, diagnostics := VariantsCompiled(lib, cell, policy), CellDiagnostics(lib, cell, policy);
    hide VariantsCompiled, JointOf, PlanDiagnostics, LeverIds, AttachmentEnvelope.AttachmentEnvelopeOf;
    assert AggregateCoverage(CoveragesOf(variants), diagnostics).status == Complete;
    AggregateCompleteIff(CoveragesOf(variants), diagnostics);
    forall v | v in variants ensures v.coverage.status == Complete {
      var i :| 0 <= i < |variants| && variants[i] == v;
      assert CoveragesOf(variants)[i] in CoveragesOf(variants);
    }
    InvalidPlansSpeak(cell.ruleVariants, policy);
  }

  /** An invalid attachment envelope always says why. */
  lemma InvalidPlansSpeak(candidates: seq<RuleVariant>, policy: Policy)
    ensures !AttachmentEnvelope.AttachmentEnvelopeOf(candidates, policy).valid ==>
      AttachmentEnvelope.AttachmentEnvelopeOf(candidates, policy).diagnostics != []
  {}

  ghost predicate DistinctNormalForms(plans: seq<RuleVariant>) {
    forall i, j :: 0 <= i < j < |plans| ==>
      AttachmentEnvelope.NormalizePlan(plans[i].attachmentPlan) !=
      AttachmentEnvelope.NormalizePlan(plans[j].attachmentPlan)
  }

  lemma DistinctPlans(plans: seq<RuleVariant>)
    requires AttachmentEnvelope.SoundCandidates(plans)
    ensures NoRepeats(plans) && DistinctNormalForms(plans)
  {
    hide AttachmentEnvelope.NormalizeSelection, AttachmentEnvelope.Overlaps;
    forall i, j | 0 <= i < j < |plans|
      ensures AttachmentEnvelope.NormalizePlan(plans[i].attachmentPlan) !=
              AttachmentEnvelope.NormalizePlan(plans[j].attachmentPlan)
    {
      assert !AttachmentEnvelope.Clash(plans[i], plans[j]);
    }
  }

  /** The variants of a complete cell are its whole joint list, in sorted order. */
  lemma CompleteCellUncut(lib: Library, cell: CellInput, policy: Policy)
    requires CompiledCell(lib, cell, policy).coverage.status == Complete
    ensures CompiledCell(lib, cell, policy).variants ==
            CompileAll(lib, cell, SortBy(JointBefore, JointOf(lib, cell, policy, PlansOf(cell, policy))))
  {
    CompleteCellClean(lib, cell, policy);
    hide JointOf, CompileAll, PlansOf, LeverIds, PlanDiagnostics, AttachmentEnvelope.AttachmentEnvelopeOf, SortBy;
    SortByMembers(JointBefore, JointOf(lib, cell, policy, PlansOf(cell, policy)));
  }

  lemma AllowedPlans(cell: CellInput, policy: Policy)
    requires AttachmentEnvelope.AttachmentEnvelopeOf(cell.ruleVariants, policy).valid
    requires AttachmentEnvelope.AttachmentEnvelopeOf(cell.ruleVariants, policy).diagnostics == []
    ensures PlansOf(cell, policy) != []
    ensures NoRepeats(PlansOf(cell, policy)) && DistinctNormalForms(PlansOf(cell, policy))
    ensures forall rv :: rv in PlansOf(cell, policy) <==> AttachmentEnvelope.PlanAllowed(cell.ruleVariants, policy, rv)
  {
    hide AttachmentEnvelope.AttachmentEnvelopeOf, AttachmentEnvelope.SoundCandidates, AttachmentEnvelope.PlanAllowed;
    AttachmentEnvelope.ValidEnvelopeExact(cell.ruleVariants, policy);
    NoSeverityNoDiagnostic(AttachmentEnvelope.AttachmentEnvelopeOf(cell.ruleVariants, policy).diagnostics);
    DistinctPlans(PlansOf(cell, policy));
  }

  /**
    The claim is sound: a cell reported complete has at least one variant, its variants are the
    full product of the plans and activation sets the policy allows, each pair once, and no effect
    of any of them is approximated or omitted. Each variant is what the cell says of one allowed pair, none
    of whose buffs is uncertain.
   */
  lemma CompleteCellIsWhole(lib: Library, cell: CellInput, policy: Policy)
    requires CompiledCell(lib, cell, policy).coverage.status == Complete
    ensures var c := CompiledCell(lib, cell, policy);
            && c.variants != [] && c.diagnostics == []
            && FullProduct(lib, cell, policy, c.variants)
            && forall v :: v in c.variants ==> ExactEffects(v) && Answers(lib, cell, policy, v)
  {
    CompleteCellClean(lib, cell, policy);
    CompleteCellUncut(lib, cell, policy);
    AllowedPlans(cell, policy);
    CompleteEffects(lib, cell, policy);
    CompleteAnswers(lib, cell, policy);
    hide SetAllowed, CompileAll, JointOf, PlansOf, AttachmentEnvelope.AttachmentEnvelopeOf, Answers,
      AttachmentEnvelope.PlanAllowed, LeverIds, PlanDiagnostics, SortBy, FullProduct, ExactEffects, NoRepeatedPair,
      DistinctNormalForms, VariantsCompiled;
    var plans := PlansOf(cell, policy);
    CleanJoint(lib, cell, policy, plans);
    var joint := JointOf(lib, cell, policy, plans);
    SortByMembers(JointBefore, joint);
    SortKeepsPairs(joint);
    VariantsFollowJoint(lib, cell, policy, plans, SortBy(JointBefore, joint));
  }

  /** The variant is what the cell says of an allowed pair that is exact. */
  ghost predicate Answers(lib: Library, cell: CellInput, policy: Policy, v: BridgeVariant) {
    exists rv :: PairAllowed(lib, cell, policy, rv, v.activation.activeIds) && CellVariants.SaysOf(lib, cell, rv, v)
                 && PairExact(lib, cell, rv, v.activation.activeIds)
  }

  /** The pairs behind a complete cell: every allowed one, and none else. */
  lemma WholeJoint(lib: Library, cell: CellInput, policy: Policy) returns (joint: seq<Joint>)
    requires CompiledCell(lib, cell, policy).coverage.status == Complete
    ensures CompiledCell(lib, cell, policy).variants == CompileAll(lib, cell, joint)
    ensures forall j :: j in joint ==> PairAllowed(lib, cell, policy, j.ruleVariant, j.activation.activeIds)
    ensures forall rv, s :: PairAllowed(lib, cell, policy, rv, s) ==>
              exists j :: j in joint && j.ruleVariant == rv && j.activation.activeIds == s
  {
    hide *;
    CompleteCellClean(lib, cell, policy);
    CompleteCellUncut(lib, cell, policy);
    AllowedPlans(cell, policy);
    var plans := PlansOf(cell, policy);
    CleanJoint(lib, cell, policy, plans);
    joint := SortBy(JointBefore, JointOf(lib, cell, policy, plans));
    SortByMembers(JointBefore, JointOf(lib, cell, policy, plans));
    forall rv, s
      ensures PairAllowed(lib, cell, policy, rv, s) <==> rv in plans && SetAllowed(lib, cell, policy, rv, s)
    {
      PairMeans(lib, cell, policy, rv, s);
    }
  }

  lemma PairMeans(lib: Library, cell: CellInput, policy: Policy, rv: RuleVariant, s: seq<string>)
    ensures PairAllowed(lib, cell, policy, rv, s) <==>
            AttachmentEnvelope.PlanAllowed(cell.ruleVariants, policy, rv) && SetAllowed(lib, cell, policy, rv, s)
  {}

  lemma CompleteAnswers(lib: Library, cell: CellInput, policy: Policy)
    requires CompiledCell(lib, cell, policy).coverage.status == Complete
    ensures forall v :: v in CompiledCell(lib, cell, policy).variants ==> Answers(lib, cell, policy, v)
  {
    var joint := WholeJoint(lib, cell, policy);
    var variants := CompiledCell(lib, cell, policy).variants;
    CompiledJoints(lib, cell, joint);
    VariantsComplete(lib, cell, policy);
    hide CompiledCell, CompileJoint, CompileAll, PairAllowed, PairExact, CellVariants.SaysOf;
    forall v | v in variants ensures Answers(lib, cell, policy, v) {
      var i :| 0 <= i < |variants| && variants[i] == v;
      assert joint[i] in joint;
      JointAnswers(lib, cell, joint[i]);
    }
  }

  lemma VariantsComplete(lib: Library, cell: CellInput, policy: Policy)
    requires CompiledCell(lib, cell, policy).coverage.status == Complete
    ensures forall v :: v in CompiledCell(lib, cell, policy).variants ==> v.coverage.status == Complete
  {
    hide *;
    CellVariantsAre(lib, cell, policy);
    CompleteCellClean(lib, cell, policy);
  }

  lemma CompiledJoints(lib: Library, cell: CellInput, joint: seq<Joint>)
    ensures |CompileAll(lib, cell, joint)| == |joint|
    ensures forall i :: 0 <= i < |joint| ==> CompileAll(lib, cell, joint)[i] == CompileJoint(lib, cell, joint[i])
  {}

  lemma JointAnswers(lib: Library, cell: CellInput, j: Joint)
    ensures CompileJoint(lib, cell, j).activation == j.activation
    ensures CellVariants.SaysOf(lib, cell, j.ruleVariant, CompileJoint(lib, cell, j))
    ensures CompileJoint(lib, cell, j).coverage.status == Complete <==>
            j.diagnostics == [] && PairExact(lib, cell, j.ruleVariant, j.activation.activeIds)
  {
    CellVariants.VariantSays(lib, cell, j.ruleVariant, j.activation, j.diagnostics);
    VariantCompleteMeans(lib, cell, j.ruleVariant, j.activation, j.diagnostics);
    hide CompileVariant, CellVariants.SaysOf, PairExact;
  }

  // ---- When a cell is complete ----

  /** The envelopes are clean, all pairs fit the limit, and every allowed pair is exact. */
  ghost predicate CellClean(lib: Library, cell: CellInput, policy: Policy) {
    && AttachmentEnvelope.AttachmentEnvelopeOf(cell.ruleVariants, policy).diagnostics == []
    && (forall rv :: AttachmentEnvelope.PlanAllowed(cell.ruleVariants, policy, rv) ==>
          ActivationsOf(lib, cell, policy, rv).diagnostics == [])
    && |JointOf(lib, cell, policy, PlansOf(cell, policy))| <= JointLimit(policy)
    && forall rv, s :: PairAllowed(lib, cell, policy, rv, s) ==> PairExact(lib, cell, rv, s)
  }

  lemma {:induction false} NothingSaidByPlans(lib: Library, cell: CellInput, policy: Policy, plans: seq<RuleVariant>)
    ensures PlanDiagnostics(lib, cell, policy, plans) == [] <==>
            forall rv :: rv in plans ==> ActivationsOf(lib, cell, policy, rv).diagnostics == []
  {
    hide ActivationsOf;
    if plans != [] {
      var n := |plans| - 1;
      NothingSaidByPlans(lib, cell, policy, plans[..n]);
      assert plans == plans[..n] + [plans[n]];
    }
  }

  lemma CleanPlansValid(cell: CellInput, policy: Policy)
    requires AttachmentEnvelope.AttachmentEnvelopeOf(cell.ruleVariants, policy).diagnostics == []
    ensures AttachmentEnvelope.AttachmentEnvelopeOf(cell.ruleVariants, policy).valid
  {}

  lemma CellDiagnosticsIff(lib: Library, cell: CellInput, policy: Policy)
    ensures CellDiagnostics(lib, cell, policy) == [] <==>
            && AttachmentEnvelope.AttachmentEnvelopeOf(cell.ruleVariants, policy).diagnostics == []
            && PlanDiagnostics(lib, cell, policy, PlansOf(cell, policy)) == []
            && |JointOf(lib, cell, policy, PlansOf(cell, policy))| <= JointLimit(policy)
  {
    hide AttachmentEnvelope.AttachmentEnvelopeOf, PlanDiagnostics, PlansOf, JointOf, JointLimit;
  }

  /** A cell is complete exactly when it is clean. */
  lemma CompleteCellIff(lib: Library, cell: CellInput, policy: Policy)
    ensures CompiledCell(lib, cell, policy).coverage.status == Complete <==> CellClean(lib, cell, policy)
  {
    hide *;
    if CompiledCell(lib, cell, policy).coverage.status == Complete { CompleteIsClean(lib, cell, policy); }
    if CellClean(lib, cell, policy) { CleanIsComplete(lib, cell, policy); }
  }

  lemma CompleteIsClean(lib: Library, cell: CellInput, policy: Policy)
    requires CompiledCell(lib, cell, policy).coverage.status == Complete
    ensures CellClean(lib, cell, policy)
  {
    hide *;
    CompletePairsExact(lib, cell, policy);
    CompleteEnvelopesClean(lib, cell, policy);
    CleanParts(lib, cell, policy);
  }

  lemma CleanParts(lib: Library, cell: CellInput, policy: Policy)
    requires CellDiagnostics(lib, cell, policy) == []
    requires forall rv :: AttachmentEnvelope.PlanAllowed(cell.ruleVariants, policy, rv) ==>
               ActivationsOf(lib, cell, policy, rv).diagnostics == []
    requires forall rv, s :: PairAllowed(lib, cell, policy, rv, s) ==> PairExact(lib, cell, rv, s)
    ensures CellClean(lib, cell, policy)
  {
    hide CellDiagnostics, PairAllowed, PairExact, ActivationsOf, JointOf, PlansOf, AttachmentEnvelope.PlanAllowed,
      AttachmentEnvelope.AttachmentEnvelopeOf;
    CellDiagnosticsIff(lib, cell, policy);
  }

  lemma CompleteEnvelopesClean(lib: Library, cell: CellInput, policy: Policy)
    requires CompiledCell(lib, cell, policy).coverage.status == Complete
    ensures CellDiagnostics(lib, cell, policy) == []
    ensures forall rv :: AttachmentEnvelope.PlanAllowed(cell.ruleVariants, policy, rv) ==>
              ActivationsOf(lib, cell, policy, rv).diagnostics == []
  {
    hide *;
    CompleteCellClean(lib, cell, policy);
    AllowedPlans(cell, policy);
    NothingSaidByPlans(lib, cell, policy, PlansOf(cell, policy));
  }

  lemma CompletePairsExact(lib: Library, cell: CellInput, policy: Policy)
    requires CompiledCell(lib, cell, policy).coverage.status == Complete
    ensures forall rv, s :: PairAllowed(lib, cell, policy, rv, s) ==> PairExact(lib, cell, rv, s)
  {
    hide *;
    var joint := WholeJoint(lib, cell, policy);
    var variants := CompiledCell(lib, cell, policy).variants;
    CompiledJoints(lib, cell, joint);
    VariantsComplete(lib, cell, policy);
    forall rv, s | PairAllowed(lib, cell, policy, rv, s) ensures PairExact(lib, cell, rv, s) {
      var j :| j in joint && j.ruleVariant == rv && j.activation.activeIds == s;
      var i :| 0 <= i < |joint| && joint[i] == j;
      JointAnswers(lib, cell, j);
      assert variants[i] in variants;
    }
  }

  lemma CellVariantsAre(lib: Library, cell: CellInput, policy: Policy)
    ensures CompiledCell(lib, cell, policy).variants == VariantsCompiled(lib, cell, policy)
    ensures CompiledCell(lib, cell, policy).coverage ==
            AggregateCoverage(CoveragesOf(VariantsCompiled(lib, cell, policy)), CellDiagnostics(lib, cell, policy))
  {
    hide VariantsCompiled, CellDiagnostics, AggregateCoverage, LeverIds, PlansOf;
  }

  lemma CleanIsComplete(lib: Library, cell: CellInput, policy: Policy)
    requires CellClean(lib, cell, policy)
    ensures CompiledCell(lib, cell, policy).coverage.status == Complete
  {
    CleanMeans(lib, cell, policy);
    hide *;
    CleanPlansValid(cell, policy);
    AllowedPlans(cell, policy);
    NothingSaidByPlans(lib, cell, policy, PlansOf(cell, policy));
    CellDiagnosticsIff(lib, cell, policy);
    CellVariantsAre(lib, cell, policy);
    CleanVariantsComplete(lib, cell, policy);
    AggregateCompleteIff(CoveragesOf(VariantsCompiled(lib, cell, policy)), CellDiagnostics(lib, cell, policy));
  }

  lemma CleanMeans(lib: Library, cell: CellInput, policy: Policy)
    requires CellClean(lib, cell, policy)
    ensures AttachmentEnvelope.AttachmentEnvelopeOf(cell.ruleVariants, policy).diagnostics == []
    ensures forall rv :: AttachmentEnvelope.PlanAllowed(cell.ruleVariants, policy, rv) ==>
              ActivationsOf(lib, cell, policy, rv).diagnostics == []
    ensures |JointOf(lib, cell, policy, PlansOf(cell, policy))| <= JointLimit(policy)
    ensures forall rv, s :: PairAllowed(lib, cell, policy, rv, s) ==> PairExact(lib, cell, rv, s)
  {
    hide AttachmentEnvelope.AttachmentEnvelopeOf, ActivationsOf, JointOf, PlansOf, PairAllowed, PairExact,
      AttachmentEnvelope.PlanAllowed;
  }

  lemma CleanVariantsComplete(lib: Library, cell: CellInput, policy: Policy)
    requires CellClean(lib, cell, policy)
    ensures forall k :: k in CoveragesOf(VariantsCompiled(lib, cell, policy)) ==> k.status == Complete
  {
    CleanMeans(lib, cell, policy);
    var sorted := CleanJointOf(lib, cell, policy);
    CompiledJoints(lib, cell, sorted);
    hide CellClean, VariantsCompiled, CompileJoint, CompileAll, PairAllowed, PairExact;
    var coverages := CoveragesOf(VariantsCompiled(lib, cell, policy));
    forall i | 0 <= i < |coverages| ensures coverages[i].status == Complete {
      assert sorted[i] in sorted;
      JointAnswers(lib, cell, sorted[i]);
    }
  }

  lemma CleanJointOf(lib: Library, cell: CellInput, policy: Policy) returns (sorted: seq<Joint>)
    requires CellClean(lib, cell, policy)
    ensures VariantsCompiled(lib, cell, policy) == CompileAll(lib, cell, sorted)
    ensures forall j :: j in sorted ==>
              PairAllowed(lib, cell, policy, j.ruleVariant, j.activation.activeIds) && j.diagnostics == []
  {
    CleanMeans(lib, cell, policy);
    var joint := JointOf(lib, cell, policy, PlansOf(cell, policy));
    sorted := SortBy(JointBefore, joint);
    SortByMembers(JointBefore, joint);
    assert VariantsCompiled(lib, cell, policy) == CompileAll(lib, cell, sorted);
    hide *;
    CleanPlansValid(cell, policy);
    AllowedPlans(cell, policy);
    NothingSaidByPlans(lib, cell, policy, PlansOf(cell, policy));
    CleanJoint(lib, cell, policy, PlansOf(cell, policy));
    forall j | j in sorted ensures PairAllowed(lib, cell, policy, j.ruleVariant, j.activation.activeIds) {
      PairMeans(lib, cell, policy, j.ruleVariant, j.activation.activeIds);
    }
  }

  // ---- What a cut keeps ----

  /** The first has no more activations; then no plan comes before the empty one; then ids and names decide. */
  predicate NotAfter(a: Joint, b: Joint) {
    var p, q := a.ruleVariant.attachmentPlan, b.ruleVariant.attachmentPlan;
    var bare, bare' := p.selection == Selection([], []), q.selection == Selection([], []);
    && |a.activation.activeIds| <= |b.activation.activeIds|
    && (|a.activation.activeIds| == |b.activation.activeIds| ==>
          && (bare' ==> bare)
          && (bare == bare' ==>
                && !StringLess(q.id, p.id)
                && (p.id == q.id ==> !StringLess(b.activation.id, a.activation.id))))
  }

  lemma JointBeforeOrder()
    ensures WeakOrder(JointBefore)
    ensures forall a, b :: !JointBefore(b, a) ==> NotAfter(a, b)
  {
    forall a: Joint ensures !JointBefore(a, a) {
      StringLessIrreflexive(a.ruleVariant.attachmentPlan.id);
      StringLessIrreflexive(a.activation.id);
    }
    hide JointBefore, NotAfter;
    forall a, b, c | JointBefore(a, b) && JointBefore(b, c) ensures JointBefore(a, c) { JointTransitive(a, b, c); }
    forall a, b, c | JointBefore(a, c) ensures JointBefore(a, b) || JointBefore(b, c) { JointSplits(a, b, c); }
    forall a, b | !JointBefore(b, a) ensures NotAfter(a, b) { NotBeforeNotAfter(a, b); }
  }

  lemma NotBeforeNotAfter(a: Joint, b: Joint)
    requires !JointBefore(b, a)
    ensures NotAfter(a, b)
  {
    var p, q := a.ruleVariant.attachmentPlan, b.ruleVariant.attachmentPlan;
    StringLessIrreflexive(p.id);
    assert p.selection == Selection(p.selection.attacker, p.selection.target);
    assert q.selection == Selection(q.selection.attacker, q.selection.target);
  }

  lemma JointTransitive(a: Joint, b: Joint, c: Joint)
    requires JointBefore(a, b) && JointBefore(b, c)
    ensures JointBefore(a, c)
  {
    var p, q, r := a.ruleVariant.attachmentPlan.id, b.ruleVariant.attachmentPlan.id, c.ruleVariant.attachmentPlan.id;
    if StringLess(p, q) && StringLess(q, r) {
      StringLessTransitive(p, q, r);
      if p == r { StringLessIrreflexive(p); }
    }
    if StringLess(a.activation.id, b.activation.id) && StringLess(b.activation.id, c.activation.id) {
      StringLessTransitive(a.activation.id, b.activation.id, c.activation.id);
    }
  }

  lemma JointSplits(a: Joint, b: Joint, c: Joint)
    requires JointBefore(a, c)
    ensures JointBefore(a, b) || JointBefore(b, c)
  {
    var p, q, r := a.ruleVariant.attachmentPlan.id, b.ruleVariant.attachmentPlan.id, c.ruleVariant.attachmentPlan.id;
    StringLessTotal(p, q);
    StringLessTotal(a.activation.id, b.activation.id);
    if StringLess(q, p) && StringLess(p, r) { StringLessTransitive(q, p, r); }
    if StringLess(b.activation.id, a.activation.id) && StringLess(a.activation.id, c.activation.id) {
      StringLessTransitive(b.activation.id, a.activation.id, c.activation.id);
    }
  }

  /** Cut or not, the variants are those of the first pairs in that order, as many as the limit lets through. */
  lemma CutKeepsFirst(lib: Library, cell: CellInput, policy: Policy) returns (kept: seq<Joint>, dropped: seq<Joint>)
    ensures multiset(kept + dropped) == multiset(JointOf(lib, cell, policy, PlansOf(cell, policy)))
    ensures dropped != [] ==> |kept| == JointLimit(policy)
    ensures CompiledCell(lib, cell, policy).variants == CompileAll(lib, cell, kept)
    ensures forall i, j :: 0 <= i < j < |kept| ==> NotAfter(kept[i], kept[j])
    ensures forall k, d :: k in kept && d in dropped ==> NotAfter(k, d)
  {
    hide *;
    var sorted, n := CutJoint(lib, cell, policy);
    kept, dropped := sorted[..n], sorted[n..];
    assert kept + dropped == sorted;
    forall k, d | k in kept && d in dropped ensures NotAfter(k, d) {
      var i :| 0 <= i < |kept| && kept[i] == k;
      var j :| 0 <= j < |dropped| && dropped[j] == d;
      assert sorted[i] == k && sorted[n + j] == d;
    }
  }

  lemma CutJoint(lib: Library, cell: CellInput, policy: Policy) returns (sorted: seq<Joint>, n: nat)
    ensures multiset(sorted) == multiset(JointOf(lib, cell, policy, PlansOf(cell, policy)))
    ensures n <= |sorted| && (n < |sorted| ==> n == JointLimit(policy))
    ensures CompiledCell(lib, cell, policy).variants == CompileAll(lib, cell, sorted[..n])
    ensures forall i, j :: 0 <= i < j < |sorted| ==> NotAfter(sorted[i], sorted[j])
  {
    var joint, limit := JointOf(lib, cell, policy, PlansOf(cell, policy)), JointLimit(policy);
    sorted := SortBy(JointBefore, joint);
    n := if |sorted| > limit then limit else |sorted|;
    assert sorted[..|sorted|] == sorted;
    assert VariantsCompiled(lib, cell, policy) == CompileAll(lib, cell, sorted[..n]);
    hide *;
    CellVariantsAre(lib, cell, policy);
    SortByMultiset(JointBefore, joint);
    JointBeforeOrder();
    SortBySorted(JointBefore, joint);
    SortedNotAfter(sorted);
  }

  lemma SortedNotAfter(sorted: seq<Joint>)
    requires SortedBy(JointBefore, sorted)
    requires forall a, b :: !JointBefore(b, a) ==> NotAfter(a, b)
    ensures forall i, j :: 0 <= i < j < |sorted| ==> NotAfter(sorted[i], sorted[j])
  {
    hide JointBefore, NotAfter;
  }

  lemma CompleteEffects(lib: Library, cell: CellInput, policy: Policy)
    requires CompiledCell(lib, cell, policy).coverage.status == Complete
    ensures forall v :: v in CompiledCell(lib, cell, policy).variants ==> ExactEffects(v)
  {
    CompleteCellClean(lib, cell, policy);
    CompleteCellUncut(lib, cell, policy);
    hide JointOf, PlansOf, SortBy, CompileJoint, ExactEffects;
    var variants := CompiledCell(lib, cell, policy).variants;
    var joint := SortBy(JointBefore, JointOf(lib, cell, policy, PlansOf(cell, policy)));
    forall v | v in variants ensures ExactEffects(v) {
      var i :| 0 <= i < |variants| && variants[i] == v;
      CompleteVariantExact(lib, cell, joint[i]);
    }
  }

  lemma CompleteVariantExact(lib: Library, cell: CellInput, j: Joint)
    requires CompileJoint(lib, cell, j).coverage.status == Complete
    ensures ExactEffects(CompileJoint(lib, cell, j))
  {
    var v := CompileJoint(lib, cell, j);
    var a, t := TranslationOf(lib, cell, j.ruleVariant, Attacker), TranslationOf(lib, cell, j.ruleVariant, Target);
    VariantCompleteIff(v.effects, j.diagnostics + a.diagnostics + t.diagnostics);
  }

  lemma SortKeepsPairs(joint: seq<Joint>)
    requires NoRepeatedPair(joint)
    ensures NoRepeatedPair(SortBy(JointBefore, joint))
  {
    var sorted := SortBy(JointBefore, joint);
    SortByMembers(JointBefore, joint);
    SortByMultiset(JointBefore, joint);
    forall i, j | 0 <= i < j < |sorted| ensures !SamePair(sorted[i], sorted[j]) {
      if sorted[i] == sorted[j] {
        CountTwice(sorted, i, j);
        var a, b := CountedTwice(joint, sorted[i]);
      }
      assert sorted[i] in joint && sorted[j] in joint;
      var a :| 0 <= a < |joint| && joint[a] == sorted[i];
      var b :| 0 <= b < |joint| && joint[b] == sorted[j];
      assert a < b ==> !SamePair(joint[a], joint[b]);
      assert b < a ==> !SamePair(joint[b], joint[a]);
    }
  }

  lemma CompiledPairs(lib: Library, cell: CellInput, joint: seq<Joint>)
    ensures |CompileAll(lib, cell, joint)| == |joint|
    ensures forall i :: 0 <= i < |joint| ==>
              IsPair(CompileAll(lib, cell, joint)[i], joint[i].ruleVariant, joint[i].activation.activeIds)
  {}

  /** No variant of one pair twice: plans differ in normal form, activation sets as they stand. */
  lemma CompiledOnce(lib: Library, cell: CellInput, plans: seq<RuleVariant>, joint: seq<Joint>)
    requires NoRepeatedPair(joint) && DistinctNormalForms(plans)
    requires forall j :: j in joint ==> j.ruleVariant in plans
    ensures EachOnce(CompileAll(lib, cell, joint))
  {
    CompiledPairs(lib, cell, joint);
    hide CompileJoint, AttachmentEnvelope.NormalizePlan;
    var variants := CompileAll(lib, cell, joint);
    forall i, j | 0 <= i < j < |variants|
      ensures variants[i].attachmentPlan != variants[j].attachmentPlan ||
              variants[i].activation.activeIds != variants[j].activation.activeIds
    {
      assert joint[i] in joint && joint[j] in joint && !SamePair(joint[i], joint[j]);
      var a :| 0 <= a < |plans| && plans[a] == joint[i].ruleVariant;
      var b :| 0 <= b < |plans| && plans[b] == joint[j].ruleVariant;
      assert a == b || a < b || b < a;
    }
  }

  ghost predicate Follows(variants: seq<BridgeVariant>, joint: seq<Joint>) {
    && |variants| == |joint|
    && forall i :: 0 <= i < |joint| ==> IsPair(variants[i], joint[i].ruleVariant, joint[i].activation.activeIds)
  }

  lemma AllOfAllowedPairs(lib: Library, cell: CellInput, policy: Policy, joint: seq<Joint>,
                          variants: seq<BridgeVariant>)
    requires Follows(variants, joint)
    requires forall j :: j in joint ==> PairAllowed(lib, cell, policy, j.ruleVariant, j.activation.activeIds)
    ensures forall v :: v in variants ==> OfAllowedPair(lib, cell, policy, v)
  {
    hide PairAllowed, AttachmentEnvelope.NormalizePlan;
    forall v | v in variants ensures OfAllowedPair(lib, cell, policy, v) {
      var i :| 0 <= i < |variants| && variants[i] == v;
      assert joint[i] in joint && IsPair(v, joint[i].ruleVariant, joint[i].activation.activeIds);
    }
  }

  lemma AllPairsListed(lib: Library, cell: CellInput, policy: Policy, joint: seq<Joint>, variants: seq<BridgeVariant>)
    requires Follows(variants, joint)
    requires forall rv, s :: PairAllowed(lib, cell, policy, rv, s) ==>
      exists j :: j in joint && j.ruleVariant == rv && j.activation.activeIds == s
    ensures forall rv, s :: PairAllowed(lib, cell, policy, rv, s) ==> Listed(variants, rv, s)
  {
    hide PairAllowed, AttachmentEnvelope.NormalizePlan;
    forall rv, s | PairAllowed(lib, cell, policy, rv, s) ensures Listed(variants, rv, s) {
      var j :| j in joint && j.ruleVariant == rv && j.activation.activeIds == s;
      var i :| 0 <= i < |joint| && joint[i] == j;
      assert variants[i] in variants && IsPair(variants[i], joint[i].ruleVariant, joint[i].activation.activeIds);
    }
  }

  lemma VariantsFollowJoint(lib: Library, cell: CellInput, policy: Policy, plans: seq<RuleVariant>, joint: seq<Joint>)
    requires NoRepeatedPair(joint) && DistinctNormalForms(plans)
    requires forall rv :: rv in plans <==> AttachmentEnvelope.PlanAllowed(cell.ruleVariants, policy, rv)
    requires forall j :: j in joint ==>
               j.ruleVariant in plans && SetAllowed(lib, cell, policy, j.ruleVariant, j.activation.activeIds)
    requires forall rv, s :: rv in plans && SetAllowed(lib, cell, policy, rv, s) ==>
      exists j :: j in joint && j.ruleVariant == rv && j.activation.activeIds == s
    ensures FullProduct(lib, cell, policy, CompileAll(lib, cell, joint))
  {
    hide SetAllowed, CompileAll, AttachmentEnvelope.PlanAllowed, IsPair, NoRepeatedPair, DistinctNormalForms, EachOnce,
      OfAllowedPair, Listed;
    CompiledPairs(lib, cell, joint);
    CompiledOnce(lib, cell, plans, joint);
    var variants := CompileAll(lib, cell, joint);
    AllOfAllowedPairs(lib, cell, policy, joint, variants);
    AllPairsListed(lib, cell, policy, joint, variants);
  }
}
