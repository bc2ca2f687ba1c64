/**
  lib/rosterpilot/combat-bridge.ts:1042-1115, 1736-1879 and 2100-2189: what one compiled variant says. When a
  buff counts is put in terms of the cell itself: its phase, distance and the keywords of its two sides.
 */
module CellVariants {
  import opened Wrappers
  import opened Ordering
  import opened CombatTypes
  import opened BridgeTypes
  import opened CellCompiler
  import AttachmentEnvelope

  // ---- When a buff counts ----

  function Side(cell: CellInput, perspective: Perspective): Participant {
    match perspective case Attacker => cell.attacker case Target => cell.target
  }

  function Opposite(perspective: Perspective): Perspective {
    match perspective case Attacker => Target case Target => Attacker
  }

  /** One of the keywords, trimmed and in lower case, is the required one in lower case; none may be required. */
  ghost predicate Has(lib: Library, keywords: seq<string>, required: Option<string>) {
    required.Some? && required.value != "" ==>
      exists k :: k in keywords && lib.fold(k) != "" && lib.fold(lib.fold(k)) == lib.lower(required.value) != ""
  }

  /** A reroll made for one kind of roll is a reroll of that kind. */
  ghost predicate RollFits(buff: SourcedBuff) {
    buff.contribution.kind == "reroll" && buff.applicableWhen.Some? && buff.applicableWhen.value.rollType.Some? &&
    buff.applicableWhen.value.rollType.value != "" ==>
      buff.contribution.roll == buff.applicableWhen.value.rollType
  }

  ghost predicate PhaseFits(cell: CellInput, w: Applicability) {
    w.phases.Some? ==> exists p :: p in w.phases.value && p == cell.scenario.phase
  }

  /** A distance that is known is within the range there is; an unknown one is let through. */
  ghost predicate InRange(cell: CellInput, w: Applicability) {
    w.maxRangeInches.Some? && cell.scenario.distanceInches.Some? ==>
      cell.scenario.distanceInches.value <= w.maxRangeInches.value
  }

  /** The buff applies in the cell: for the side it belongs to, against the other. */
  ghost predicate Applies(lib: Library, cell: CellInput, buff: SourcedBuff) {
    && RollFits(buff)
    && (buff.applicableWhen.Some? ==>
          && PhaseFits(cell, buff.applicableWhen.value) && InRange(cell, buff.applicableWhen.value)
          && Has(lib, Side(cell, buff.perspective).keywords, buff.applicableWhen.value.requiresAttackerKeyword)
          && Has(lib, Side(cell, Opposite(buff.perspective)).keywords, buff.applicableWhen.value.requiresTargetKeyword))
  }

  /** Whether it applies depends on a distance nobody gave. */
  ghost predicate DistanceUnknown(cell: CellInput, buff: SourcedBuff) {
    && buff.applicableWhen.Some? && buff.applicableWhen.value.maxRangeInches.Some?
    && cell.scenario.distanceInches.None?
  }

  /** The status of a buff, active or not, in the cell. */
  ghost predicate StatusFits(lib: Library, cell: CellInput, e: BuffEntry, status: EffectStatus) {
    && (status == NotApplicable <==> !(e.active && Applies(lib, cell, e.buff)))
    && (status == Approximated <==>
          && e.active && Applies(lib, cell, e.buff)
          && (DistanceUnknown(cell, e.buff) || e.buff.phaseMappingApproximated))
    && (status == Modeled <==>
          && e.active && Applies(lib, cell, e.buff)
          && !DistanceUnknown(cell, e.buff) && !e.buff.phaseMappingApproximated)
  }

  lemma {:induction false} FoldedMembers(lib: Library, values: seq<string>)
    ensures forall x :: x in Folded(lib, values) <==> x != "" && exists k :: k in values && lib.fold(k) == x
  {
    if values != [] {
      FoldedMembers(lib, values[1..]);
      assert values == [values[0]] + values[1..];
    }
  }

  lemma NormalizedMembers(lib: Library, values: seq<string>)
    ensures forall x :: x in NormalizedKeywords(lib, values) <==> x != "" && exists k :: k in values && lib.fold(k) == x
    ensures Ascending(NormalizedKeywords(lib, values))
  {
    FoldedMembers(lib, values);
    SortedUniqueAscending(Folded(lib, values));
    hide Folded, SortedUnique, Ascending;
  }

  lemma LacksIff(lib: Library, keywords: seq<string>, required: Option<string>)
    ensures Lacks(lib, NormalizedKeywords(lib, keywords), required) <==> !Has(lib, keywords, required)
  {
    hide Folded, SortedUnique, Ascending;
    NormalizedMembers(lib, keywords);
    NormalizedMembers(lib, NormalizedKeywords(lib, keywords));
    hide NormalizedKeywords;
    if required.Some? && required.value != "" && Has(lib, keywords, required) {
      var k :| k in keywords && lib.fold(k) != "" && lib.fold(lib.fold(k)) == lib.lower(required.value) != "";
      assert lib.fold(k) in NormalizedKeywords(lib, keywords);
    }
  }

  /** What a rule is read against: the phase and distance of the cell, its own keywords and those of the other side. */
  lemma ContextOf(lib: Library, cell: CellInput, plan: Plan, perspective: Perspective)
    ensures var c := ContextFor(lib, cell, plan, perspective);
            && c.perspective == perspective && c.phase == cell.scenario.phase
            && c.distanceInches == cell.scenario.distanceInches && c.rest == cell.scenario.rest
            && c.attackerKeywords == NormalizedKeywords(lib, Side(cell, perspective).keywords)
            && c.targetKeywords == NormalizedKeywords(lib, Side(cell, Opposite(perspective)).keywords)
            && (c.attached <==> AttachedBy(cell, plan, perspective))
  {
    hide NormalizedKeywords;
  }

  /** The scenario decides whether a side counts as attached; where it does not say, the plan does. */
  ghost predicate AttachedBy(cell: CellInput, plan: Plan, perspective: Perspective) {
    var said := match perspective
                case Attacker => cell.scenario.attackerAttached
                case Target => cell.scenario.targetAttached;
    var bindings := match perspective case Attacker => plan.selection.attacker case Target => plan.selection.target;
    var id := Side(cell, perspective).selectionId;
    && (said.Some? ==> said.value)
    && (said.None? ==> exists b :: b in bindings && (id == b.leader || id == b.bodyguard || id in b.supports))
  }

  function RulesOf(rv: RuleVariant, perspective: Perspective): seq<string> {
    match perspective case Attacker => rv.attackerRules case Target => rv.targetRules
  }

  /** The rules of a side are translated for the selection of that side, in that side's context. */
  lemma TranslationRead(lib: Library, cell: CellInput, rv: RuleVariant, perspective: Perspective)
    ensures TranslationOf(lib, cell, rv, perspective) ==
            lib.translate(RulesOf(rv, perspective), Side(cell, perspective).selectionId,
                          ContextFor(lib, cell, rv.attachmentPlan, perspective))
  {
    hide ContextFor;
  }

  /** The activations a plan's sets are formed of: those of the attacker's rules, then those of the target's. */
  lemma LeversAre(lib: Library, cell: CellInput, rv: RuleVariant)
    ensures var a, t, own := TranslationOf(lib, cell, rv, Attacker).levers, TranslationOf(lib, cell, rv, Target).levers,
                             LeversOf(lib, cell, rv);
            && |own| == |a| + |t|
            && (forall i :: 0 <= i < |a| ==> own[i] == a[i].lever)
            && (forall i :: 0 <= i < |t| ==> own[|a| + i] == t[i].lever)
            && forall l :: l in own <==> (exists x :: x in a && x.lever == l) || (exists x :: x in t && x.lever == l)
  {
    hide TranslationOf;
    var a, t := TranslationOf(lib, cell, rv, Attacker).levers, TranslationOf(lib, cell, rv, Target).levers;
    var own := LeversOf(lib, cell, rv);
    forall l
      ensures l in own <==> (exists x :: x in a && x.lever == l) || (exists x :: x in t && x.lever == l)
    {
      if x :| x in a && x.lever == l {
        var i :| 0 <= i < |a| && a[i] == x;
        assert own[i] == l;
      }
      if x :| x in t && x.lever == l {
        var i :| 0 <= i < |t| && t[i] == x;
        assert own[|a| + i] == l;
      }
      if l in own {
        var i :| 0 <= i < |own| && own[i] == l;
        assert if i < |a| then a[i] in a else t[i - |a|] in t;
      }
    }
  }

  lemma StatusIff(lib: Library, cell: CellInput, plan: Plan, e: BuffEntry)
    ensures StatusFits(lib, cell, e, EntryStatus(lib, e, ContextFor(lib, cell, plan, Attacker),
                                                 ContextFor(lib, cell, plan, Target)))
  {
    ContextOf(lib, cell, plan, e.buff.perspective);
    hide ContextFor, NormalizedKeywords, Has, Lacks;
    if e.buff.applicableWhen.Some? {
      LacksIff(lib, Side(cell, e.buff.perspective).keywords, e.buff.applicableWhen.value.requiresAttackerKeyword);
      LacksIff(lib, Side(cell, Opposite(e.buff.perspective)).keywords,
               e.buff.applicableWhen.value.requiresTargetKeyword);
    }
  }

  // ---- The buffs of a variant ----

  function AllBuffs(levers: seq<InternalLever>): seq<SourcedBuff> {
    if levers == [] then [] else AllBuffs(levers[..|levers| - 1]) + levers[|levers| - 1].buffs
  }

  /** A buff of a rule, always active, or of a lever, active while the lever is enabled. */
  ghost predicate OfTranslation(t: Translation, activeIds: seq<string>, e: BuffEntry) {
    || (e.active && e.buff in t.baseBuffs)
    || OfLever(t.levers, activeIds, e)
  }

  ghost predicate OfLever(levers: seq<InternalLever>, activeIds: seq<string>, e: BuffEntry) {
    exists l :: l in levers && e.buff in l.buffs && (e.active <==> l.lever.id in activeIds)
  }

  lemma EntriesAre(buffs: seq<SourcedBuff>, active: bool)
    ensures forall e :: e in Entries(buffs, active) <==> e.buff in buffs && e.active == active
    ensures BuffsOf(Entries(buffs, active)) == buffs
  {
    var entries := Entries(buffs, active);
    forall e: BuffEntry | e.buff in buffs && e.active == active ensures e in entries {
      var i :| 0 <= i < |buffs| && buffs[i] == e.buff;
      assert entries[i] == e;
    }
  }

  function BuffsOf(entries: seq<BuffEntry>): seq<SourcedBuff> {
    seq(|entries|, i requires 0 <= i < |entries| => entries[i].buff)
  }

  lemma BuffsConcat(a: seq<BuffEntry>, b: seq<BuffEntry>)
    ensures BuffsOf(a + b) == BuffsOf(a) + BuffsOf(b)
  {}

  lemma {:induction false} AllBuffsFront(levers: seq<InternalLever>)
    requires levers != []
    ensures AllBuffs(levers) == levers[0].buffs + AllBuffs(levers[1..])
    decreases |levers|
  {
    var n := |levers| - 1;
    if n > 0 {
      AllBuffsFront(levers[..n]);
      assert levers[..n][1..] == levers[1..][..n - 1];
      assert AllBuffs(levers) == levers[0].buffs + AllBuffs(levers[..n][1..]) + levers[n].buffs;
    }
  }

  lemma {:induction false} LeverEntriesAre(levers: seq<InternalLever>, activeIds: seq<string>)
    ensures forall e :: e in LeverEntries(levers, activeIds) <==> OfLever(levers, activeIds, e)
    ensures BuffsOf(LeverEntries(levers, activeIds)) == AllBuffs(levers)
  {
    if levers != [] {
      LeverEntriesAre(levers[1..], activeIds);
      EntriesAre(levers[0].buffs, levers[0].lever.id in activeIds);
      BuffsConcat(Entries(levers[0].buffs, levers[0].lever.id in activeIds), LeverEntries(levers[1..], activeIds));
      AllBuffsFront(levers);
      hide Entries, BuffsOf, AllBuffs;
      assert forall l :: l in levers <==> l == levers[0] || l in levers[1..];
    }
  }

  /** The buffs a variant looks at, attacker's rules first, in the order of the translations. */
  function VariantEntries(lib: Library, cell: CellInput, rv: RuleVariant, activeIds: seq<string>): seq<BuffEntry> {
    TranslationEntries(TranslationOf(lib, cell, rv, Attacker), activeIds)
    + TranslationEntries(TranslationOf(lib, cell, rv, Target), activeIds)
  }

  lemma VariantEntriesAre(lib: Library, cell: CellInput, rv: RuleVariant, activeIds: seq<string>)
    ensures var a, t := TranslationOf(lib, cell, rv, Attacker), TranslationOf(lib, cell, rv, Target);
            && (forall e :: e in VariantEntries(lib, cell, rv, activeIds) <==>
                  OfTranslation(a, activeIds, e) || OfTranslation(t, activeIds, e))
            && BuffsOf(VariantEntries(lib, cell, rv, activeIds)) ==
               a.baseBuffs + AllBuffs(a.levers) + (t.baseBuffs + AllBuffs(t.levers))
  {
    var a, t := TranslationOf(lib, cell, rv, Attacker), TranslationOf(lib, cell, rv, Target);
    TranslationEntriesAre(a, activeIds);
    TranslationEntriesAre(t, activeIds);
    BuffsConcat(TranslationEntries(a, activeIds), TranslationEntries(t, activeIds));
    hide TranslationOf, TranslationEntries, BuffsOf, AllBuffs, OfTranslation;
  }

  lemma TranslationEntriesAre(t: Translation, activeIds: seq<string>)
    ensures forall e :: e in TranslationEntries(t, activeIds) <==> OfTranslation(t, activeIds, e)
    ensures BuffsOf(TranslationEntries(t, activeIds)) == t.baseBuffs + AllBuffs(t.levers)
  {
    EntriesAre(t.baseBuffs, true);
    LeverEntriesAre(t.levers, activeIds);
    BuffsConcat(Entries(t.baseBuffs, true), LeverEntries(t.levers, activeIds));
    hide Entries, LeverEntries, BuffsOf, AllBuffs;
  }

  // ---- What is handed to the resolver ----

  ghost predicate Counts(lib: Library, cell: CellInput, side: Option<Perspective>, e: BuffEntry) {
    e.active && Applies(lib, cell, e.buff) && (side.None? || e.buff.perspective == side.value)
  }

  ghost predicate Increasing(places: seq<nat>) { forall j, k :: 0 <= j < k < |places| ==> places[j] < places[k] }

  ghost predicate ListsAt(lib: Library, cell: CellInput, entries: seq<BuffEntry>, side: Option<Perspective>,
                          list: seq<SourcedBuff>, places: seq<nat>) {
    && |places| == |list|
    && forall k :: 0 <= k < |places| ==>
         && places[k] < |entries| && Counts(lib, cell, side, entries[places[k]])
         && list[k] == entries[places[k]].buff.(applicableWhen := None)
  }

  ghost predicate HasAll(lib: Library, cell: CellInput, entries: seq<BuffEntry>, side: Option<Perspective>,
                         places: seq<nat>) {
    forall i :: 0 <= i < |entries| && Counts(lib, cell, side, entries[i]) ==> i in places
  }

  /** The list is the buffs at the given places, in order, their conditions dropped, and no other buff counts. */
  ghost predicate Picked(lib: Library, cell: CellInput, entries: seq<BuffEntry>, side: Option<Perspective>,
                         list: seq<SourcedBuff>, places: seq<nat>) {
    && Increasing(places) && ListsAt(lib, cell, entries, side, list, places)
    && HasAll(lib, cell, entries, side, places)
  }

  function Shifted(places: seq<nat>): seq<nat> { seq(|places|, i requires 0 <= i < |places| => places[i] + 1) }

  lemma {:induction false} IncludedPicked(lib: Library, cell: CellInput, plan: Plan, entries: seq<BuffEntry>,
                                          side: Option<Perspective>)
    returns (places: seq<nat>)
    ensures Picked(lib, cell, entries, side,
                   Included(lib, entries, ContextFor(lib, cell, plan, Attacker), ContextFor(lib, cell, plan, Target),
                            side), places)
  {
    hide ContextFor, EntryStatus, Applies;
    places := [];
    if entries != [] {
      var later := IncludedPicked(lib, cell, plan, entries[1..], side);
      StatusIff(lib, cell, plan, entries[0]);
      places := (if Counts(lib, cell, side, entries[0]) then [0] else []) + Shifted(later);
      PickedFront(lib, cell, entries, side,
                  Included(lib, entries[1..], ContextFor(lib, cell, plan, Attacker),
                           ContextFor(lib, cell, plan, Target), side), later);
    }
  }

  lemma PickedFront(lib: Library, cell: CellInput, entries: seq<BuffEntry>, side: Option<Perspective>,
                    list: seq<SourcedBuff>, later: seq<nat>)
    requires entries != [] && Picked(lib, cell, entries[1..], side, list, later)
    ensures Picked(lib, cell, entries, side,
                   (if Counts(lib, cell, side, entries[0]) then [entries[0].buff.(applicableWhen := None)] else []) +
                   list, (if Counts(lib, cell, side, entries[0]) then [0] else []) + Shifted(later))
  {
    hide Counts, ListsAt, HasAll;
    ShiftedIncreasing(later);
    if Counts(lib, cell, side, entries[0]) {
      FirstListed(lib, cell, entries, side, list, later);
    } else {
      FirstSkipped(lib, cell, entries, side, list, later);
      assert [] + list == list && [] + Shifted(later) == Shifted(later);
    }
    AllLater(lib, cell, entries, side, later);
    hide Increasing, Shifted;
  }

  lemma ShiftedIncreasing(later: seq<nat>)
    requires Increasing(later)
    ensures Increasing(Shifted(later)) && Increasing([0] + Shifted(later))
  {}

  lemma FirstListed(lib: Library, cell: CellInput, entries: seq<BuffEntry>, side: Option<Perspective>,
                    list: seq<SourcedBuff>, later: seq<nat>)
    requires entries != [] && ListsAt(lib, cell, entries[1..], side, list, later)
    requires Counts(lib, cell, side, entries[0])
    ensures ListsAt(lib, cell, entries, side, [entries[0].buff.(applicableWhen := None)] + list, [0] + Shifted(later))
  {
    hide Counts;
    var places := [0] + Shifted(later);
    forall k | 0 < k < |places|
      ensures places[k] == later[k - 1] + 1 && entries[places[k]] == entries[1..][later[k - 1]] {}
  }

  lemma FirstSkipped(lib: Library, cell: CellInput, entries: seq<BuffEntry>, side: Option<Perspective>,
                     list: seq<SourcedBuff>, later: seq<nat>)
    requires entries != [] && ListsAt(lib, cell, entries[1..], side, list, later)
    ensures ListsAt(lib, cell, entries, side, list, Shifted(later))
  {
    hide Counts;
    forall k | 0 <= k < |later| ensures entries[Shifted(later)[k]] == entries[1..][later[k]] {}
  }

  lemma AllLater(lib: Library, cell: CellInput, entries: seq<BuffEntry>, side: Option<Perspective>, later: seq<nat>)
    requires entries != [] && HasAll(lib, cell, entries[1..], side, later)
    ensures HasAll(lib, cell, entries, side,
                   (if Counts(lib, cell, side, entries[0]) then [0] else []) + Shifted(later))
  {
    hide Counts;
    var first := if Counts(lib, cell, side, entries[0]) then [0] else [];
    forall i | 0 <= i < |entries| && Counts(lib, cell, side, entries[i]) ensures i in first + Shifted(later) {
      if i > 0 {
        assert entries[1..][i - 1] == entries[i];
        var k :| 0 <= k < |later| && later[k] == i - 1;
        assert Shifted(later)[k] == i;
      }
    }
  }

  // ---- What the variant records ----

  /** The effect recorded for a buff: its own id, contribution and provenance, and the status it has here. */
  ghost predicate Records(lib: Library, cell: CellInput, e: BuffEntry, x: Effect) {
    && x.effectId == e.buff.effectId && x.contribution == Some(e.buff.contribution)
    && x.provenance == e.buff.provenance && StatusFits(lib, cell, e, x.status)
  }

  /**
    The effects of a variant, in order of their ids, are the fixed effects of both translations and one record
    for every buff; the buffs handed to the resolver, for each side and together, are exactly those that are
    active and apply, in their order.
   */
  ghost predicate SaysOf(lib: Library, cell: CellInput, rv: RuleVariant, v: BridgeVariant) {
    var a, t := TranslationOf(lib, cell, rv, Attacker), TranslationOf(lib, cell, rv, Target);
    var entries := VariantEntries(lib, cell, rv, v.activation.activeIds);
    && v.attachmentPlan == AttachmentEnvelope.NormalizePlan(rv.attachmentPlan)
    && SortedBy(EffectBefore, v.effects)
    && (exists records :: RecordsAll(lib, cell, entries, records) &&
          multiset(v.effects) == multiset(a.fixedEffects) + multiset(t.fixedEffects) + multiset(records))
    && ResolvedAs(lib, cell, rv, entries, None, Attacker, v.resolved)
    && ResolvedAs(lib, cell, rv, entries, Some(Attacker), Attacker, v.resolvedByPerspective.attacker)
    && ResolvedAs(lib, cell, rv, entries, Some(Target), Target, v.resolvedByPerspective.target)
  }

  ghost predicate RecordsAll(lib: Library, cell: CellInput, entries: seq<BuffEntry>, records: seq<Effect>) {
    |records| == |entries| && forall i :: 0 <= i < |entries| ==> Records(lib, cell, entries[i], records[i])
  }

  ghost predicate ResolvedAs(lib: Library, cell: CellInput, rv: RuleVariant, entries: seq<BuffEntry>,
                             side: Option<Perspective>, perspective: Perspective, resolved: string) {
    exists list, places ::
      Picked(lib, cell, entries, side, list, places) &&
      resolved == lib.resolve(list, ContextFor(lib, cell, rv.attachmentPlan, perspective))
  }

  lemma MappedRecords(lib: Library, cell: CellInput, plan: Plan, entries: seq<BuffEntry>)
    ensures RecordsAll(lib, cell, entries, Mapped(lib, entries, ContextFor(lib, cell, plan, Attacker),
                                                  ContextFor(lib, cell, plan, Target)))
  {
    hide ContextFor, EntryStatus, StatusFits;
    forall i | 0 <= i < |entries|
      ensures StatusFits(lib, cell, entries[i], EntryStatus(lib, entries[i], ContextFor(lib, cell, plan, Attacker),
                                                            ContextFor(lib, cell, plan, Target)))
    {
      StatusIff(lib, cell, plan, entries[i]);
    }
  }

  lemma EffectsInOrder(effects: seq<Effect>)
    ensures SortedBy(EffectBefore, SortBy(EffectBefore, effects))
    ensures multiset(SortBy(EffectBefore, effects)) == multiset(effects)
  {
    StringLessWeakOrder();
    assert forall x, y :: EffectBefore(x, y) <==> StringLess(x.effectId, y.effectId);
    assert WeakOrder(EffectBefore);
    SortBySorted(EffectBefore, effects);
    SortByMultiset(EffectBefore, effects);
  }

  lemma ResolvedByIncluded(lib: Library, cell: CellInput, rv: RuleVariant, entries: seq<BuffEntry>,
                           side: Option<Perspective>, perspective: Perspective)
    ensures var a, t := ContextFor(lib, cell, rv.attachmentPlan, Attacker),
                        ContextFor(lib, cell, rv.attachmentPlan, Target);
            ResolvedAs(lib, cell, rv, entries, side, perspective,
                       lib.resolve(Included(lib, entries, a, t, side),
                                   ContextFor(lib, cell, rv.attachmentPlan, perspective)))
  {
    var places := IncludedPicked(lib, cell, rv.attachmentPlan, entries, side);
    hide ContextFor, Included, Picked;
  }

  /** A compiled variant says exactly this of its cell. */
  lemma VariantSays(lib: Library, cell: CellInput, rv: RuleVariant, activation: Variant, diagnostics: seq<Diagnostic>)
    ensures SaysOf(lib, cell, rv, CompileVariant(lib, cell, rv, activation, diagnostics))
    ensures CompileVariant(lib, cell, rv, activation, diagnostics).activation == activation
    ensures CompileVariant(lib, cell, rv, activation, diagnostics).coverage ==
            CoverageFrom(CompileVariant(lib, cell, rv, activation, diagnostics).effects,
                         diagnostics + TranslationOf(lib, cell, rv, Attacker).diagnostics +
                         TranslationOf(lib, cell, rv, Target).diagnostics)
  {
    var plan := rv.attachmentPlan;
    var a, t := TranslationOf(lib, cell, rv, Attacker), TranslationOf(lib, cell, rv, Target);
    var entries := VariantEntries(lib, cell, rv, activation.activeIds);
    var records := Mapped(lib, entries, ContextFor(lib, cell, plan, Attacker), ContextFor(lib, cell, plan, Target));
    MappedRecords(lib, cell, plan, entries);
    EffectsInOrder(a.fixedEffects + t.fixedEffects + records);
    ResolvedByIncluded(lib, cell, rv, entries, None, Attacker);
    ResolvedByIncluded(lib, cell, rv, entries, Some(Attacker), Attacker);
    ResolvedByIncluded(lib, cell, rv, entries, Some(Target), Target);
    hide ContextFor, TranslationOf, TranslationEntries, RecordsAll, ResolvedAs, CoverageFrom, SortBy, Included, Mapped,
      EffectBefore, AttachmentEnvelope.NormalizePlan;
  }
}
