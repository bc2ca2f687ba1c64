/** lib/rosterpilot/combat-bridge.ts:577-703, `planHasDuplicateMembers` and `enumerateAttachmentEnvelope`. */
module AttachmentEnvelope {
  import opened Sequences
  import opened Wrappers
  import opened Ordering
  import opened CombatTypes
  import opened BridgeTypes

  // ---- Normal forms ----

  function NormalizeBinding(b: Binding): Binding { b.(supports := SortedUnique(b.supports)) }

  function NormalizeAll(bindings: seq<Binding>): seq<Binding> {
    if bindings == [] then [] else [NormalizeBinding(bindings[0])] + NormalizeAll(bindings[1..])
  }

  /** Leaders decide, then bodyguards, then the support ids joined by a NUL character. */
  predicate BindingBefore(a: Binding, b: Binding) {
    || StringLess(a.leader, b.leader)
    || (a.leader == b.leader && StringLess(a.bodyguard, b.bodyguard))
    || (a.leader == b.leader && a.bodyguard == b.bodyguard &&
        StringLess(JoinBy("\0", a.supports), JoinBy("\0", b.supports)))
  }

  function NormalizeSelection(s: Selection): Selection {
    Selection(SortBy(BindingBefore, NormalizeAll(s.attacker)), SortBy(BindingBefore, NormalizeAll(s.target)))
  }

  function NormalizePlan(p: Plan): Plan { p.(selection := NormalizeSelection(p.selection)) }

  // ---- What a normal form forgets ----

  /** The same leader with the same bodyguard and the same supports, in whatever order. */
  ghost predicate SameBinding(a: Binding, b: Binding) {
    a.leader == b.leader && a.bodyguard == b.bodyguard && forall x :: x in a.supports <==> x in b.supports
  }

  ghost predicate Within(a: seq<Binding>, b: seq<Binding>) {
    forall x :: x in a ==> exists y :: y in b && SameBinding(x, y)
  }

  /** The same bindings on both sides, in whatever order. */
  ghost predicate SameAttachment(s: Selection, t: Selection) {
    && Within(s.attacker, t.attacker) && Within(t.attacker, s.attacker)
    && Within(s.target, t.target) && Within(t.target, s.target)
  }

  lemma NormalBindingIff(a: Binding, b: Binding)
    ensures NormalizeBinding(a) == NormalizeBinding(b) <==> SameBinding(a, b)
  {
    hide SortedUnique, Ascending;
    SortedUniqueAscending(a.supports);
    SortedUniqueAscending(b.supports);
    if SameBinding(a, b) { AscendingUnique(SortedUnique(a.supports), SortedUnique(b.supports)); }
    if NormalizeBinding(a) == NormalizeBinding(b) {
      forall x ensures x in a.supports <==> x in b.supports {
        assert x in SortedUnique(a.supports) <==> x in a.supports;
      }
    }
  }

  lemma {:induction false} NormalizeAllAt(bindings: seq<Binding>)
    ensures |NormalizeAll(bindings)| == |bindings|
    ensures forall i :: 0 <= i < |bindings| ==> NormalizeAll(bindings)[i] == NormalizeBinding(bindings[i])
  {
    hide NormalizeBinding;
    if bindings != [] { NormalizeAllAt(bindings[1..]); }
  }

  lemma NormalizeAllMembers(bindings: seq<Binding>)
    ensures forall n :: n in NormalizeAll(bindings) <==> exists b :: b in bindings && n == NormalizeBinding(b)
  {
    NormalizeAllAt(bindings);
    hide NormalizeBinding, NormalizeAll;
    var all := NormalizeAll(bindings);
    forall n ensures n in all <==> exists b :: b in bindings && n == NormalizeBinding(b) {
      if n in all {
        var i :| 0 <= i < |all| && all[i] == n;
        assert bindings[i] in bindings;
      }
      if b :| b in bindings && n == NormalizeBinding(b) {
        var i :| 0 <= i < |bindings| && bindings[i] == b;
        assert all[i] in all;
      }
    }
  }

  lemma MembersWithin(a: seq<Binding>, b: seq<Binding>)
    requires forall n :: n in NormalizeAll(a) ==> n in NormalizeAll(b)
    ensures Within(a, b)
  {
    NormalizeAllMembers(a);
    NormalizeAllMembers(b);
    hide NormalizeAll, NormalizeBinding, SameBinding;
    forall x | x in a ensures exists y :: y in b && SameBinding(x, y) {
      assert NormalizeBinding(x) in NormalizeAll(b);
      var y :| y in b && NormalizeBinding(x) == NormalizeBinding(y);
      NormalBindingIff(x, y);
    }
  }

  lemma WithinMembers(a: seq<Binding>, b: seq<Binding>)
    requires Within(a, b)
    ensures forall n :: n in NormalizeAll(a) ==> n in NormalizeAll(b)
  {
    NormalizeAllMembers(a);
    NormalizeAllMembers(b);
    hide NormalizeAll, NormalizeBinding, SameBinding;
    forall n | n in NormalizeAll(a) ensures n in NormalizeAll(b) {
      var x :| x in a && n == NormalizeBinding(x);
      var y :| y in b && SameBinding(x, y);
      NormalBindingIff(x, y);
    }
  }

  /** Leaders of one side differ when no selection is used twice. */
  lemma {:induction false} LeadersDiffer(bindings: seq<Binding>, i: nat, j: nat)
    requires NoRepeats(Members(bindings)) && i < j < |bindings|
    ensures bindings[i].leader != bindings[j].leader
  {
    var n := |bindings| - 1;
    var before := Members(bindings[..n]);
    assert Members(bindings) == before + ([bindings[n].leader, bindings[n].bodyguard] + bindings[n].supports);
    if j < n {
      PrefixNoRepeats(before, [bindings[n].leader, bindings[n].bodyguard] + bindings[n].supports);
      LeadersDiffer(bindings[..n], i, j);
    } else {
      LeaderIsMember(bindings[..n], i);
      var k :| 0 <= k < |before| && before[k] == bindings[i].leader;
      assert Members(bindings)[k] == bindings[i].leader && Members(bindings)[|before|] == bindings[n].leader;
    }
  }

  lemma PrefixNoRepeats(a: seq<string>, b: seq<string>)
    requires NoRepeats(a + b)
    ensures NoRepeats(a)
  {
    forall i, j | 0 <= i < j < |a| ensures a[i] != a[j] { assert (a + b)[i] != (a + b)[j]; }
  }

  lemma {:induction false} LeaderIsMember(bindings: seq<Binding>, i: nat)
    requires i < |bindings|
    ensures bindings[i].leader in Members(bindings)
  {
    var n := |bindings| - 1;
    if i < n {
      LeaderIsMember(bindings[..n], i);
      assert bindings[i].leader in Members(bindings[..n]);
    }
  }

  lemma BindingBeforeOrder()
    ensures WeakOrder(BindingBefore)
  {
    forall a: Binding ensures !BindingBefore(a, a) {
      StringLessIrreflexive(a.leader);
      StringLessIrreflexive(a.bodyguard);
      StringLessIrreflexive(JoinBy("\0", a.supports));
    }
    hide JoinBy;
    StringLessWeakOrder();
    forall a, b, c | BindingBefore(a, b) && BindingBefore(b, c) ensures BindingBefore(a, c) {}
    forall a, b, c | BindingBefore(a, c) ensures BindingBefore(a, b) || BindingBefore(b, c) {
      StringLessTotal(a.leader, b.leader);
      StringLessTotal(a.bodyguard, b.bodyguard);
    }
  }

  lemma NormalLeadersDiffer(bindings: seq<Binding>)
    requires NoRepeats(Members(bindings))
    ensures forall i, j :: 0 <= i < j < |NormalizeAll(bindings)| ==>
              NormalizeAll(bindings)[i].leader != NormalizeAll(bindings)[j].leader
  {
    var all := NormalizeAll(bindings);
    NormalizeAllAt(bindings);
    hide NormalizeAll, Members, SortedUnique, NoRepeats;
    forall i, j | 0 <= i < j < |all| ensures all[i].leader != all[j].leader { LeadersDiffer(bindings, i, j); }
  }

  /** One side in normal form: the bindings in order, none twice when no selection is used twice. */
  lemma NormalSide(bindings: seq<Binding>)
    requires NoRepeats(Members(bindings))
    ensures var n := SortBy(BindingBefore, NormalizeAll(bindings));
            && SortedBy(BindingBefore, n) && NoRepeats(n)
            && (forall x :: x in n <==> x in NormalizeAll(bindings))
            && (forall x, y :: x in n && y in n && x != y ==> x.leader != y.leader)
  {
    hide *;
    var all := NormalizeAll(bindings);
    NormalLeadersDiffer(bindings);
    BindingBeforeOrder();
    SortBySorted(BindingBefore, all);
    SortByMembers(BindingBefore, all);
    SortOnce(all);
    forall x, y | x in all && y in all && x != y ensures x.leader != y.leader {
      var i :| 0 <= i < |all| && all[i] == x;
      var j :| 0 <= j < |all| && all[j] == y;
      assert i < j || j < i;
    }
  }

  lemma SortOnce(all: seq<Binding>)
    requires forall i, j :: 0 <= i < j < |all| ==> all[i].leader != all[j].leader
    ensures NoRepeats(SortBy(BindingBefore, all))
  {
    hide SortBy, BindingBefore;
    SortByMultiset(BindingBefore, all);
    var n := SortBy(BindingBefore, all);
    forall i, j | 0 <= i < j < |n| ensures n[i] != n[j] {
      NoRepeatCount(all, n[i]);
      if n[i] == n[j] { CountTwice(n, i, j); }
    }
  }

  lemma SameSideIff(a: seq<Binding>, b: seq<Binding>)
    requires NoRepeats(Members(a)) && NoRepeats(Members(b))
    ensures SortBy(BindingBefore, NormalizeAll(a)) == SortBy(BindingBefore, NormalizeAll(b)) <==>
            Within(a, b) && Within(b, a)
  {
    NormalSide(a);
    NormalSide(b);
    if Within(a, b) && Within(b, a) {
      WithinMembers(a, b);
      WithinMembers(b, a);
    }
    hide NormalizeAll, SortBy, Members, Within, NoRepeats;
    var m, n := SortBy(BindingBefore, NormalizeAll(a)), SortBy(BindingBefore, NormalizeAll(b));
    if Within(a, b) && Within(b, a) {
      assert forall x :: x in m <==> x in n;
      forall x, y | x in m && y in m && x != y ensures BindingBefore(x, y) || BindingBefore(y, x) {
        StringLessTotal(x.leader, y.leader);
      }
      hide BindingBefore;
      SortedMembersUnique(BindingBefore, m, n);
    }
    if m == n {
      forall x ensures x in NormalizeAll(a) <==> x in NormalizeAll(b) { assert x in m <==> x in n; }
      MembersWithin(a, b);
      MembersWithin(b, a);
    }
  }

  /** Two attachments that use no selection twice have one normal form exactly when they bind the same. */
  lemma SameNormalIff(s: Selection, t: Selection)
    requires !Overlaps(s) && !Overlaps(t)
    ensures NormalizeSelection(s) == NormalizeSelection(t) <==> SameAttachment(s, t)
  {
    hide NormalizeAll, SortBy, Within, NoRepeats, Members;
    SameSideIff(s.attacker, t.attacker);
    SameSideIff(s.target, t.target);
  }

  // ---- Repeated members ----

  function Members(bindings: seq<Binding>): seq<string> {
    if bindings == [] then []
    else Members(bindings[..|bindings| - 1]) + [bindings[|bindings| - 1].leader, bindings[|bindings| - 1].bodyguard] +
         bindings[|bindings| - 1].supports
  }

  /** Some selection is assigned twice on one side. */
  ghost predicate Overlaps(s: Selection) { !NoRepeats(Members(s.attacker)) || !NoRepeats(Members(s.target)) }

  method HasRepeat(ids: seq<string>) returns (r: bool)
    ensures r <==> !NoRepeats(ids)
  {
    var seen: set<string> := {};
    for i := 0 to |ids|
      invariant forall x :: x in seen <==> x in ids[..i]
      invariant forall j, k :: 0 <= j < k < i ==> ids[j] != ids[k]
    {
      if ids[i] in seen {
        var j :| 0 <= j < i && ids[..i][j] == ids[i];
        assert ids[j] == ids[i];
        return true;
      }
      seen := seen + {ids[i]};
    }
    return false;
  }

  method PlanHasDuplicateMembers(s: Selection) returns (r: bool)
    ensures r <==> Overlaps(s)
  {
    r := HasRepeat(Members(s.attacker));
    if !r { r := HasRepeat(Members(s.target)); }
  }

  predicate IsEmptyPlan(p: Plan) { p.selection.attacker == [] && p.selection.target == [] }

  /** The empty plan first, then by id. */
  predicate PlanBefore(a: RuleVariant, b: RuleVariant) {
    || (IsEmptyPlan(a.attachmentPlan) && !IsEmptyPlan(b.attachmentPlan))
    || ((IsEmptyPlan(a.attachmentPlan) <==> IsEmptyPlan(b.attachmentPlan)) &&
        StringLess(a.attachmentPlan.id, b.attachmentPlan.id))
  }

  // ---- The envelope ----

  datatype FilterState = FilterState(kept: seq<RuleVariant>, diagnostics: seq<Diagnostic>)

  predicate Clash(a: RuleVariant, b: RuleVariant) {
    || a.attachmentPlan.id == b.attachmentPlan.id
    || NormalizeSelection(a.attachmentPlan.selection) == NormalizeSelection(b.attachmentPlan.selection)
  }

  ghost predicate Taken(kept: seq<RuleVariant>, c: RuleVariant) {
    exists k :: k in kept && Clash(k, c)
  }

  ghost function FilterAll(candidates: seq<RuleVariant>): FilterState {
    if candidates == [] then FilterState([], [])
    else
      var s := FilterAll(candidates[..|candidates| - 1]);
      var c := candidates[|candidates| - 1];
      if Overlaps(c.attachmentPlan.selection) then
        s.(diagnostics := s.diagnostics + [Diagnostic(AttachmentPlanOverlap, Unusable)])
      else if Taken(s.kept, c) then
        s.(diagnostics := s.diagnostics + [Diagnostic(AttachmentPlanDuplicate, Unusable)])
      else
        s.(kept := s.kept + [c])
  }

  /** No plan assigns a selection twice, and no two plans share an id or a normal form. */
  ghost predicate SoundCandidates(candidates: seq<RuleVariant>) {
    && (forall c :: c in candidates ==> !Overlaps(c.attachmentPlan.selection))
    && (forall i, j :: 0 <= i < j < |candidates| ==> !Clash(candidates[i], candidates[j]))
  }

  lemma SoundAppend(s: seq<RuleVariant>, c: RuleVariant)
    ensures SoundCandidates(s + [c]) <==> SoundCandidates(s) && !Overlaps(c.attachmentPlan.selection) && !Taken(s, c)
  {
    hide Overlaps, Clash;
    var all := s + [c];
    assert forall x :: x in all <==> x in s || x == c;
    if SoundCandidates(all) {
      forall k | k in s ensures !Clash(k, c) {
        var i :| 0 <= i < |s| && s[i] == k;
        assert !Clash(all[i], all[|s|]);
      }
      forall i, j | 0 <= i < j < |s| ensures !Clash(s[i], s[j]) { assert !Clash(all[i], all[j]); }
    }
  }

  lemma {:induction false} FilterSound(candidates: seq<RuleVariant>)
    ensures FilterAll(candidates).diagnostics == [] <==> SoundCandidates(candidates)
    ensures forall d :: d in FilterAll(candidates).diagnostics ==> d.severity == Unusable
    ensures FilterAll(candidates).diagnostics == [] ==> FilterAll(candidates).kept == candidates
  {
    hide Overlaps, Clash, Taken, SoundCandidates;
    if candidates == [] {
      NoCandidates();
    } else {
      var n := |candidates| - 1;
      FilterSound(candidates[..n]);
      assert candidates == candidates[..n] + [candidates[n]];
      SoundAppend(candidates[..n], candidates[n]);
    }
  }

  lemma NoCandidates()
    ensures SoundCandidates([])
  {}

  function PlanLimit(policy: Policy): (limit: nat)
    ensures 1 <= limit <= MAX_COMBAT_ATTACHMENT_PLANS
    ensures policy.limits.None? ==> limit == 16
    ensures policy.limits.Some? && 1 <= policy.limits.value.maxAttachmentPlans <= 16 ==>
              limit == policy.limits.value.maxAttachmentPlans
    ensures policy.limits.Some? && policy.limits.value.maxAttachmentPlans > 16 ==> limit == 16
    ensures policy.limits.Some? && policy.limits.value.maxAttachmentPlans < 1 ==> limit == 1
  {
    var wanted := if policy.limits.Some? then policy.limits.value.maxAttachmentPlans else MAX_COMBAT_ATTACHMENT_PLANS;
    if wanted < 1 then 1 else if wanted > MAX_COMBAT_ATTACHMENT_PLANS then MAX_COMBAT_ATTACHMENT_PLANS else wanted
  }

  predicate Matches(policy: Policy, c: RuleVariant) {
    NormalizeSelection(c.attachmentPlan.selection) == NormalizeSelection(policy.attachments)
  }

  function FirstMatch(policy: Policy, candidates: seq<RuleVariant>): Option<RuleVariant> {
    if candidates == [] then None
    else if Matches(policy, candidates[0]) then Some(candidates[0])
    else FirstMatch(policy, candidates[1..])
  }

  ghost function AttachmentEnvelopeOf(candidates: seq<RuleVariant>, policy: Policy): EnvelopeResult<RuleVariant> {
    var s := FilterAll(candidates);
    var valid := SortBy(PlanBefore, s.kept);
    if valid == [] then
      EnvelopeResult([], false, false, s.diagnostics + [Diagnostic(AttachmentPlanMissing, Unusable)])
    else if policy.attachmentMode.SelectedPlan? then
      if Overlaps(policy.attachments) then
        EnvelopeResult([], false, false, s.diagnostics + [Diagnostic(AttachmentSelectionOverlap, Unusable)])
      else if FirstMatch(policy, valid).None? then
        EnvelopeResult([], false, false, s.diagnostics + [Diagnostic(AttachmentSelectionUnresolved, Unusable)])
      else
        EnvelopeResult([FirstMatch(policy, valid).value], false, s.diagnostics == [], s.diagnostics)
    else
      var cut := |valid| > PlanLimit(policy);
      EnvelopeResult(if cut then valid[..PlanLimit(policy)] else valid, cut, s.diagnostics == [],
                     s.diagnostics + if cut then [Diagnostic(AttachmentEnvelopeTruncated, PartialEvidence)] else [])
  }

  /** The filter over the candidates: it remembers the ids and normal forms it has let through. */
  method FilterCandidates(candidates: seq<RuleVariant>) returns (kept: seq<RuleVariant>, diagnostics: seq<Diagnostic>)
    ensures FilterState(kept, diagnostics) == FilterAll(candidates)
  {
    hide Overlaps, NormalizeSelection, Clash, Taken;
    kept, diagnostics := [], [];
    var ids: set<string>, keys: set<Selection> := {}, {};
    NothingTaken();
    for i := 0 to |candidates|
      invariant FilterState(kept, diagnostics) == FilterAll(candidates[..i])
      invariant forall c: RuleVariant :: Taken(kept, c) <==> KeyTaken(c, ids, keys)
    {
      var candidate := candidates[i];
      assert candidates[..i + 1][..i] == candidates[..i];
      var key := NormalizeSelection(candidate.attachmentPlan.selection);
      var repeated := PlanHasDuplicateMembers(candidate.attachmentPlan.selection);
      if repeated {
        diagnostics := diagnostics + [Diagnostic(AttachmentPlanOverlap, Unusable)];
      } else if candidate.attachmentPlan.id in ids || key in keys {
        diagnostics := diagnostics + [Diagnostic(AttachmentPlanDuplicate, Unusable)];
      } else {
        TakenAppend(kept, candidate, ids, keys);
        ids, keys := ids + {candidate.attachmentPlan.id}, keys + {key};
        kept := kept + [candidate];
      }
    }
    assert candidates[..|candidates|] == candidates;
  }

  predicate KeyTaken(c: RuleVariant, ids: set<string>, keys: set<Selection>) {
    c.attachmentPlan.id in ids || NormalizeSelection(c.attachmentPlan.selection) in keys
  }

  lemma NothingTaken()
    ensures forall c: RuleVariant :: !Taken([], c)
  {}

  lemma TakenAppend(kept: seq<RuleVariant>, x: RuleVariant, ids: set<string>, keys: set<Selection>)
    requires forall c: RuleVariant :: Taken(kept, c) <==> KeyTaken(c, ids, keys)
    ensures forall c: RuleVariant :: Taken(kept + [x], c) <==>
      KeyTaken(c, ids + {x.attachmentPlan.id}, keys + {NormalizeSelection(x.attachmentPlan.selection)})
  {
    hide NormalizeSelection;
    assert forall k :: k in kept + [x] <==> k in kept || k == x;
    assert forall c: RuleVariant :: Taken(kept + [x], c) <==> Taken(kept, c) || Clash(x, c);
  }

  method EnumerateAttachmentEnvelope(candidates: seq<RuleVariant>, policy: Policy)
    returns (r: EnvelopeResult<RuleVariant>)
    ensures r == AttachmentEnvelopeOf(candidates, policy)
  {
    hide Overlaps, NormalizeSelection, SortBy, FilterAll, SoundCandidates;
    var maximum := PlanLimit(policy);
    var kept, diagnostics := FilterCandidates(candidates);
    FilterSound(candidates);
    var valid := SortBy(PlanBefore, kept);
    if valid == [] {
      return EnvelopeResult([], false, false, diagnostics + [Diagnostic(AttachmentPlanMissing, Unusable)]);
    }
    if policy.attachmentMode.SelectedPlan? {
      var repeated := PlanHasDuplicateMembers(policy.attachments);
      if repeated {
        return EnvelopeResult([], false, false, diagnostics + [Diagnostic(AttachmentSelectionOverlap, Unusable)]);
      }
      var selected := FirstMatch(policy, valid);
      if selected.None? {
        return EnvelopeResult([], false, false, diagnostics + [Diagnostic(AttachmentSelectionUnresolved, Unusable)]);
      }
      return EnvelopeResult([selected.value], false, diagnostics == [], diagnostics);
    }
    var truncated := |valid| > maximum;
    ghost var before := diagnostics;
    if truncated {
      diagnostics := diagnostics + [Diagnostic(AttachmentEnvelopeTruncated, PartialEvidence)];
    }
    r := EnvelopeResult(if truncated then valid[..maximum] else valid, truncated, !HasUnusable(diagnostics),
                        diagnostics);
    assert before != [] ==> before[0] in diagnostics;
  }

  /** The plans a policy allows of a sound candidate list. */
  ghost predicate PlanAllowed(candidates: seq<RuleVariant>, policy: Policy, c: RuleVariant) {
    c in candidates && (policy.attachmentMode.SelectedPlan? ==> Matches(policy, c))
  }

  lemma {:induction false} FirstMatchFound(policy: Policy, candidates: seq<RuleVariant>)
    ensures FirstMatch(policy, candidates).Some? <==> exists c :: c in candidates && Matches(policy, c)
    ensures FirstMatch(policy, candidates).Some? ==>
      FirstMatch(policy, candidates).value in candidates && Matches(policy, FirstMatch(policy, candidates).value)
  {
    hide Matches;
    if candidates != [] {
      var first, rest := candidates[0], candidates[1..];
      assert FirstMatch(policy, candidates) == if Matches(policy, first) then Some(first) else FirstMatch(policy, rest);
      FirstMatchFound(policy, rest);
      assert candidates == [first] + rest;
      hide FirstMatch;
      assert forall c :: c in candidates <==> c == first || c in rest;
    }
  }

  /** A valid, uncut envelope lists exactly the allowed plans of a sound candidate list, each once. */
  lemma ValidEnvelopeExact(candidates: seq<RuleVariant>, policy: Policy)
    requires AttachmentEnvelopeOf(candidates, policy).valid
    ensures SoundCandidates(candidates)
    ensures AttachmentEnvelopeOf(candidates, policy).items != []
    ensures AttachmentEnvelopeOf(candidates, policy).truncated ==>
            HasPartial(AttachmentEnvelopeOf(candidates, policy).diagnostics)
    ensures !AttachmentEnvelopeOf(candidates, policy).truncated ==>
      && AttachmentEnvelopeOf(candidates, policy).diagnostics == []
      && (forall c :: c in AttachmentEnvelopeOf(candidates, policy).items <==> PlanAllowed(candidates, policy, c))
      && SoundCandidates(AttachmentEnvelopeOf(candidates, policy).items)
  {
    hide Overlaps, NormalizeSelection;
    FilterSound(candidates);
    var valid := SortBy(PlanBefore, FilterAll(candidates).kept);
    SortByMembers(PlanBefore, candidates);
    FirstMatchFound(policy, valid);
    SortKeepsSound(candidates);
    var r := AttachmentEnvelopeOf(candidates, policy);
    if policy.attachmentMode.SelectedPlan? {
      var selected := FirstMatch(policy, valid).value;
      forall c ensures c in r.items <==> PlanAllowed(candidates, policy, c) {
        if PlanAllowed(candidates, policy, c) { OneMatch(candidates, policy, c, selected); }
      }
    } else if r.truncated {
      assert r.diagnostics[0] in r.diagnostics;
    }
  }

  lemma OneMatch(candidates: seq<RuleVariant>, policy: Policy, c: RuleVariant, d: RuleVariant)
    requires SoundCandidates(candidates) && c in candidates && d in candidates
    requires Matches(policy, c) && Matches(policy, d)
    ensures c == d
  {
    hide Overlaps, NormalizeSelection;
    var i :| 0 <= i < |candidates| && candidates[i] == c;
    var j :| 0 <= j < |candidates| && candidates[j] == d;
  }

  lemma SortKeepsSound(candidates: seq<RuleVariant>)
    requires SoundCandidates(candidates)
    ensures SoundCandidates(SortBy(PlanBefore, candidates))
  {
    hide Overlaps, NormalizeSelection;
    var sorted := SortBy(PlanBefore, candidates);
    SortByMembers(PlanBefore, candidates);
    SortByMultiset(PlanBefore, candidates);
    forall i, j | 0 <= i < j < |sorted| ensures !Clash(sorted[i], sorted[j]) {
      if sorted[i] == sorted[j] {
        CountTwice(sorted, i, j);
        var a, b := CountedTwice(candidates, sorted[i]);
      }
      assert sorted[i] in candidates && sorted[j] in candidates;
    }
  }

  // ---- When nothing is said, and what a cut keeps ----

  /** The candidates are sound: no plan uses a selection twice on a side, and no two are the same plan. */
  lemma SoundCandidatesIff(candidates: seq<RuleVariant>)
    ensures SoundCandidates(candidates) <==>
      && (forall c :: c in candidates ==> !Overlaps(c.attachmentPlan.selection))
      && (forall i, j :: 0 <= i < j < |candidates| ==>
            && candidates[i].attachmentPlan.id != candidates[j].attachmentPlan.id
            && !SameAttachment(candidates[i].attachmentPlan.selection, candidates[j].attachmentPlan.selection))
  {
    hide Overlaps, SameAttachment, NormalizeSelection;
    if forall c :: c in candidates ==> !Overlaps(c.attachmentPlan.selection) {
      forall i, j | 0 <= i < j < |candidates|
        ensures Clash(candidates[i], candidates[j]) <==>
          || candidates[i].attachmentPlan.id == candidates[j].attachmentPlan.id
          || SameAttachment(candidates[i].attachmentPlan.selection, candidates[j].attachmentPlan.selection)
      {
        assert candidates[i] in candidates && candidates[j] in candidates;
        SameNormalIff(candidates[i].attachmentPlan.selection, candidates[j].attachmentPlan.selection);
      }
    }
  }

  /** The plans a policy allows: all candidates, or in selected mode those that bind what the policy binds. */
  lemma PlanAllowedIff(candidates: seq<RuleVariant>, policy: Policy, c: RuleVariant)
    requires !Overlaps(c.attachmentPlan.selection)
    requires policy.attachmentMode.SelectedPlan? ==> !Overlaps(policy.attachments)
    ensures PlanAllowed(candidates, policy, c) <==>
            c in candidates && (policy.attachmentMode.SelectedPlan? ==>
              SameAttachment(c.attachmentPlan.selection, policy.attachments))
  {
    hide Overlaps, SameAttachment, NormalizeSelection;
    if policy.attachmentMode.SelectedPlan? { SameNormalIff(c.attachmentPlan.selection, policy.attachments); }
  }

  /** An envelope says nothing exactly when the candidates are sound, answer the policy and fit the limit. */
  lemma NothingSaidIff(candidates: seq<RuleVariant>, policy: Policy)
    ensures AttachmentEnvelopeOf(candidates, policy).diagnostics == [] <==>
      && SoundCandidates(candidates) && candidates != []
      && (policy.attachmentMode.SelectedPlan? ==>
            !Overlaps(policy.attachments) && exists c :: c in candidates && Matches(policy, c))
      && (policy.attachmentMode.Enumerate? ==> |candidates| <= PlanLimit(policy))
    ensures AttachmentEnvelopeOf(candidates, policy).diagnostics == [] ==>
            AttachmentEnvelopeOf(candidates, policy).valid
  {
    hide Overlaps, NormalizeSelection, SoundCandidates, PlanLimit, Matches;
    FilterSound(candidates);
    var kept := FilterAll(candidates).kept;
    SortByMembers(PlanBefore, kept);
    FirstMatchFound(policy, SortBy(PlanBefore, kept));
    hide FilterAll, SortBy, FirstMatch;
    assert kept == [] <==> SortBy(PlanBefore, kept) == [];
  }

  /** The empty plan comes first, then ids decide. */
  predicate PlanNotAfter(a: RuleVariant, b: RuleVariant) {
    var p, q := a.attachmentPlan, b.attachmentPlan;
    var bare, bare' := p.selection.attacker == p.selection.target == [],
                       q.selection.attacker == q.selection.target == [];
    (bare' ==> bare) && (bare == bare' ==> !StringLess(q.id, p.id))
  }

  lemma PlanBeforeOrder()
    ensures WeakOrder(PlanBefore)
    ensures forall a, b :: !PlanBefore(b, a) ==> PlanNotAfter(a, b)
  {
    forall a: RuleVariant ensures !PlanBefore(a, a) { StringLessIrreflexive(a.attachmentPlan.id); }
    StringLessWeakOrder();
    forall a, b, c | PlanBefore(a, c) ensures PlanBefore(a, b) || PlanBefore(b, c) {
      StringLessTotal(a.attachmentPlan.id, b.attachmentPlan.id);
    }
  }

  /** Enumerating lists the first plans in that order, as many as the limit lets through. */
  lemma EnumerateKeepsFirst(candidates: seq<RuleVariant>, policy: Policy) returns (dropped: seq<RuleVariant>)
    requires SoundCandidates(candidates) && candidates != [] && policy.attachmentMode.Enumerate?
    ensures var r := AttachmentEnvelopeOf(candidates, policy);
            && multiset(r.items + dropped) == multiset(candidates)
            && (r.truncated <==> dropped != []) && (r.truncated ==> |r.items| == PlanLimit(policy))
            && (forall i, j :: 0 <= i < j < |r.items| ==> PlanNotAfter(r.items[i], r.items[j]))
            && forall k, d :: k in r.items && d in dropped ==> PlanNotAfter(k, d)
  {
    hide *;
    var sorted, n := CutPlans(candidates, policy);
    dropped := sorted[n..];
    assert sorted[..n] + dropped == sorted;
    forall k, d | k in sorted[..n] && d in dropped ensures PlanNotAfter(k, d) {
      var i :| 0 <= i < n && sorted[i] == k;
      var j :| 0 <= j < |dropped| && dropped[j] == d;
      assert sorted[n + j] == d;
    }
  }

  lemma CutPlans(candidates: seq<RuleVariant>, policy: Policy) returns (sorted: seq<RuleVariant>, n: nat)
    requires SoundCandidates(candidates) && candidates != [] && policy.attachmentMode.Enumerate?
    ensures multiset(sorted) == multiset(candidates) && n <= |sorted|
    ensures var r := AttachmentEnvelopeOf(candidates, policy);
            && r.items == sorted[..n] && (r.truncated <==> n < |sorted|) && (n < |sorted| ==> n == PlanLimit(policy))
    ensures forall i, j :: 0 <= i < j < |sorted| ==> PlanNotAfter(sorted[i], sorted[j])
  {
    var limit := PlanLimit(policy);
    sorted := SortBy(PlanBefore, candidates);
    n := if |sorted| > limit then limit else |sorted|;
    assert sorted[..|sorted|] == sorted;
    hide SoundCandidates, PlanLimit, SortBy, PlanBefore, PlanNotAfter, WeakOrder;
    FilterSound(candidates);
    hide FilterAll;
    SortByMembers(PlanBefore, candidates);
    SortByMultiset(PlanBefore, candidates);
    PlanBeforeOrder();
    SortBySorted(PlanBefore, candidates);
  }
}
