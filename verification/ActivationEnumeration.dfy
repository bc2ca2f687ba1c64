/**
  lib/rosterpilot/combat-bridge.ts:745-952, `enumerateActivationEnvelope` as a whole: the lever
  table, the policy allowlist, the two modes and the limit.
 */
module ActivationEnumeration {
  import opened Sequences
  import opened Wrappers
  import opened Ordering
  import opened CombatTypes
  import opened ActivationEnvelope
  import opened ActivationWalk
  import opened ActivationSubsets

  // ---- What a sound input is ----

  function LeverId(): Lever -> string { (l: Lever) => l.id }

  function OptionId(): PolicyOption -> string { (o: PolicyOption) => o.id }

  function GroupId(): Group -> string { (g: Group) => g.id }

  predicate SoundGroup(g: Group) { IsInteger(g.maxActivations) && g.maxActivations >= 1.0 }

  predicate SoundLever(l: Lever) {
    l.cpCost >= 0.0 && IsInteger(l.cpCost) && (l.group.Some? ==> SoundGroup(l.group.value))
  }

  predicate GroupsAgree(a: Lever, b: Lever) {
    a.group.Some? && b.group.Some? && a.group.value.id == b.group.value.id ==> a.group == b.group
  }

  ghost predicate SoundLevers(inputs: seq<Lever>) {
    && DistinctKeys(LeverId(), inputs)
    && (forall l :: l in inputs ==> SoundLever(l))
    && (forall a, b :: a in inputs && b in inputs ==> GroupsAgree(a, b))
  }

  /** The policy's own statement of an option is exactly what the bundle says of the lever. */
  ghost predicate Agrees(o: PolicyOption, l: Lever, groups: seq<Group>) {
    && o.cpCost == l.cpCost
    && (if o.groupId.None? then l.group.None?
        else l.group.Some? && l.group.value.id == o.groupId.value && l.group.value in groups)
  }

  ghost predicate SoundOption(o: PolicyOption, levers: Levers, groups: seq<Group>) {
    && o.id != "" && IsInteger(o.cpCost) && o.cpCost >= 0.0
    && (o.groupId.Some? ==> exists g :: g in groups && g.id == o.groupId.value)
    && (o.id in levers ==> Agrees(o, levers[o.id], groups))
  }

  ghost predicate SoundConstraints(c: Constraints, levers: Levers) {
    && SoundGroups(c.groups)
    && (forall o :: o in c.options ==> SoundOption(o, levers, c.groups))
    && (forall id :: id in levers ==> !Repeats(OptionId(), c.options, id))
  }

  // ---- The lever table ----

  ghost predicate Table(order: seq<string>, levers: Levers) {
    && Ascending(order)
    && (forall id :: id in order <==> id in levers)
    && (forall id :: id in levers ==> levers[id].id == id && SoundLever(levers[id]))
    && (forall a, b :: a in levers && b in levers ==> GroupsAgree(levers[a], levers[b]))
  }

  lemma TableValid(order: seq<string>, levers: Levers)
    requires Table(order, levers)
    ensures ActivationSubsets.ValidLevers(order, levers)
  {}

  lemma TableAdd(order: seq<string>, levers: Levers, lever: Lever)
    requires Table(order, levers) && lever.id !in levers && SoundLever(lever)
    requires forall y :: y in order ==> !StringLess(lever.id, y)
    requires forall id :: id in levers ==> GroupsAgree(levers[id], lever)
    ensures Table(order + [lever.id], levers[lever.id := lever])
  {
    AscendingAppend(order, lever.id);
  }

  lemma TableAddKnown(order: seq<string>, kept: Levers, allOrder: seq<string>, all: Levers, id: string)
    requires Table(order, kept) && Table(allOrder, all) && id in all && id !in kept
    requires forall y :: y in order ==> !StringLess(id, y)
    requires forall y :: y in kept ==> y in all && kept[y] == all[y]
    ensures Table(order + [id], kept[id := all[id]])
  {
    TableAdd(order, kept, all[id]);
  }

  datatype LeverState = LeverState(order: seq<string>, levers: Levers, groupLimits: map<string, real>,
                                   diagnostics: seq<Diagnostic>)

  function CollectOne(s: LeverState, lever: Lever): LeverState {
    if lever.id in s.levers then
      s.(diagnostics := s.diagnostics + [Diagnostic(ActivationIdDuplicate, Unusable)])
    else if !SoundLever(lever) then
      s.(diagnostics := s.diagnostics + [Diagnostic(ActivationConstraintInvalid, Unusable)])
    else if lever.group.None? then
      s.(order := s.order + [lever.id], levers := s.levers[lever.id := lever])
    else if lever.group.value.id in s.groupLimits &&
            s.groupLimits[lever.group.value.id] != lever.group.value.maxActivations then
      s.(diagnostics := s.diagnostics + [Diagnostic(ActivationGroupInconsistent, Unusable)])
    else
      s.(order := s.order + [lever.id], levers := s.levers[lever.id := lever],
         groupLimits := s.groupLimits[lever.group.value.id := lever.group.value.maxActivations])
  }

  function CollectAll(ordered: seq<Lever>): LeverState {
    if ordered == [] then LeverState([], map[], map[], [])
    else CollectOne(CollectAll(ordered[..|ordered| - 1]), ordered[|ordered| - 1])
  }

  lemma CollectNext(ordered: seq<Lever>, i: nat)
    requires i < |ordered|
    ensures CollectAll(ordered[..i + 1]) == CollectOne(CollectAll(ordered[..i]), ordered[i])
  {
    assert ordered[..i + 1][..i] == ordered[..i];
  }

  /** The state of the loop over the sorted levers after `i` of them; `clean` while none was rejected. */
  ghost predicate Collected(inputs: seq<Lever>, ordered: seq<Lever>, i: nat, order: seq<string>, levers: Levers,
                            groupLimits: map<string, real>, clean: bool)
  {
    && i <= |ordered| && Table(order, levers)
    && FromFirst(ordered, i, levers) && LimitsCover(levers, groupLimits) && LimitsKnown(levers, groupLimits)
    && (clean ==> AllTaken(ordered, i, levers))
    && (!clean ==> !SoundLevers(inputs))
  }

  ghost predicate FromFirst(ordered: seq<Lever>, i: nat, levers: Levers)
    requires i <= |ordered|
  {
    forall id :: id in levers ==> exists k :: 0 <= k < i && ordered[k] == levers[id]
  }

  ghost predicate LimitsCover(levers: Levers, groupLimits: map<string, real>) {
    forall id :: id in levers && levers[id].group.Some? ==>
      levers[id].group.value.id in groupLimits &&
      groupLimits[levers[id].group.value.id] == levers[id].group.value.maxActivations
  }

  ghost predicate LimitsKnown(levers: Levers, groupLimits: map<string, real>) {
    forall g :: g in groupLimits ==> exists id :: id in levers && levers[id].group == Some(Group(g, groupLimits[g]))
  }

  ghost predicate AllTaken(ordered: seq<Lever>, i: nat, levers: Levers)
    requires i <= |ordered|
  {
    && (forall k :: 0 <= k < i ==> ordered[k].id in levers && levers[ordered[k].id] == ordered[k])
    && (forall j, k :: 0 <= j < k < i ==> ordered[j].id != ordered[k].id)
  }

  ghost predicate SortOf(inputs: seq<Lever>, ordered: seq<Lever>) {
    && (forall l :: l in ordered <==> l in inputs)
    && (forall j, k :: 0 <= j < k < |ordered| ==> !StringLess(ordered[k].id, ordered[j].id))
    && ((forall j, k :: 0 <= j < k < |ordered| ==> ordered[j].id != ordered[k].id) <==> DistinctKeys(LeverId(), inputs))
  }

  lemma SortLevers(inputs: seq<Lever>)
    ensures SortOf(inputs, SortBy(ByKey(LeverId()), inputs))
  {
    var ordered := SortBy(ByKey(LeverId()), inputs);
    ByKeySorted(LeverId(), inputs);
    SortByMembers(ByKey(LeverId()), inputs);
    SortRepeats(ByKey(LeverId()), LeverId(), inputs);
    forall j, k | 0 <= j < k < |ordered| ensures !StringLess(ordered[k].id, ordered[j].id) {
      assert !ByKey(LeverId())(ordered[k], ordered[j]);
    }
    assert forall k :: 0 <= k < |ordered| ==> LeverId()(ordered[k]) == ordered[k].id;
  }

  lemma RejectLever(inputs: seq<Lever>, ordered: seq<Lever>, i: nat, order: seq<string>, levers: Levers,
                    groupLimits: map<string, real>, clean: bool)
    requires SortOf(inputs, ordered) && i < |ordered|
    requires Collected(inputs, ordered, i, order, levers, groupLimits, clean)
    requires ordered[i].id in levers || !SoundLever(ordered[i])
          || (ordered[i].group.Some? && ordered[i].group.value.id in groupLimits
              && groupLimits[ordered[i].group.value.id] != ordered[i].group.value.maxActivations)
    ensures Collected(inputs, ordered, i + 1, order, levers, groupLimits, false)
  {
    hide StringLess, Ascending, IsInteger;
    var lever := ordered[i];
    assert lever in inputs;
    if lever.id in levers {
      var k :| 0 <= k < i && ordered[k] == levers[lever.id];
      assert ordered[k].id == ordered[i].id;
    } else if SoundLever(lever) {
      var g := lever.group.value;
      var id :| id in levers && levers[id].group == Some(Group(g.id, groupLimits[g.id]));
      assert levers[id] in ordered && !GroupsAgree(levers[id], lever);
    }
  }

  lemma AcceptLever(inputs: seq<Lever>, ordered: seq<Lever>, i: nat, order: seq<string>, levers: Levers,
                    groupLimits: map<string, real>, clean: bool)
    requires SortOf(inputs, ordered) && i < |ordered|
    requires Collected(inputs, ordered, i, order, levers, groupLimits, clean)
    requires ordered[i].id !in levers && SoundLever(ordered[i])
    requires ordered[i].group.Some? && ordered[i].group.value.id in groupLimits ==>
               groupLimits[ordered[i].group.value.id] == ordered[i].group.value.maxActivations
    ensures Collected(inputs, ordered, i + 1, order + [ordered[i].id], levers[ordered[i].id := ordered[i]],
              if ordered[i].group.Some? then
                groupLimits[ordered[i].group.value.id := ordered[i].group.value.maxActivations]
              else groupLimits,
              clean)
  {
    AcceptedFits(inputs, ordered, i, order, levers, groupLimits, clean);
    hide Table, SortOf, GroupsAgree, SoundLevers, SoundLever, FromFirst, LimitsCover, LimitsKnown, AllTaken, StringLess;
    TableAdd(order, levers, ordered[i]);
    TakenAdd(ordered, i, levers);
    if clean { AllTakenAdd(ordered, i, levers); }
    LimitsAdd(levers, groupLimits, ordered[i]);
  }

  lemma TakenAdd(ordered: seq<Lever>, i: nat, levers: Levers)
    requires i < |ordered| && ordered[i].id !in levers && FromFirst(ordered, i, levers)
    ensures FromFirst(ordered, i + 1, levers[ordered[i].id := ordered[i]])
  {
    var added := levers[ordered[i].id := ordered[i]];
    forall id | id in added ensures exists k :: 0 <= k < i + 1 && ordered[k] == added[id] {
      if id == ordered[i].id {
        assert ordered[i] == added[id];
      } else {
        var k :| 0 <= k < i && ordered[k] == levers[id];
        assert ordered[k] == added[id];
      }
    }
  }

  lemma AllTakenAdd(ordered: seq<Lever>, i: nat, levers: Levers)
    requires i < |ordered| && ordered[i].id !in levers && AllTaken(ordered, i, levers)
    ensures AllTaken(ordered, i + 1, levers[ordered[i].id := ordered[i]])
  {}

  /** A lever that is not rejected comes after the listed ones and agrees with their groups. */
  lemma AcceptedFits(inputs: seq<Lever>, ordered: seq<Lever>, i: nat, order: seq<string>, levers: Levers,
                     groupLimits: map<string, real>, clean: bool)
    requires SortOf(inputs, ordered) && i < |ordered|
    requires Collected(inputs, ordered, i, order, levers, groupLimits, clean)
    requires ordered[i].group.Some? && ordered[i].group.value.id in groupLimits ==>
               groupLimits[ordered[i].group.value.id] == ordered[i].group.value.maxActivations
    ensures forall y :: y in order ==> !StringLess(ordered[i].id, y)
    ensures forall id :: id in levers ==> GroupsAgree(levers[id], ordered[i])
  {
    hide StringLess, SoundLevers, Ascending, DistinctKeys, SoundLever;
    forall y | y in order ensures !StringLess(ordered[i].id, y) {
      var k :| 0 <= k < i && ordered[k] == levers[y];
    }
  }

  /** Every group limit is still the one of some listed lever, and every listed group has its limit. */
  lemma LimitsAdd(levers: Levers, groupLimits: map<string, real>, lever: Lever)
    requires lever.id !in levers && LimitsCover(levers, groupLimits) && LimitsKnown(levers, groupLimits)
    requires lever.group.Some? && lever.group.value.id in groupLimits ==>
             groupLimits[lever.group.value.id] == lever.group.value.maxActivations
    ensures var limits :=
              if lever.group.Some? then groupLimits[lever.group.value.id := lever.group.value.maxActivations]
              else groupLimits;
            LimitsCover(levers[lever.id := lever], limits) && LimitsKnown(levers[lever.id := lever], limits)
  {
    var added := levers[lever.id := lever];
    var limits := if lever.group.Some? then groupLimits[lever.group.value.id := lever.group.value.maxActivations]
                  else groupLimits;
    forall g | g in limits ensures exists id :: id in added && added[id].group == Some(Group(g, limits[g])) {
      if lever.group.Some? && lever.group.value.id == g {
        assert added[lever.id].group == Some(Group(g, limits[g]));
      } else {
        var id :| id in levers && levers[id].group == Some(Group(g, groupLimits[g]));
        assert added[id].group == Some(Group(g, limits[g]));
      }
    }
  }

  lemma AllCollected(inputs: seq<Lever>, ordered: seq<Lever>, order: seq<string>, levers: Levers,
                     groupLimits: map<string, real>, clean: bool)
    requires SortOf(inputs, ordered)
    requires Collected(inputs, ordered, |ordered|, order, levers, groupLimits, clean)
    ensures Table(order, levers) && (clean <==> SoundLevers(inputs))
    ensures clean ==> forall l :: l in inputs <==> l.id in levers && levers[l.id] == l
  {
    if clean {
      forall l ensures l in inputs <==> l.id in levers && levers[l.id] == l {
        if l in inputs { assert l in ordered; }
        if l.id in levers && levers[l.id] == l { assert l in ordered; }
      }
    }
  }

  lemma {:induction false} CollectAllCollected(inputs: seq<Lever>, ordered: seq<Lever>, i: nat)
    requires SortOf(inputs, ordered) && i <= |ordered|
    ensures var s := CollectAll(ordered[..i]);
            && Collected(inputs, ordered, i, s.order, s.levers, s.groupLimits, s.diagnostics == [])
            && forall d :: d in s.diagnostics ==> d.severity == Unusable
  {
    hide SortOf, Collected, CollectAll, SoundLever;
    if i == 0 {
      NothingCollected(inputs, ordered);
    } else {
      CollectAllCollected(inputs, ordered, i - 1);
      CollectNext(ordered, i - 1);
      var s, lever := CollectAll(ordered[..i - 1]), ordered[i - 1];
      if lever.id in s.levers || !SoundLever(lever)
         || (lever.group.Some? && lever.group.value.id in s.groupLimits
             && s.groupLimits[lever.group.value.id] != lever.group.value.maxActivations) {
        RejectLever(inputs, ordered, i - 1, s.order, s.levers, s.groupLimits, s.diagnostics == []);
      } else {
        AcceptLever(inputs, ordered, i - 1, s.order, s.levers, s.groupLimits, s.diagnostics == []);
      }
    }
  }

  /** Every rejected lever leaves a diagnostic, and only a rejected lever does. */
  lemma CollectExact(inputs: seq<Lever>)
    ensures var s := CollectAll(SortBy(ByKey(LeverId()), inputs));
            && Table(s.order, s.levers)
            && (s.diagnostics == [] <==> SoundLevers(inputs))
            && (forall d :: d in s.diagnostics ==> d.severity == Unusable)
            && (s.diagnostics == [] ==> s.levers == LeversById(inputs))
  {
    hide SortOf, Collected, CollectAll, SoundLevers, Table;
    var ordered := SortBy(ByKey(LeverId()), inputs);
    SortLevers(inputs);
    CollectAllCollected(inputs, ordered, |ordered|);
    assert ordered[..|ordered|] == ordered;
    var s := CollectAll(ordered);
    AllCollected(inputs, ordered, s.order, s.levers, s.groupLimits, s.diagnostics == []);
    if s.diagnostics == [] { CollectedById(inputs, s.order, s.levers); }
  }

  /** Lines 758-803. */
  method CollectLevers(inputs: seq<Lever>)
    returns (order: seq<string>, levers: Levers, diagnostics: seq<Diagnostic>)
    ensures var s := CollectAll(SortBy(ByKey(LeverId()), inputs));
            order == s.order && levers == s.levers && diagnostics == s.diagnostics
  {
    hide SortBy, CollectAll;
    var ordered := SortBy(ByKey(LeverId()), inputs);
    order, levers, diagnostics := [], map[], [];
    var groupLimits: map<string, real> := map[];
    NothingCollected(inputs, ordered);
    for i := 0 to |ordered|
      invariant CollectAll(ordered[..i]) == LeverState(order, levers, groupLimits, diagnostics)
    {
      var lever := ordered[i];
      CollectNext(ordered, i);
      if lever.id in levers {
        diagnostics := diagnostics + [Diagnostic(ActivationIdDuplicate, Unusable)];
        continue;
      }
      if lever.cpCost < 0.0 || !IsInteger(lever.cpCost) ||
         (lever.group.Some? &&
          (!IsInteger(lever.group.value.maxActivations) || lever.group.value.maxActivations < 1.0)) {
        diagnostics := diagnostics + [Diagnostic(ActivationConstraintInvalid, Unusable)];
        continue;
      }
      if lever.group.Some? {
        var g := lever.group.value;
        if g.id in groupLimits && groupLimits[g.id] != g.maxActivations {
          diagnostics := diagnostics + [Diagnostic(ActivationGroupInconsistent, Unusable)];
          continue;
        }
        groupLimits := groupLimits[g.id := g.maxActivations];
      }
      order := order + [lever.id];
      levers := levers[lever.id := lever];
    }
    assert ordered[..|ordered|] == ordered;
  }

  lemma NothingCollected(inputs: seq<Lever>, ordered: seq<Lever>)
    ensures Collected(inputs, ordered, 0, [], map[], map[], true)
    ensures CollectAll(ordered[..0]) == LeverState([], map[], map[], [])
  {}

  datatype OptionState = OptionState(order: seq<string>, kept: Levers, diagnostics: seq<Diagnostic>)

  function ConstrainOne(s: OptionState, levers: Levers, declared: map<string, real>,
                        option: PolicyOption): OptionState {
    if option.id in s.kept || option.id == "" || !IsInteger(option.cpCost) || option.cpCost < 0.0
       || (option.groupId.Some? && option.groupId.value !in declared) then
      s.(diagnostics := s.diagnostics + [Diagnostic(ActivationPolicyOptionInvalid, Unusable)])
    else if option.id !in levers then s
    else if SameMetadata(option, levers[option.id], declared) then
      s.(order := s.order + [option.id], kept := s.kept[option.id := levers[option.id]])
    else
      s.(diagnostics := s.diagnostics + [Diagnostic(ActivationPolicyMetadataMismatch, Unusable)])
  }

  predicate SameMetadata(o: PolicyOption, l: Lever, declared: map<string, real>)
    requires o.groupId.Some? ==> o.groupId.value in declared
  {
    && o.cpCost == l.cpCost
    && o.groupId == (if l.group.Some? then Some(l.group.value.id) else None)
    && (if o.groupId.None? then None else Some(declared[o.groupId.value])) ==
       (if l.group.Some? then Some(l.group.value.maxActivations) else None)
  }

  function ConstrainAll(levers: Levers, groups: seq<Group>, options: seq<PolicyOption>): OptionState {
    if options == [] then OptionState([], map[], DeclareAll(groups).1)
    else ConstrainOne(ConstrainAll(levers, groups, options[..|options| - 1]), levers, DeclareAll(groups).0,
                      options[|options| - 1])
  }

  function DeclareAll(groups: seq<Group>): (map<string, real>, seq<Diagnostic>) {
    if groups == [] then (map[], [])
    else
      var before := DeclareAll(groups[..|groups| - 1]);
      var g := groups[|groups| - 1];
      if g.id in before.0 || g.id == "" || !SoundGroup(g) then
        (before.0, before.1 + [Diagnostic(ActivationPolicyGroupInvalid, Unusable)])
      else
        (before.0[g.id := g.maxActivations], before.1)
  }

  lemma ConstrainNext(levers: Levers, groups: seq<Group>, options: seq<PolicyOption>, i: nat)
    requires i < |options|
    ensures ConstrainAll(levers, groups, options[..i + 1]) ==
            ConstrainOne(ConstrainAll(levers, groups, options[..i]), levers, DeclareAll(groups).0, options[i])
  {
    assert options[..i + 1][..i] == options[..i];
  }

  /** The state of the loop over the sorted options. */
  ghost predicate Constrained(c: Constraints, all: Levers, options: seq<PolicyOption>, i: nat,
                              order: seq<string>, kept: Levers, sound: bool, clean: bool)
  {
    && i <= |options| && Table(order, kept)
    && (forall id :: id in kept ==> id in all && kept[id] == all[id] && exists k :: 0 <= k < i && options[k].id == id)
    && (clean ==> sound)
    && (clean ==> forall k :: 0 <= k < i ==> SoundOption(options[k], all, c.groups))
    && (clean ==> forall k :: 0 <= k < i && options[k].id in all ==> options[k].id in kept)
    && (clean ==> forall j, k :: 0 <= j < k < i && options[j].id in all ==> options[j].id != options[k].id)
    && (!clean && sound ==> !SoundConstraints(c, all))
  }

  ghost predicate OptionSort(c: Constraints, options: seq<PolicyOption>) {
    && (forall o :: o in options <==> o in c.options)
    && (forall j, k :: 0 <= j < k < |options| ==> !StringLess(options[k].id, options[j].id))
    && (forall id :: Repeats(OptionId(), options, id) <==> Repeats(OptionId(), c.options, id))
  }

  lemma SortOptions(c: Constraints)
    ensures OptionSort(c, SortBy(ByKey(OptionId()), c.options))
  {
    var options := SortBy(ByKey(OptionId()), c.options);
    ByKeySorted(OptionId(), c.options);
    SortByMembers(ByKey(OptionId()), c.options);
    SortRepeats(ByKey(OptionId()), OptionId(), c.options);
    forall j, k | 0 <= j < k < |options| ensures !StringLess(options[k].id, options[j].id) {
      assert !ByKey(OptionId())(options[k], options[j]);
    }
  }

  lemma RejectOption(c: Constraints, all: Levers, options: seq<PolicyOption>, i: nat,
                     order: seq<string>, kept: Levers, sound: bool, clean: bool)
    requires OptionSort(c, options) && i < |options|
    requires Constrained(c, all, options, i, order, kept, sound, clean)
    requires options[i].id in kept || (sound ==> !SoundOption(options[i], all, c.groups))
    ensures Constrained(c, all, options, i + 1, order, kept, sound, false)
  {
    var option := options[i];
    assert option in c.options;
    if option.id in kept {
      var k :| 0 <= k < i && options[k].id == option.id;
      assert OptionId()(options[k]) == OptionId()(options[i]) == option.id;
      assert Repeats(OptionId(), options, option.id);
    }
  }

  lemma SkipOption(c: Constraints, all: Levers, options: seq<PolicyOption>, i: nat,
                   order: seq<string>, kept: Levers, sound: bool, clean: bool)
    requires i < |options| && Constrained(c, all, options, i, order, kept, sound, clean)
    requires options[i].id !in all && (sound ==> SoundOption(options[i], all, c.groups))
    ensures Constrained(c, all, options, i + 1, order, kept, sound, clean)
  {
    hide Table, SoundOption, SoundConstraints;
  }

  lemma KeepOption(c: Constraints, all: Levers, allOrder: seq<string>, options: seq<PolicyOption>, i: nat,
                   order: seq<string>, kept: Levers, sound: bool, clean: bool)
    requires OptionSort(c, options) && i < |options| && Table(allOrder, all)
    requires Constrained(c, all, options, i, order, kept, sound, clean)
    requires options[i].id in all && options[i].id !in kept && (sound ==> SoundOption(options[i], all, c.groups))
    ensures Constrained(c, all, options, i + 1, order + [options[i].id], kept[options[i].id := all[options[i].id]],
                        sound, clean)
  {
    hide StringLess, SoundConstraints, Ascending, IsInteger, Repeats, SoundOption;
    var option := options[i];
    forall y | y in order ensures !StringLess(option.id, y) {
      var k :| 0 <= k < i && options[k].id == y;
    }
    TableAddKnown(order, kept, allOrder, all, option.id);
    hide Table;
    var added := kept[option.id := all[option.id]];
    forall id | id in added ensures exists k :: 0 <= k < i + 1 && options[k].id == id {
      if id == option.id { assert options[i].id == id; }
    }
  }

  lemma AllConstrained(c: Constraints, all: Levers, options: seq<PolicyOption>,
                       order: seq<string>, kept: Levers, sound: bool, clean: bool)
    requires OptionSort(c, options)
    requires sound <==> SoundGroups(c.groups)
    requires Constrained(c, all, options, |options|, order, kept, sound, clean)
    ensures Table(order, kept) && (clean <==> SoundConstraints(c, all))
    ensures forall id :: id in kept ==> id in all && kept[id] == all[id]
    ensures clean ==> forall id :: id in kept <==> id in all && exists o :: o in c.options && o.id == id
  {
    if clean {
      forall o | o in c.options ensures SoundOption(o, all, c.groups) { assert o in options; }
      forall id ensures id in kept <==> id in all && exists o :: o in c.options && o.id == id {
        if id in kept {
          var k :| 0 <= k < |options| && options[k].id == id;
          assert options[k] in options;
        }
        if id in all && exists o :: o in c.options && o.id == id {
          var o :| o in c.options && o.id == id;
          assert o in options;
        }
      }
      forall id | id in all ensures !Repeats(OptionId(), c.options, id) {
        assert forall k :: 0 <= k < |options| ==> OptionId()(options[k]) == options[k].id;
      }
    }
  }

  ghost predicate DeclaresExactly(declared: map<string, real>, groups: seq<Group>) {
    forall g :: g in groups <==> g.id in declared && declared[g.id] == g.maxActivations
  }

  /** Comparing the option's three numbers with the lever's is comparing the records. */
  lemma MetadataMatch(o: PolicyOption, l: Lever, declared: map<string, real>, groups: seq<Group>)
    requires DeclaresExactly(declared, groups)
    requires o.groupId.Some? ==> o.groupId.value in declared
    ensures Agrees(o, l, groups) <==> SameMetadata(o, l, declared)
  {}

  lemma DeclaredGroup(o: PolicyOption, declared: map<string, real>, groups: seq<Group>)
    requires DeclaresExactly(declared, groups) && o.groupId.Some?
    ensures o.groupId.value in declared <==> exists g :: g in groups && g.id == o.groupId.value
  {
    if o.groupId.value in declared {
      var g := Group(o.groupId.value, declared[o.groupId.value]);
      assert g in groups;
    }
  }

  lemma {:induction false} ConstrainAllConstrained(c: Constraints, all: Levers, allOrder: seq<string>,
                                                   options: seq<PolicyOption>, i: nat)
    requires OptionSort(c, options) && Table(allOrder, all) && i <= |options|
    ensures var s := ConstrainAll(all, c.groups, options[..i]);
            && Constrained(c, all, options, i, s.order, s.kept, DeclareAll(c.groups).1 == [], s.diagnostics == [])
            && forall d :: d in s.diagnostics ==> d.severity == Unusable
  {
    hide OptionSort, Constrained, ConstrainAll, Table, DeclareAll, Agrees, DeclaresExactly, IsInteger, SameMetadata;
    DeclareAllExact(c.groups);
    var declared, sound := DeclareAll(c.groups).0, DeclareAll(c.groups).1 == [];
    if i == 0 {
      NothingConstrained(c, all, options, sound);
    } else {
      ConstrainAllConstrained(c, all, allOrder, options, i - 1);
      ConstrainNext(all, c.groups, options, i - 1);
      var s, option := ConstrainAll(all, c.groups, options[..i - 1]), options[i - 1];
      if sound { OptionCheckExact(option, all, declared, c.groups); }
      if RejectsOption(s.kept, all, declared, option) {
        RejectOption(c, all, options, i - 1, s.order, s.kept, sound, s.diagnostics == []);
      } else if option.id !in all {
        SkipOption(c, all, options, i - 1, s.order, s.kept, sound, s.diagnostics == []);
      } else {
        KeepOption(c, all, allOrder, options, i - 1, s.order, s.kept, sound, s.diagnostics == []);
      }
    }
  }

  predicate RejectsOption(kept: Levers, all: Levers, declared: map<string, real>, option: PolicyOption) {
    || option.id in kept || option.id == "" || !IsInteger(option.cpCost) || option.cpCost < 0.0
    || (option.groupId.Some? && option.groupId.value !in declared)
    || (option.id in all && !SameMetadata(option, all[option.id], declared))
  }

  /** With sound groups, the tests of the loop are the soundness of the option. */
  lemma OptionCheckExact(option: PolicyOption, all: Levers, declared: map<string, real>, groups: seq<Group>)
    requires DeclaresExactly(declared, groups)
    ensures forall kept :: option.id !in kept ==>
              (RejectsOption(kept, all, declared, option) <==> !SoundOption(option, all, groups))
  {
    hide IsInteger;
    if option.groupId.Some? { DeclaredGroup(option, declared, groups); }
    if option.id in all && (option.groupId.Some? ==> option.groupId.value in declared) {
      MetadataMatch(option, all[option.id], declared, groups);
    }
  }

  /** Every option that is not the lever's own statement leaves a diagnostic, and nothing else does. */
  lemma ConstrainExact(c: Constraints, order: seq<string>, levers: Levers)
    requires Table(order, levers)
    ensures var s := ConstrainAll(levers, c.groups, SortBy(ByKey(OptionId()), c.options));
            && Table(s.order, s.kept)
            && (s.diagnostics == [] <==> SoundConstraints(c, levers))
            && (forall d :: d in s.diagnostics ==> d.severity == Unusable)
            && (forall id :: id in s.kept ==> id in levers && s.kept[id] == levers[id])
            && (s.diagnostics == [] ==>
                forall id :: id in s.kept <==> id in levers && exists o :: o in c.options && o.id == id)
  {
    hide OptionSort, Constrained, ConstrainAll, Table, SoundConstraints, DeclareAll;
    var options := SortBy(ByKey(OptionId()), c.options);
    SortOptions(c);
    DeclareAllExact(c.groups);
    ConstrainAllConstrained(c, levers, order, options, |options|);
    assert options[..|options|] == options;
    var s := ConstrainAll(levers, c.groups, options);
    AllConstrained(c, levers, options, s.order, s.kept, DeclareAll(c.groups).1 == [], s.diagnostics == []);
  }

  /** Lines 805-877. The policy's catalogue is an allowlist that must agree with the levers. */
  method ApplyConstraints(levers: Levers, c: Constraints)
    returns (order: seq<string>, kept: Levers, diagnostics: seq<Diagnostic>)
    ensures OptionState(order, kept, diagnostics) ==
            ConstrainAll(levers, c.groups, SortBy(ByKey(OptionId()), c.options))
  {
    hide ConstrainAll, SortBy, IsInteger;
    var declared: map<string, real>;
    declared, diagnostics := DeclareGroups(c.groups);
    var options := SortBy(ByKey(OptionId()), c.options);
    order, kept := [], map[];
    NoOptions(levers, c.groups, options);
    for i := 0 to |options|
      invariant ConstrainAll(levers, c.groups, options[..i]) == OptionState(order, kept, diagnostics)
    {
      var option := options[i];
      ConstrainNext(levers, c.groups, options, i);
      if option.id in kept || option.id == "" || !IsInteger(option.cpCost) || option.cpCost < 0.0 ||
         (option.groupId.Some? && option.groupId.value !in declared) {
        diagnostics := diagnostics + [Diagnostic(ActivationPolicyOptionInvalid, Unusable)];
        continue;
      }
      if option.id !in levers { continue; }
      var discovered := levers[option.id];
      var discoveredGroupId := if discovered.group.Some? then Some(discovered.group.value.id) else None;
      var declaredMaximum := if option.groupId.None? then None else Some(declared[option.groupId.value]);
      var discoveredMaximum := if discovered.group.Some? then Some(discovered.group.value.maxActivations) else None;
      if option.cpCost != discovered.cpCost || option.groupId != discoveredGroupId ||
         declaredMaximum != discoveredMaximum {
        diagnostics := diagnostics + [Diagnostic(ActivationPolicyMetadataMismatch, Unusable)];
        continue;
      }
      order := order + [option.id];
      kept := kept[option.id := discovered];
    }
    assert options[..|options|] == options;
  }

  lemma NoOptions(levers: Levers, groups: seq<Group>, options: seq<PolicyOption>)
    ensures ConstrainAll(levers, groups, options[..0]) == OptionState([], map[], DeclareAll(groups).1)
  {}

  lemma NothingConstrained(c: Constraints, all: Levers, options: seq<PolicyOption>, sound: bool)
    requires !sound ==> !SoundConstraints(c, all)
    ensures Constrained(c, all, options, 0, [], map[], sound, sound)
    ensures ConstrainAll(all, c.groups, options[..0]) == OptionState([], map[], DeclareAll(c.groups).1)
  {}

  ghost predicate SoundGroups(groups: seq<Group>) {
    DistinctKeys(GroupId(), groups) && forall g :: g in groups ==> g.id != "" && SoundGroup(g)
  }

  lemma NoGroups()
    ensures SoundGroups([])
  {}

  lemma {:induction false} DeclareAllExact(groups: seq<Group>)
    ensures forall id :: id in DeclareAll(groups).0 ==> Group(id, DeclareAll(groups).0[id]) in groups
    ensures DeclareAll(groups).1 == [] <==> SoundGroups(groups)
    ensures forall d :: d in DeclareAll(groups).1 ==> d.severity == Unusable
    ensures DeclareAll(groups).1 == [] ==> DeclaresExactly(DeclareAll(groups).0, groups)
  {
    hide DistinctKeys, IsInteger;
    if groups == [] { NoGroups(); }
    if groups != [] {
      var n := |groups| - 1;
      var before, g := groups[..n], groups[n];
      DeclareAllExact(before);
      assert groups == before + [g];
      DistinctKeysAppend(GroupId(), before, g);
    }
  }

  method DeclareGroups(groups: seq<Group>) returns (declared: map<string, real>, diagnostics: seq<Diagnostic>)
    ensures (declared, diagnostics) == DeclareAll(groups)
  {
    declared, diagnostics := map[], [];
    for i := 0 to |groups|
      invariant (declared, diagnostics) == DeclareAll(groups[..i])
    {
      var group := groups[i];
      assert groups[..i + 1][..i] == groups[..i];
      if group.id in declared || group.id == "" || !IsInteger(group.maxActivations) || group.maxActivations < 1.0 {
        diagnostics := diagnostics + [Diagnostic(ActivationPolicyGroupInvalid, Unusable)];
        continue;
      }
      declared := declared[group.id := group.maxActivations];
    }
    assert groups[..|groups|] == groups;
  }

  // ---- The envelope ----

  /** The bundle's levers by id. */
  function LeversById(inputs: seq<Lever>): Levers {
    if inputs == [] then map[] else LeversById(inputs[..|inputs| - 1])[inputs[|inputs| - 1].id := inputs[|inputs| - 1]]
  }

  lemma {:induction false} LeversByIdMembers(inputs: seq<Lever>)
    requires DistinctKeys(LeverId(), inputs)
    ensures forall id :: id in LeversById(inputs) ==>
              LeversById(inputs)[id] in inputs && LeversById(inputs)[id].id == id
    ensures forall l :: l in inputs ==> l.id in LeversById(inputs) && LeversById(inputs)[l.id] == l
  {
    if inputs != [] {
      var n := |inputs| - 1;
      LeversByIdMembers(inputs[..n]);
      assert inputs == inputs[..n] + [inputs[n]];
      forall l | l in inputs[..n] ensures l.id != inputs[n].id {
        var i :| 0 <= i < n && inputs[i] == l;
        assert LeverId()(inputs[i]) != LeverId()(inputs[n]);
      }
    }
  }

  lemma LeversByIdExact(inputs: seq<Lever>, levers: Levers)
    requires DistinctKeys(LeverId(), inputs)
    requires forall id :: id in levers ==> levers[id].id == id
    requires forall l :: l in inputs <==> l.id in levers && levers[l.id] == l
    ensures levers == LeversById(inputs)
  {
    LeversByIdMembers(inputs);
    var byId := LeversById(inputs);
    forall id ensures id in levers <==> id in byId {
      if id in levers { assert levers[id] in inputs; }
    }
    forall id | id in byId ensures levers[id] == byId[id] {
      assert byId[id] in inputs;
    }
  }

  ghost predicate SoundInput(inputs: seq<Lever>, policy: Policy) {
    && SoundLevers(inputs)
    && (policy.activationConstraints.Some? ==> SoundConstraints(policy.activationConstraints.value, LeversById(inputs)))
  }

  ghost predicate Allowed(policy: Policy, id: string) {
    policy.activationConstraints.Some? ==> exists o :: o in policy.activationConstraints.value.options && o.id == id
  }

  /** The levers the policy leaves, and their order. */
  ghost predicate Eligible(inputs: seq<Lever>, policy: Policy, order: seq<string>, levers: Levers) {
    && Table(order, levers)
    && (forall id :: id in levers <==> id in LeversById(inputs) && Allowed(policy, id))
    && (forall id :: id in levers ==> levers[id] == LeversById(inputs)[id])
  }

  lemma EligibleUnique(inputs: seq<Lever>, policy: Policy, order: seq<string>, levers: Levers, order': seq<string>,
                       levers': Levers)
    requires Eligible(inputs, policy, order, levers) && Eligible(inputs, policy, order', levers')
    ensures order == order' && levers == levers'
  {
    assert levers == levers';
    AscendingUnique(order, order');
  }

  /** `Math.max(1, Math.min(64, Number.isFinite(m) ? Math.floor(m) : 1))`; None is a number that is not finite. */
  function EffectiveLimit(maximum: Option<real>): (limit: nat)
    ensures 1 <= limit <= MAX_COMBAT_JOINT_VARIANTS
    ensures maximum.None? || maximum.value < 2.0 ==> limit == 1
    ensures maximum.Some? && maximum.value >= MAX_COMBAT_JOINT_VARIANTS as real ==> limit == MAX_COMBAT_JOINT_VARIANTS
    ensures maximum.Some? && 1.0 <= maximum.value < MAX_COMBAT_JOINT_VARIANTS as real ==>
              limit as real <= maximum.value < limit as real + 1.0
  {
    var wanted := if maximum.Some? then maximum.value.Floor else 1;
    if wanted < 1 then 1 else if wanted > MAX_COMBAT_JOINT_VARIANTS then MAX_COMBAT_JOINT_VARIANTS else wanted
  }

  /** The selection a "selected" policy asks for. */
  function SelectedIds(policy: Policy, levers: Levers): seq<string> {
    Keep(SortedUnique(policy.selectedActivationIds), policy.activationConstraints.None?, levers)
  }

  function Keep(ids: seq<string>, all: bool, levers: Levers): seq<string> {
    if ids == [] then []
    else (if all || ids[0] in levers then [ids[0]] else []) + Keep(ids[1..], all, levers)
  }

  /** What a "selected" policy asks for: its ids in order, once each; under constraints only those still offered. */
  ghost predicate IsSelection(policy: Policy, levers: Levers, s: seq<string>) {
    && Ascending(s)
    && forall x :: x in s <==>
         x in policy.selectedActivationIds && (policy.activationConstraints.Some? ==> x in levers)
  }

  lemma {:induction false} KeepExact(ids: seq<string>, all: bool, levers: Levers)
    requires Ascending(ids)
    ensures Ascending(Keep(ids, all, levers))
    ensures forall x :: x in Keep(ids, all, levers) <==> x in ids && (all || x in levers)
  {
    if ids != [] {
      KeepExact(ids[1..], all, levers);
      var rest := Keep(ids[1..], all, levers);
      forall j | 0 <= j < |rest| ensures StringLess(ids[0], rest[j]) { assert rest[j] in ids[1..]; }
      assert ids == [ids[0]] + ids[1..];
    }
  }

  lemma SelectedExact(policy: Policy, levers: Levers)
    ensures IsSelection(policy, levers, SelectedIds(policy, levers))
  {
    SortedUniqueAscending(policy.selectedActivationIds);
    KeepExact(SortedUnique(policy.selectedActivationIds), policy.activationConstraints.None?, levers);
    hide SortedUnique, Keep, StringLess;
  }

  lemma SelectionUnique(policy: Policy, levers: Levers, s: seq<string>, t: seq<string>)
    requires IsSelection(policy, levers, s) && IsSelection(policy, levers, t)
    ensures s == t
  {
    AscendingUnique(s, t);
  }

  function Take(lists: seq<seq<string>>, limit: nat): seq<seq<string>> {
    if |lists| > limit then lists[..limit] else lists
  }

  /** What an envelope over a table of levers is: the baseline, then legal sets up to the limit. */
  ghost predicate IsEnvelope(r: EnvelopeResult<Variant>, order: seq<string>, levers: Levers, budget: Option<real>,
                             limit: nat) {
    var listed := [[]] + Legal(CombosFrom(order, 1), levers, budget);
    && r.items == VariantsOf(Take(listed, limit), levers)
    && (r.truncated <==> |listed| > limit)
    && r.diagnostics == (if r.truncated then [Diagnostic(ActivationEnvelopeTruncated, PartialEvidence)] else [])
  }

  /** The levers the policy leaves, with everything said against the input. */
  function ChosenBy(inputs: seq<Lever>, policy: Policy): OptionState {
    var all := CollectAll(SortBy(ByKey(LeverId()), inputs));
    if policy.activationConstraints.None? then OptionState(all.order, all.levers, all.diagnostics)
    else
      var kept := ConstrainAll(all.levers, policy.activationConstraints.value.groups,
                               SortBy(ByKey(OptionId()), policy.activationConstraints.value.options));
      kept.(diagnostics := all.diagnostics + kept.diagnostics)
  }

  /** The whole computation as a function of its inputs: it depends on nothing else. */
  function ActivationEnvelopeOf(inputs: seq<Lever>, policy: Policy, maximum: Option<real>): EnvelopeResult<Variant> {
    var chosen := ChosenBy(inputs, policy);
    if chosen.diagnostics != [] then
      EnvelopeResult([ActivationVariant([], chosen.kept)], false, false, chosen.diagnostics)
    else if policy.activationMode.Selected? then
      var selected := SelectedIds(policy, chosen.kept);
      if Accepts(selected, chosen.kept, policy.resourceBudget) then
        EnvelopeResult([ActivationVariant(selected, chosen.kept)], false, true, [])
      else
        EnvelopeResult([ActivationVariant([], chosen.kept)], false, false,
                       [Diagnostic(ActivationSelectionInvalid, Unusable)])
    else
      var listed := [[]] + Legal(CombosFrom(chosen.order, 1), chosen.kept, policy.resourceBudget);
      var limit := EffectiveLimit(maximum);
      EnvelopeResult(VariantsOf(Take(listed, limit), chosen.kept), |listed| > limit, true,
                     if |listed| > limit then [Diagnostic(ActivationEnvelopeTruncated, PartialEvidence)] else [])
  }

  method EnumerateActivationEnvelope(inputs: seq<Lever>, policy: Policy, maximum: Option<real>)
    returns (r: EnvelopeResult<Variant>)
    ensures r == ActivationEnvelopeOf(inputs, policy, maximum)
  {
    hide Accepts, Legal, CombosFrom, SortBy, VariantsOf, CollectAll, ConstrainAll, ActivationVariant;
    var limit := EffectiveLimit(maximum);
    var ids, levers, diagnostics := CollectLevers(inputs);
    if policy.activationConstraints.Some? {
      var more;
      ids, levers, more := ApplyConstraints(levers, policy.activationConstraints.value);
      diagnostics := diagnostics + more;
    }
    AllUnusable(inputs, policy);
    if HasUnusable(diagnostics) {
      return EnvelopeResult([ActivationVariant([], levers)], false, false, diagnostics);
    }
    if policy.activationMode.Selected? {
      var selected := SelectedIds(policy, levers);
      var issue := ActivationConstraintIssue(selected, levers, policy.resourceBudget);
      if issue.Some? {
        return EnvelopeResult([ActivationVariant([], levers)], false, false,
                              [Diagnostic(ActivationSelectionInvalid, Unusable)]);
      }
      return EnvelopeResult([ActivationVariant(selected, levers)], false, true, []);
    }
    var walk := new EnvelopeWalk(ids, levers, policy.resourceBudget, limit);
    walk.WalkAllSizes();
    if walk.truncated {
      diagnostics := [Diagnostic(ActivationEnvelopeTruncated, PartialEvidence)];
    }
    r := EnvelopeResult(walk.variants, walk.truncated, true, diagnostics);
    WalkedEnvelope(r, ids, levers, policy.resourceBudget, limit, walk.accepted);
  }

  lemma AllUnusable(inputs: seq<Lever>, policy: Policy)
    ensures HasUnusable(ChosenBy(inputs, policy).diagnostics) <==> ChosenBy(inputs, policy).diagnostics != []
  {
    hide CollectAll, ConstrainAll, Table, SoundLevers, SoundConstraints, SortBy;
    CollectExact(inputs);
    var all := CollectAll(SortBy(ByKey(LeverId()), inputs));
    if policy.activationConstraints.Some? {
      ConstrainExact(policy.activationConstraints.value, all.order, all.levers);
    }
    var d := ChosenBy(inputs, policy).diagnostics;
    if d != [] { assert d[0] in d; }
  }

  /** Sound inputs raise no diagnostic and leave the levers the policy leaves. */
  lemma ChosenMeans(inputs: seq<Lever>, policy: Policy)
    ensures var chosen := ChosenBy(inputs, policy);
            && (SoundInput(inputs, policy) <==> chosen.diagnostics == [])
            && (SoundInput(inputs, policy) <==> !HasUnusable(chosen.diagnostics))
            && (SoundInput(inputs, policy) ==>
                  Eligible(inputs, policy, chosen.order, chosen.kept) && ConsistentGroups(chosen.kept))
  {
    hide CollectAll, ConstrainAll, Table, SoundLevers, SoundConstraints, SortBy, LeversById;
    AllUnusable(inputs, policy);
    CollectExact(inputs);
    var all := CollectAll(SortBy(ByKey(LeverId()), inputs));
    if policy.activationConstraints.Some? {
      ConstrainExact(policy.activationConstraints.value, all.order, all.levers);
    }
    var chosen := ChosenBy(inputs, policy);
    if SoundInput(inputs, policy) { EligibleConsistent(inputs, policy, chosen.order, chosen.kept); }
  }

  /** What the envelope function returns, in terms of the levers and the policy. */
  lemma EnvelopeMeaning(inputs: seq<Lever>, policy: Policy, maximum: Option<real>)
    returns (order: seq<string>, levers: Levers, selected: seq<string>)
    ensures IsSelection(policy, levers, selected)
    ensures var r := ActivationEnvelopeOf(inputs, policy, maximum);
            && (SoundInput(inputs, policy) ==> Eligible(inputs, policy, order, levers))
            && (r.valid <==>
                  && SoundInput(inputs, policy)
                  && (policy.activationMode.Selected? ==> Feasible(selected, levers, policy.resourceBudget)))
            && (r.valid <==> !HasUnusable(r.diagnostics))
            && (r.diagnostics == [] <==> r.valid && !r.truncated)
            && (SoundInput(inputs, policy) && !r.valid ==>
                  r.diagnostics == [Diagnostic(ActivationSelectionInvalid, Unusable)])
            && (!r.valid ==> r.items == [Variant("baseline", [], 0.0)] && !r.truncated)
            && (r.valid && policy.activationMode.Selected? ==>
                  && r.items == [VariantOf(selected, levers)] && !r.truncated && r.diagnostics == [])
            && (r.valid && policy.activationMode.Envelope? ==>
                  IsEnvelope(r, order, levers, policy.resourceBudget, EffectiveLimit(maximum)))
  {
    hide SoundInput, Eligible, ChosenBy, Accepts, Legal, CombosFrom, VariantsOf, SelectedIds, Feasible;
    BaselineVariant();
    ChosenMeans(inputs, policy);
    var chosen := ChosenBy(inputs, policy);
    order, levers, selected := chosen.order, chosen.kept, SelectedIds(policy, chosen.kept);
    SelectedExact(policy, levers);
    VariantFaithful(selected, levers);
    if SoundInput(inputs, policy) { AcceptsIffFeasible(selected, levers, policy.resourceBudget); }
    var r := ActivationEnvelopeOf(inputs, policy, maximum);
    if r.valid && r.diagnostics != [] {
      assert r.diagnostics == [Diagnostic(ActivationEnvelopeTruncated, PartialEvidence)];
    }
    if r.diagnostics != [] { assert r.diagnostics[0] in r.diagnostics; }
  }

  lemma EligibleConsistent(inputs: seq<Lever>, policy: Policy, order: seq<string>, levers: Levers)
    requires Eligible(inputs, policy, order, levers)
    ensures ConsistentGroups(levers)
  {
    TableValid(order, levers);
  }

  lemma BaselineVariant()
    ensures forall levers: Levers :: ActivationVariant([], levers) == Variant("baseline", [], 0.0)
  {
    assert SortedUnique([]) == [];
  }

  lemma CollectedById(inputs: seq<Lever>, order: seq<string>, levers: Levers)
    requires Table(order, levers) && SoundLevers(inputs)
    requires forall l :: l in inputs <==> l.id in levers && levers[l.id] == l
    ensures levers == LeversById(inputs)
  {
    LeversByIdExact(inputs, levers);
  }

  lemma WalkedEnvelope(r: EnvelopeResult<Variant>, order: seq<string>, levers: Levers, budget: Option<real>, limit: nat,
                       accepted: seq<seq<string>>)
    requires Offered([[]], CombosFrom(order, 1), accepted, r.truncated, levers, budget, limit)
    requires r.items == VariantsOf(accepted, levers)
    requires r.diagnostics == (if r.truncated then [Diagnostic(ActivationEnvelopeTruncated, PartialEvidence)] else [])
    ensures IsEnvelope(r, order, levers, budget, limit)
    ensures var listed := [[]] + Legal(CombosFrom(order, 1), levers, budget);
            && r.items == VariantsOf(Take(listed, limit), levers)
            && (r.truncated <==> |listed| > limit)
  {}

  // ---- What the envelope is worth ----

  /** The sets an envelope lists. */
  function ActiveSets(items: seq<Variant>): seq<seq<string>> {
    seq(|items|, i requires 0 <= i < |items| => items[i].activeIds)
  }

  /** A listed variant carries its set unchanged and its price. */
  lemma VariantFaithful(c: seq<string>, levers: Levers)
    requires Ascending(c)
    ensures ActivationVariant(c, levers).activeIds == c
    ensures ActivationVariant(c, levers).cpSpent == Cost(c, levers)
    ensures ActivationVariant(c, levers) == VariantOf(c, levers)
  {
    SortedUniqueIdentity(c);
  }

  /** The variant of a set in order: its name, the set itself and what it costs in all. */
  function VariantOf(c: seq<string>, levers: Levers): Variant { Variant(NameOf(c), c, Cost(c, levers)) }

  function NameOf(c: seq<string>): string { if c == [] then "baseline" else "active:" + JoinBy("+", c) }

  /** The price of a set is the sum over its parts; an id on its own costs what its lever says. */
  lemma {:induction false} CostConcat(a: seq<string>, b: seq<string>, levers: Levers)
    ensures Cost(a + b, levers) == Cost(a, levers) + Cost(b, levers)
    ensures forall id :: Cost([id], levers) == if id in levers then levers[id].cpCost else 0.0
  {
    if b == [] {
      assert a + b == a;
    } else {
      var n := |b| - 1;
      CostConcat(a, b[..n], levers);
      assert (a + b)[..|a| + n] == a + b[..n];
    }
    forall id ensures Cost([id], levers) == if id in levers then levers[id].cpCost else 0.0 {
      assert [id][..0] == [];
    }
  }

  /**
    In envelope mode with a budget that is not negative the list is the first `limit` feasible
    subsets, by size then position, each once; it is cut exactly when more exist.
   */
  lemma EnvelopeExact(r: EnvelopeResult<Variant>, order: seq<string>, levers: Levers, budget: Option<real>, limit: nat)
    requires Table(order, levers) && limit >= 1
    requires budget.Some? ==> budget.value >= 0.0
    requires IsEnvelope(r, order, levers, budget, limit)
    ensures ActiveSets(r.items) == Take(AllLegal(order, levers, budget), limit)
    ensures r.truncated <==> |AllLegal(order, levers, budget)| > limit
    ensures forall i :: 0 <= i < |r.items| ==> r.items[i].cpSpent == Cost(r.items[i].activeIds, levers)
    ensures InOrder(ActiveSets(r.items)) && r.items[0].activeIds == []
    ensures forall c :: c in AllLegal(order, levers, budget) <==> SubsetOf(c, order) && Feasible(c, levers, budget)
  {
    var all := AllLegal(order, levers, budget);
    BaselineFirst(order, levers, budget);
    TableValid(order, levers);
    AllLegalExact(order, levers, budget);
    ListIsPrefix(r, order, levers, budget, limit);
    hide *;
    PrefixAscends(all, order, levers, budget, limit);
    ItemsFaithful(r.items, Take(all, limit), levers);
    PrefixInOrder(all, Legal(CombosFrom(order, 1), levers, budget), limit);
  }

  lemma PrefixAscends(all: seq<seq<string>>, order: seq<string>, levers: Levers, budget: Option<real>, limit: nat)
    requires forall c :: c in all <==> SubsetOf(c, order) && Feasible(c, levers, budget)
    ensures forall i :: 0 <= i < |Take(all, limit)| ==> Ascending(Take(all, limit)[i])
  {
    hide Feasible, Ascending;
    forall i | 0 <= i < |Take(all, limit)| ensures Ascending(Take(all, limit)[i]) { assert all[i] in all; }
  }

  lemma PrefixInOrder(all: seq<seq<string>>, rest: seq<seq<string>>, limit: nat)
    requires InOrder(all) && all == [[]] + rest && limit >= 1
    ensures InOrder(Take(all, limit)) && Take(all, limit) != [] && Take(all, limit)[0] == []
  {
    hide Before;
  }

  lemma ItemsFaithful(items: seq<Variant>, listed: seq<seq<string>>, levers: Levers)
    requires |items| == |listed| &&
             forall i :: 0 <= i < |listed| ==> Ascending(listed[i]) && items[i] == ActivationVariant(listed[i], levers)
    ensures ActiveSets(items) == listed
    ensures forall i :: 0 <= i < |items| ==>
              items[i].cpSpent == Cost(items[i].activeIds, levers) && items[i].activeIds == listed[i]
  {
    hide Ascending, ActivationVariant, Cost;
    forall i | 0 <= i < |items| ensures items[i].activeIds == listed[i] && items[i].cpSpent == Cost(listed[i], levers) {
      VariantFaithful(listed[i], levers);
    }
  }

  lemma ListIsPrefix(r: EnvelopeResult<Variant>, order: seq<string>, levers: Levers, budget: Option<real>, limit: nat)
    requires Table(order, levers) && IsEnvelope(r, order, levers, budget, limit)
    requires budget.Some? ==> budget.value >= 0.0
    ensures var listed := Take(AllLegal(order, levers, budget), limit);
            && |r.items| == |listed|
            && forall i :: 0 <= i < |listed| ==> r.items[i] == ActivationVariant(listed[i], levers)
    ensures r.truncated <==> |AllLegal(order, levers, budget)| > limit
  {
    BaselineFirst(order, levers, budget);
    hide Table, ActivationVariant, Legal, CombosFrom, AllLegal;
  }

  /** Even a truncated list is closed under switching activations off. */
  lemma EnvelopeClosed(r: EnvelopeResult<Variant>, order: seq<string>, levers: Levers, budget: Option<real>, limit: nat,
                       i: nat, c: seq<string>)
    requires Table(order, levers) && limit >= 1
    requires budget.Some? ==> budget.value >= 0.0
    requires IsEnvelope(r, order, levers, budget, limit) && i < |r.items|
    requires Ascending(c) && forall x :: x in c ==> x in r.items[i].activeIds
    ensures c in ActiveSets(r.items)
  {
    EnvelopeExact(r, order, levers, budget, limit);
    TableValid(order, levers);
    hide AllLegal, IsEnvelope, Table, Ascending, VariantsOf;
    var all := AllLegal(order, levers, budget);
    var n := |r.items|;
    assert Take(all, limit) == all[..n];
    assert ActiveSets(r.items)[i] == all[i];
    PrefixClosed(order, levers, budget, n, i, c);
  }

  /** A set the policy leaves open: some of the levers, in order, inside every group limit and the budget. */
  ghost predicate Open(c: seq<string>, order: seq<string>, levers: Levers, budget: Option<real>) {
    SubsetOf(c, order) && Feasible(c, levers, budget)
  }

  /** The lists are the first `limit` open sets: none is skipped, and `cut` says whether any is left out. */
  ghost predicate FirstOpenSets(sets: seq<seq<string>>, cut: bool, order: seq<string>, levers: Levers,
                                budget: Option<real>, limit: nat) {
    && sets != [] && sets[0] == [] && |sets| <= limit && InOrder(sets)
    && (forall c :: c in sets ==> Open(c, order, levers, budget))
    && (forall c, i :: Open(c, order, levers, budget) && c !in sets && 0 <= i < |sets| ==> Before(sets[i], c))
    && (cut ==> |sets| == limit)
    && (cut <==> exists c :: Open(c, order, levers, budget) && c !in sets)
  }

  lemma NextIsNew(lists: seq<seq<string>>, n: nat)
    requires InOrder(lists) && n < |lists|
    ensures lists[n] !in lists[..n]
  {
    hide Before;
    BeforeIrreflexive(lists[n]);
    assert forall k :: 0 <= k < n ==> Before(lists[k], lists[n]);
  }

  lemma PrefixIsFirstOpen(order: seq<string>, levers: Levers, budget: Option<real>, limit: nat)
    requires Table(order, levers) && limit >= 1
    requires AllLegal(order, levers, budget) != [] && AllLegal(order, levers, budget)[0] == []
    ensures FirstOpenSets(Take(AllLegal(order, levers, budget), limit), |AllLegal(order, levers, budget)| > limit,
                          order, levers, budget, limit)
  {
    TableValid(order, levers);
    AllLegalExact(order, levers, budget);
    hide AllLegal, Table, SubsetOf, Feasible, Before;
    var all := AllLegal(order, levers, budget);
    var sets := Take(all, limit);
    var n := |sets|;
    assert sets == all[..n] && (|all| <= limit ==> sets == all);
    forall c, i | Open(c, order, levers, budget) && c !in sets && 0 <= i < n ensures Before(sets[i], c) {
      PrefixIsFirst(order, levers, budget, n, c);
      assert Before(all[i], c);
    }
    assert forall c :: c in sets ==> c in all;
    if |all| > limit {
      NextIsNew(all, n);
      assert all[n] in all && Open(all[n], order, levers, budget);
    }
  }

  lemma ListIsFirst(r: EnvelopeResult<Variant>, order: seq<string>, levers: Levers, budget: Option<real>, limit: nat)
    requires Table(order, levers) && limit >= 1
    requires budget.Some? ==> budget.value >= 0.0
    requires IsEnvelope(r, order, levers, budget, limit)
    ensures FirstOpenSets(ActiveSets(r.items), r.truncated, order, levers, budget, limit)
  {
    EnvelopeExact(r, order, levers, budget, limit);
    hide AllLegal, IsEnvelope, Table, FirstOpenSets;
    assert ActiveSets(r.items)[0] == [];
    PrefixIsFirstOpen(order, levers, budget, limit);
  }

  /**
    From the inputs on: over levers and a policy without a fault and a budget that is not negative, the
    function lists the first open sets over the levers the policy leaves, and every subset of a listed set.
   */
  lemma EnvelopeOfPolicy(inputs: seq<Lever>, policy: Policy, maximum: Option<real>)
    returns (order: seq<string>, levers: Levers)
    requires SoundInput(inputs, policy) && policy.activationMode.Envelope?
    requires policy.resourceBudget.Some? ==> policy.resourceBudget.value >= 0.0
    ensures Eligible(inputs, policy, order, levers)
    ensures var r := ActivationEnvelopeOf(inputs, policy, maximum);
            && r.valid
            && FirstOpenSets(ActiveSets(r.items), r.truncated, order, levers, policy.resourceBudget,
                             EffectiveLimit(maximum))
            && (forall i :: 0 <= i < |r.items| ==> r.items[i].cpSpent == Cost(r.items[i].activeIds, levers))
            && forall i, c ::
                 0 <= i < |r.items| && Ascending(c) && (forall x :: x in c ==> x in r.items[i].activeIds) ==>
                   c in ActiveSets(r.items)
  {
    var selected;
    order, levers, selected := EnvelopeMeaning(inputs, policy, maximum);
    hide ActivationEnvelopeOf, IsEnvelope, FirstOpenSets, SoundInput, LeversById, Allowed, Ascending, EffectiveLimit;
    var r, limit := ActivationEnvelopeOf(inputs, policy, maximum), EffectiveLimit(maximum);
    ListIsFirst(r, order, levers, policy.resourceBudget, limit);
    EnvelopeExact(r, order, levers, policy.resourceBudget, limit);
    forall i, c | 0 <= i < |r.items| && Ascending(c) && (forall x :: x in c ==> x in r.items[i].activeIds)
      ensures c in ActiveSets(r.items) {
      EnvelopeClosed(r, order, levers, policy.resourceBudget, limit, i, c);
    }
  }

  lemma NegativeBudgetLeavesNothing(order: seq<string>, levers: Levers, budget: real)
    requires Table(order, levers) && budget < 0.0
    ensures Legal(CombosFrom(order, 1), levers, Some(budget)) == []
  {
    TableValid(order, levers);
    NegativeBudgetRejectsAll(order, levers, budget);
    hide Table, Legal, Combos;
    LegalConcat(Combos(order, 0), CombosFrom(order, 1), levers, Some(budget));
  }

  /** With a negative budget the list is the baseline alone, although the baseline itself is over budget. */
  lemma NegativeBudgetEnvelope(r: EnvelopeResult<Variant>, order: seq<string>, levers: Levers, budget: real, limit: nat)
    requires Table(order, levers) && limit >= 1 && budget < 0.0
    requires IsEnvelope(r, order, levers, Some(budget), limit)
    ensures ActiveSets(r.items) == [[]] && !r.truncated && !Feasible([], levers, Some(budget))
  {
    NegativeBudgetLeavesNothing(order, levers, budget);
    VariantFaithful([], levers);
    hide Table, Legal, CombosFrom, ActivationVariant;
    assert r.items == [ActivationVariant([], levers)];
  }
}
