/**
  lib/rosterpilot/combat-bridge.ts:1399-1521, `composeOuterActivationLevers`: an optional rule
  (outer activation: a price, effects of its own, perhaps a group) whose effect offers inner
  choices is flattened into one lever per inner choice. Every such lever carries the outer price
  and the outer effects, so the flattening is only sound when at most one of them can be active.
 */
module OuterComposition {
  import opened Wrappers
  import opened Ordering
  import opened CombatTypes
  import opened ActivationEnvelope
  import BudgetCapacity
  import GroupCapacity

  /** A buff is known by the slot that names it within its rule. */
  type Buff = string

  datatype Outer = Outer(id: string, caption: string, group: Option<Group>, cpCost: real)

  datatype Inner = Inner(id: string, caption: string, group: Option<Group>, buffs: seq<Buff>)

  datatype InternalLever = InternalLever(lever: Lever, buffs: seq<Buff>)

  datatype Unsafe = TwoGroupLimits | SeveralGroups | PriceRepeated | EffectsRepeated

  datatype Composition = Levers(levers: seq<InternalLever>) | Refused(why: Unsafe)

  datatype OptionalRule = OptionalRule(perspective: string, abilityId: string, outer: Outer, applied: seq<Buff>,
                                       choices: seq<Inner>)

  function NamespacedId(rule: OptionalRule, id: string): string {
    rule.perspective + ":" + rule.abilityId + ":" + id
  }

  function NamespacedGroup(rule: OptionalRule, group: Option<Group>): Option<Group> {
    if group.None? then None else Some(Group(rule.perspective + ":" + group.value.id, group.value.maxActivations))
  }

  predicate OneGroupKey(choices: seq<Inner>) {
    choices != [] && forall i :: 0 <= i < |choices| ==> choices[i].group == choices[0].group
  }

  function AtMost(n: nat, limit: real): real {
    if limit < n as real then limit else n as real
  }

  /** How many of the levers one accepted set may hold. */
  function MaximumSelected(rule: OptionalRule): real
    requires rule.choices != []
  {
    var n := |rule.choices|;
    if n == 1 then 1.0
    else if rule.outer.group.Some? then AtMost(n, rule.outer.group.value.maxActivations)
    else if OneGroupKey(rule.choices) && rule.choices[0].group.Some? then
      AtMost(n, rule.choices[0].group.value.maxActivations)
    else n as real
  }

  function Compose(rule: OptionalRule): Composition {
    var outerGroup := NamespacedGroup(rule, rule.outer.group);
    if rule.choices == [] then
      Levers(if rule.applied == [] then []
             else [InternalLever(Lever(NamespacedId(rule, rule.outer.id), rule.outer.caption, outerGroup,
                                       rule.outer.cpCost), rule.applied)])
    else if rule.outer.group.Some? && |rule.choices| > 1 && !OneGroupKey(rule.choices) then
      Refused(SeveralGroups)
    else if rule.outer.group.Some? && |rule.choices| > 1 && rule.choices[0].group.Some?
         && rule.outer.group.value.maxActivations > rule.choices[0].group.value.maxActivations then
      Refused(TwoGroupLimits)
    else if rule.outer.cpCost > 0.0 && MaximumSelected(rule) > 1.0 then
      Refused(PriceRepeated)
    else if rule.applied != [] && MaximumSelected(rule) > 1.0 then
      Refused(EffectsRepeated)
    else
      Levers(seq(|rule.choices|, i requires 0 <= i < |rule.choices| => LeverFor(rule, rule.choices[i])))
  }

  function LeverFor(rule: OptionalRule, choice: Inner): InternalLever {
    InternalLever(
      Lever(NamespacedId(rule, choice.id), rule.outer.caption + ": " + choice.caption,
            if rule.outer.group.Some? then NamespacedGroup(rule, rule.outer.group)
            else NamespacedGroup(rule, choice.group),
            rule.outer.cpCost),
      rule.applied + choice.buffs)
  }

  // ---- When a rule is refused, and the levers of one that is not ----

  ghost predicate GroupsAgree(choices: seq<Inner>) {
    forall x, y :: x in choices && y in choices ==> x.group == y.group
  }

  /** Nothing keeps two choices of the rule from being active together. */
  ghost predicate TwoCanBeActive(rule: OptionalRule) {
    && |rule.choices| > 1
    && (rule.outer.group.Some? ==> rule.outer.group.value.maxActivations > 1.0)
    && (rule.outer.group.None? && GroupsAgree(rule.choices) ==>
          forall x :: x in rule.choices && x.group.Some? ==> x.group.value.maxActivations > 1.0)
  }

  /** The rule's own group would have to share its choices with groups that differ. */
  ghost predicate GroupsClash(rule: OptionalRule) {
    rule.outer.group.Some? && |rule.choices| > 1 && !GroupsAgree(rule.choices)
  }

  /** The rule's own group allows more than the one group of its choices does. */
  ghost predicate LimitsClash(rule: OptionalRule) {
    rule.outer.group.Some? && |rule.choices| > 1 && GroupsAgree(rule.choices) &&
    exists x :: x in rule.choices && x.group.Some? &&
                x.group.value.maxActivations < rule.outer.group.value.maxActivations
  }

  lemma GroupKeyIff(choices: seq<Inner>)
    requires choices != []
    ensures OneGroupKey(choices) <==> GroupsAgree(choices)
    ensures OneGroupKey(choices) ==> forall x :: x in choices ==> x.group == choices[0].group
  {
    assert choices[0] in choices;
  }

  lemma MaximumIff(rule: OptionalRule)
    requires rule.choices != [] && !GroupsClash(rule)
    ensures MaximumSelected(rule) > 1.0 <==> TwoCanBeActive(rule)
  {
    GroupKeyIff(rule.choices);
    hide OneGroupKey, GroupsAgree;
    assert rule.choices[0] in rule.choices;
  }

  /** A rule is refused for exactly the first of four reasons that applies, and composed when none does. */
  lemma ComposeIff(rule: OptionalRule)
    ensures Compose(rule) == Refused(SeveralGroups) <==> GroupsClash(rule)
    ensures Compose(rule) == Refused(TwoGroupLimits) <==> LimitsClash(rule)
    ensures Compose(rule) == Refused(PriceRepeated) <==>
              !GroupsClash(rule) && !LimitsClash(rule) && rule.outer.cpCost > 0.0 && TwoCanBeActive(rule)
    ensures Compose(rule) == Refused(EffectsRepeated) <==>
              !GroupsClash(rule) && !LimitsClash(rule) && rule.outer.cpCost <= 0.0 && rule.applied != [] &&
              TwoCanBeActive(rule)
    ensures Compose(rule).Levers? <==>
              !GroupsClash(rule) && !LimitsClash(rule) &&
              ((rule.outer.cpCost <= 0.0 && rule.applied == []) || !TwoCanBeActive(rule))
  {
    if rule.choices != [] {
      GroupKeyIff(rule.choices);
      if !GroupsClash(rule) { MaximumIff(rule); }
      assert rule.choices[0] in rule.choices;
      hide OneGroupKey, GroupsAgree, TwoCanBeActive, MaximumSelected, LeverFor;
    }
  }

  /** A choice's group or the rule's, under a name of the rule's side. */
  ghost predicate GroupIs(rule: OptionalRule, own: Option<Group>, group: Option<Group>) {
    match own
    case None => group.None?
    case Some(g) => group == Some(Group(rule.perspective + ":" + g.id, g.maxActivations))
  }

  /** One lever per choice, in order, or one for the rule itself when it has effects and offers no choice. */
  lemma LeversRead(rule: OptionalRule)
    requires Compose(rule).Levers?
    ensures var levers, prefix := Compose(rule).levers, rule.perspective + ":" + rule.abilityId + ":";
            && |levers| == (if rule.choices != [] then |rule.choices| else if rule.applied != [] then 1 else 0)
            && (forall i :: 0 <= i < |rule.choices| ==>
                  && levers[i].lever.id == prefix + rule.choices[i].id
                  && levers[i].lever.caption == rule.outer.caption + ": " + rule.choices[i].caption
                  && levers[i].lever.cpCost == rule.outer.cpCost
                  && GroupIs(rule, if rule.outer.group.Some? then rule.outer.group else rule.choices[i].group,
                             levers[i].lever.group)
                  && levers[i].buffs == rule.applied + rule.choices[i].buffs)
            && (rule.choices == [] && rule.applied != [] ==>
                  && levers[0].lever.id == prefix + rule.outer.id && levers[0].lever.caption == rule.outer.caption
                  && levers[0].lever.cpCost == rule.outer.cpCost && levers[0].buffs == rule.applied
                  && GroupIs(rule, rule.outer.group, levers[0].lever.group))
  {
    hide OneGroupKey, MaximumSelected;
  }

  // ---- What an accepted set does with the levers of one rule ----

  /** The ids of a rule's levers. */
  function OwnIds(levers: seq<InternalLever>): set<string> {
    set i | 0 <= i < |levers| :: levers[i].lever.id
  }

  /** The ids of the levers made from the choices of one inner group. */
  function ChoiceIds(rule: OptionalRule, group: Group): set<string> {
    set i | 0 <= i < |rule.choices| && rule.choices[i].group == Some(group) :: NamespacedId(rule, rule.choices[i].id)
  }

  /** How many of the active ids are in a given set. */
  function CountIn(active: seq<string>, own: set<string>): nat {
    if active == [] then 0
    else CountIn(active[..|active| - 1], own) + (if active[|active| - 1] in own then 1 else 0)
  }

  /** What the active ids of a given set are charged in all. */
  function CostIn(active: seq<string>, own: set<string>, table: ActivationEnvelope.Levers): real {
    if active == [] then 0.0
    else
      CostIn(active[..|active| - 1], own, table) +
      (if active[|active| - 1] in own && active[|active| - 1] in table then table[active[|active| - 1]].cpCost else 0.0)
  }

  ghost predicate Distinct(ids: seq<string>) {
    forall i, j :: 0 <= i < j < |ids| ==> ids[i] != ids[j]
  }

  /** The compiled table holds the rule's levers under their ids; a policy's allowlist may have removed some. */
  ghost predicate Offers(table: ActivationEnvelope.Levers, levers: seq<InternalLever>) {
    forall i :: 0 <= i < |levers| && levers[i].lever.id in table ==> table[levers[i].lever.id] == levers[i].lever
  }

  ghost predicate Declared(active: seq<string>, table: ActivationEnvelope.Levers) {
    forall id :: id in active ==> id in table
  }

  lemma AcceptedDeclared(active: seq<string>, table: ActivationEnvelope.Levers, budget: Option<real>)
    requires Accepts(active, table, budget)
    ensures Declared(active, table)
  {
    forall id | id in active ensures id in table {
      var i :| 0 <= i < |active| && active[i] == id;
      assert StepAllowed(active, i, table);
    }
  }

  lemma {:induction false} CountInGroup(active: seq<string>, own: set<string>, table: ActivationEnvelope.Levers,
                                        groupId: string)
    requires Declared(active, table) && forall id :: id in own && id in table ==> InGroup(id, table, groupId)
    ensures CountIn(active, own) <= GroupCount(active, table, groupId)
  {
    if active != [] { CountInGroup(active[..|active| - 1], own, table, groupId); }
  }

  lemma {:induction false} CountInSubset(active: seq<string>, small: set<string>, large: set<string>)
    requires small <= large
    ensures CountIn(active, small) <= CountIn(active, large)
  {
    if active != [] { CountInSubset(active[..|active| - 1], small, large); }
  }

  lemma {:induction false} CountInOne(active: seq<string>, own: set<string>, id: string)
    requires Distinct(active) && own <= {id}
    ensures CountIn(active, own) <= 1
    ensures CountIn(active, own) == 1 ==> id in active
  {
    if active != [] {
      var n := |active| - 1;
      CountInOne(active[..n], own, id);
      assert active[n] !in active[..n];
    }
  }

  lemma {:induction false} CountInUsed(active: seq<string>, own: set<string>) returns (id: string)
    requires CountIn(active, own) > 0
    ensures id in active && id in own
  {
    var n := |active| - 1;
    if active[n] in own { id := active[n]; } else { id := CountInUsed(active[..n], own); }
  }

  lemma {:induction false} CostInIsCountTimesPrice(active: seq<string>, own: set<string>,
                                                   table: ActivationEnvelope.Levers, price: real)
    requires Declared(active, table) && forall id :: id in own && id in table ==> table[id].cpCost == price
    ensures CostIn(active, own, table) == CountIn(active, own) as real * price
  {
    if active != [] { CostInIsCountTimesPrice(active[..|active| - 1], own, table, price); }
  }

  /** The limit an accepted set meets for any of its groups. */
  lemma GroupLimitHolds(active: seq<string>, table: ActivationEnvelope.Levers, budget: Option<real>, own: set<string>,
                        group: Group)
    requires Accepts(active, table, budget) && ConsistentGroups(table)
    requires forall id :: id in own && id in table ==> table[id].group == Some(group)
    ensures CountIn(active, own) > 0 ==> CountIn(active, own) as real <= group.maxActivations
  {
    AcceptsIffFeasible(active, table, budget);
    AcceptedDeclared(active, table, budget);
    CountInGroup(active, own, table, group.id);
    if CountIn(active, own) > 0 {
      var id := CountInUsed(active, own);
      assert GroupCount(active, table, group.id) as real <= group.maxActivations;
    }
  }

  /** At most as many levers of a safe composition are active as it computed. */
  lemma SafeSelection(rule: OptionalRule, table: ActivationEnvelope.Levers, budget: Option<real>, active: seq<string>)
    requires Compose(rule).Levers? && rule.choices != []
    requires Offers(table, Compose(rule).levers) && ConsistentGroups(table)
    requires Distinct(active) && Accepts(active, table, budget)
    ensures |rule.choices| == 1
         || (rule.outer.group.None? && !(OneGroupKey(rule.choices) && rule.choices[0].group.Some?))
         || CountIn(active, OwnIds(Compose(rule).levers)) == 0
         || CountIn(active, OwnIds(Compose(rule).levers)) as real <=
              (if rule.outer.group.Some? then rule.outer.group.value else rule.choices[0].group.value).maxActivations
    ensures |rule.choices| == 1 ==> CountIn(active, OwnIds(Compose(rule).levers)) <= 1
  {
    var levers := Compose(rule).levers;
    var own := OwnIds(levers);
    if |rule.choices| == 1 {
      CountInOne(active, own, levers[0].lever.id);
    } else if rule.outer.group.Some? || (OneGroupKey(rule.choices) && rule.choices[0].group.Some?) {
      var group := levers[0].lever.group.value;
      forall id | id in own && id in table ensures table[id].group == Some(group) {
        var i :| 0 <= i < |levers| && levers[i].lever.id == id;
        assert levers[i] == LeverFor(rule, rule.choices[i]);
      }
      GroupLimitHolds(active, table, budget, own, group);
    }
  }

  /**
    A composition judged safe charges the outer price at most once and applies the outer effects
    at most once in every activation set the constraint checker accepts.
   */
  lemma OuterChargedOnce(rule: OptionalRule, table: ActivationEnvelope.Levers, budget: Option<real>,
                         active: seq<string>)
    requires Compose(rule).Levers? && rule.outer.cpCost >= 0.0
    requires Offers(table, Compose(rule).levers) && ConsistentGroups(table)
    requires Distinct(active) && Accepts(active, table, budget)
    ensures var own := OwnIds(Compose(rule).levers);
            && CostIn(active, own, table) == (if CountIn(active, own) == 0 then 0.0 else rule.outer.cpCost)
            && (rule.applied != [] ==> CountIn(active, own) <= 1)
  {
    var levers := Compose(rule).levers;
    var own := OwnIds(levers);
    AcceptedDeclared(active, table, budget);
    forall id | id in own && id in table ensures table[id].cpCost == rule.outer.cpCost {
      var i :| 0 <= i < |levers| && levers[i].lever.id == id;
    }
    CostInIsCountTimesPrice(active, own, table, rule.outer.cpCost);
    if rule.outer.cpCost > 0.0 || rule.applied != [] {
      AtMostOneActive(rule, table, budget, active);
    }
    CountTimesPrice(CountIn(active, own), rule.outer.cpCost);
  }

  lemma CountTimesPrice(count: nat, price: real)
    requires price >= 0.0 && (price > 0.0 ==> count <= 1)
    ensures count as real * price == (if count == 0 then 0.0 else price)
  {
    if count == 1 { assert 1 as real * price == price; }
  }

  /** Every lever of a composition carries the outer effects in full, and no choice is dropped. */
  lemma NothingDropped(rule: OptionalRule)
    requires Compose(rule).Levers?
    ensures forall i :: 0 <= i < |Compose(rule).levers| ==> rule.applied <= Compose(rule).levers[i].buffs
    ensures rule.choices != [] ==> |Compose(rule).levers| == |rule.choices|
    ensures forall i :: 0 <= i < |rule.choices| ==>
              rule.choices[i].buffs == Compose(rule).levers[i].buffs[|rule.applied|..]
    ensures rule.choices == [] && rule.applied != [] ==> |Compose(rule).levers| == 1
  {
    var levers := Compose(rule).levers;
    forall i | 0 <= i < |rule.choices|
      ensures levers[i].buffs == rule.applied + rule.choices[i].buffs
    {
      assert levers[i] == LeverFor(rule, rule.choices[i]);
    }
  }

  lemma AtMostOneActive(rule: OptionalRule, table: ActivationEnvelope.Levers, budget: Option<real>, active: seq<string>)
    requires Compose(rule).Levers? && (rule.outer.cpCost > 0.0 || rule.applied != [])
    requires Offers(table, Compose(rule).levers) && ConsistentGroups(table)
    requires Distinct(active) && Accepts(active, table, budget)
    ensures CountIn(active, OwnIds(Compose(rule).levers)) <= 1
  {
    var levers := Compose(rule).levers;
    if rule.choices == [] {
      CountInOne(active, OwnIds(levers), if levers == [] then "" else levers[0].lever.id);
    } else {
      SafeSelection(rule, table, budget, active);
    }
  }

  /** Both limits hold: the outer group's for the rule, and every inner group's for its choices. */
  lemma BothLimitsKept(rule: OptionalRule, table: ActivationEnvelope.Levers, budget: Option<real>, active: seq<string>,
                       inner: Group)
    requires Compose(rule).Levers? && inner.maxActivations >= 1.0
    requires Offers(table, Compose(rule).levers) && ConsistentGroups(table)
    requires Distinct(active) && Accepts(active, table, budget)
    ensures rule.outer.group.Some? && CountIn(active, OwnIds(Compose(rule).levers)) > 0 ==>
              CountIn(active, OwnIds(Compose(rule).levers)) as real <= rule.outer.group.value.maxActivations
    ensures CountIn(active, ChoiceIds(rule, inner)) as real <= inner.maxActivations
  {
    var levers := Compose(rule).levers;
    var own, chosen := OwnIds(levers), ChoiceIds(rule, inner);
    if rule.outer.group.Some? {
      var outer := NamespacedGroup(rule, rule.outer.group).value;
      forall id | id in own && id in table ensures table[id].group == Some(outer) {
        var i :| 0 <= i < |levers| && levers[i].lever.id == id;
      }
      GroupLimitHolds(active, table, budget, own, outer);
    }
    if rule.choices == [] {
      assert chosen == {};
      CountInSubset(active, chosen, {});
      CountInNothing(active);
    } else {
      forall id | id in chosen ensures id in own {
        var i :| 0 <= i < |rule.choices| && rule.choices[i].group == Some(inner) &&
                 NamespacedId(rule, rule.choices[i].id) == id;
        assert levers[i].lever.id == id;
      }
      CountInSubset(active, chosen, own);
      if |rule.choices| == 1 {
        SafeSelection(rule, table, budget, active);
      } else if rule.outer.group.None? {
        var group := NamespacedGroup(rule, Some(inner)).value;
        forall id | id in chosen && id in table ensures table[id].group == Some(group) {
          var i :| 0 <= i < |rule.choices| && rule.choices[i].group == Some(inner) &&
                   NamespacedId(rule, rule.choices[i].id) == id;
          assert levers[i] == LeverFor(rule, rule.choices[i]);
        }
        GroupLimitHolds(active, table, budget, chosen, group);
      } else if CountIn(active, chosen) > 0 {
        var id := CountInUsed(active, chosen);
        assert rule.choices[0].group == Some(inner);
      }
    }
  }

  lemma {:induction false} CountInNothing(active: seq<string>)
    ensures CountIn(active, {}) == 0
  {
    if active != [] { CountInNothing(active[..|active| - 1]); }
  }

  // ---- Across rules ----

  /** A lever keeps the group of its choice exactly when the rule adds none, or adds that very group. */
  lemma KeepsInnerGroup(rule: OptionalRule, choice: Inner)
    ensures LeverFor(rule, choice).lever.group == NamespacedGroup(rule, choice.group)
       <==> rule.outer.group.None? || rule.outer.group == choice.group
  {
    if rule.outer.group.Some? && choice.group.Some? {
      var p, a, b := rule.perspective + ":", rule.outer.group.value.id, choice.group.value.id;
      if p + a == p + b {
        assert a == (p + a)[|p|..] && b == (p + b)[|p|..];
      }
    }
  }

  /** The levers made from the choices of one inner group, over all rules. */
  function AllChoiceIds(rules: seq<OptionalRule>, group: Group): set<string> {
    if rules == [] then {} else ChoiceIds(rules[0], group) + AllChoiceIds(rules[1..], group)
  }

  /** The choices of one inner group that the table still offers, once each, over all rules. */
  function SharedIds(rules: seq<OptionalRule>, inner: Group, table: ActivationEnvelope.Levers): (r: seq<string>)
    ensures Distinct(r) && forall id :: id in r <==> id in AllChoiceIds(rules, inner) && id in table
  {
    if rules == [] then []
    else Dedup(OfferedChoices(rules[0], rules[0].choices, inner, table) + SharedIds(rules[1..], inner, table))
  }

  function OfferedChoices(rule: OptionalRule, choices: seq<Inner>, inner: Group,
                          table: ActivationEnvelope.Levers): (r: seq<string>)
    ensures forall id :: id in r <==>
              id in table && exists i :: 0 <= i < |choices| && choices[i].group == Some(inner) &&
                               NamespacedId(rule, choices[i].id) == id
  {
    if choices == [] then []
    else
      var n := |choices| - 1;
      var before, id := OfferedChoices(rule, choices[..n], inner, table), NamespacedId(rule, choices[n].id);
      if choices[n].group == Some(inner) && id in table then before + [id] else before
  }

  lemma {:induction false} ChoicesHaveGroups(rules: seq<OptionalRule>, table: ActivationEnvelope.Levers, inner: Group)
    requires forall r :: r in rules ==> Compose(r).Levers? && Offers(table, Compose(r).levers)
    ensures forall id :: id in AllChoiceIds(rules, inner) && id in table ==> table[id].group.Some?
  {
    if rules != [] {
      ChoicesHaveGroups(rules[1..], table, inner);
      var r := rules[0];
      forall id | id in ChoiceIds(r, inner) && id in table ensures table[id].group.Some? {
        var i :| 0 <= i < |r.choices| && r.choices[i].group == Some(inner) && NamespacedId(r, r.choices[i].id) == id;
        assert Compose(r).levers[i] == LeverFor(r, r.choices[i]);
      }
    }
  }

  lemma {:induction false} CountInListed(active: seq<string>, own: set<string>, ids: seq<string>)
    requires forall id :: id in active ==> (id in own <==> id in ids)
    ensures CountIn(active, own) == GroupCapacity.CountListed(active, ids)
  {
    if active != [] {
      assert active[|active| - 1] in active;
      CountInListed(active[..|active| - 1], own, ids);
    }
  }

  /**
    An inner limit shared by several rules holds for every accepted set exactly when the effective groups
    of the composed choices leave no more room than that: the sum, over those groups, of the smaller of the
    group's limit and its number of choices. A budget can only shrink what is accepted.
   */
  lemma SharedLimitIff(rules: seq<OptionalRule>, table: ActivationEnvelope.Levers, inner: Group)
    requires ConsistentGroups(table)
    requires forall r :: r in rules ==> Compose(r).Levers? && Offers(table, Compose(r).levers)
    ensures GroupCapacity.Grouped(SharedIds(rules, inner, table), table)
    ensures (forall active :: Distinct(active) && Accepts(active, table, None) ==>
               CountIn(active, AllChoiceIds(rules, inner)) as real <= inner.maxActivations)
       <==> GroupCapacity.Capacity(SharedIds(rules, inner, table), table) as real <= inner.maxActivations
    ensures forall active, budget :: Distinct(active) && Accepts(active, table, budget) ==>
              CountIn(active, AllChoiceIds(rules, inner)) <=
              GroupCapacity.Capacity(SharedIds(rules, inner, table), table)
  {
    var ids, own := SharedIds(rules, inner, table), AllChoiceIds(rules, inner);
    ChoicesHaveGroups(rules, table, inner);
    hide SharedIds, AllChoiceIds, GroupCapacity.Capacity, GroupCapacity.CountListed, Accepts, ConsistentGroups;
    forall i | 0 <= i < |ids| ensures ids[i] in table && table[ids[i]].group.Some? { assert ids[i] in ids; }
    forall active, budget | Distinct(active) && Accepts(active, table, budget)
      ensures CountIn(active, own) == GroupCapacity.CountListed(active, ids) <= GroupCapacity.Capacity(ids, table)
    {
      AcceptedDeclared(active, table, budget);
      CountInListed(active, own, ids);
      GroupCapacity.AtMostCapacity(active, ids, table, budget);
    }
    GroupCapacity.WithinIff(ids, table, inner.maxActivations);
  }

  /** The least count that breaks a limit. */
  function MoreThan(limit: real): nat { if limit < 0.0 then 0 else limit.Floor + 1 }

  lemma WithinLimit(k: nat, limit: real)
    ensures k as real <= limit <==> k < MoreThan(limit)
  {
    assert limit.Floor as real <= limit < (limit.Floor + 1) as real;
  }

  /**
    Under a budget, such a limit holds for every accepted set exactly when one activation more than it allows
    cannot be paid for: the cheapest choices are taken first, each while its effective group has room.
   */
  lemma SharedLimitWithBudgetIff(rules: seq<OptionalRule>, table: ActivationEnvelope.Levers, inner: Group,
                                 budget: Option<real>)
    requires ConsistentGroups(table) && NonNegativeCosts(table)
    requires forall r :: r in rules ==> Compose(r).Levers? && Offers(table, Compose(r).levers)
    ensures GroupCapacity.Grouped(BudgetCapacity.ByCost(SharedIds(rules, inner, table), table), table)
    ensures (forall active :: Distinct(active) && Accepts(active, table, budget) ==>
               CountIn(active, AllChoiceIds(rules, inner)) as real <= inner.maxActivations)
       <==> !BudgetCapacity.Reaches(SharedIds(rules, inner, table), table, budget, MoreThan(inner.maxActivations))
  {
    var ids, own, n := SharedIds(rules, inner, table), AllChoiceIds(rules, inner), MoreThan(inner.maxActivations);
    ChoicesHaveGroups(rules, table, inner);
    hide SharedIds, AllChoiceIds, GroupCapacity.CountListed, Accepts, ConsistentGroups, NonNegativeCosts;
    forall i | 0 <= i < |ids| ensures ids[i] in table && table[ids[i]].group.Some? { assert ids[i] in ids; }
    BudgetCapacity.ReachesIff(ids, table, budget, n);
    hide BudgetCapacity.Reaches, BudgetCapacity.ByCost, GroupCapacity.Grouped, MoreThan;
    forall active | Distinct(active) && Accepts(active, table, budget)
      ensures CountIn(active, own) as real <= inner.maxActivations <==> GroupCapacity.CountListed(active, ids) < n
    {
      AcceptedDeclared(active, table, budget);
      CountInListed(active, own, ids);
      WithinLimit(CountIn(active, own), inner.maxActivations);
    }
  }

  function ExampleRule(ability: string): OptionalRule {
    OptionalRule("attacker", ability, Outer("use", "Use", Some(Group("once-" + ability, 1.0)), 0.0), [],
                 [Inner("aim", "Aim", Some(Group("stance", 1.0)), ["aim"])])
  }

  /** Two activations of different groups are accepted together. */
  lemma ApartAccepted(x: Lever, y: Lever)
    requires x.id != y.id && x.group.Some? && y.group.Some? && x.group.value.id != y.group.value.id
    requires x.group.value.maxActivations >= 1.0 && y.group.value.maxActivations >= 1.0
    ensures Accepts([x.id, y.id], map[x.id := x, y.id := y], None)
  {
    var table, gx, gy := map[x.id := x, y.id := y], x.group.value.id, y.group.value.id;
    assert [x.id, y.id][..1] == [x.id] && [x.id, y.id][..2] == [x.id, y.id];
    assert GroupCount([x.id], table, gx) == 1 && GroupCount([x.id], table, gy) == 0;
    assert GroupCount([x.id, y.id], table, gy) == 1;
    assert StepAllowed([x.id, y.id], 0, table);
    assert StepAllowed([x.id, y.id], 1, table);
  }

  /**
    An inner group shared by two rules: each composition alone is safe, but each replaces the
    shared group with its own, and the checker accepts both choices although the shared group
    permits one. The limit of an inner group is kept per rule, not per bundle.
   */
  lemma SharedInnerGroupLost()
    ensures var a, b := ExampleRule("a"), ExampleRule("b");
            && Compose(a).Levers? && Compose(b).Levers?
            && a.choices[0].group == b.choices[0].group && a.choices[0].group.value.maxActivations == 1.0
            && var x, y := Compose(a).levers[0].lever, Compose(b).levers[0].lever;
               Accepts([x.id, y.id], map[x.id := x, y.id := y], None)
  {
    var a, b := ExampleRule("a"), ExampleRule("b");
    var x, y := Compose(a).levers[0].lever, Compose(b).levers[0].lever;
    assert x.id[9] == 'a' && y.id[9] == 'b';
    assert x.group.value.id[14] == 'a' && y.group.value.id[14] == 'b';
    ApartAccepted(x, y);
  }
}
