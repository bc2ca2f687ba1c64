/**
  lib/rosterpilot/combat-bridge.ts, the `addCombination`/`walk` closures of
  `enumerateActivationEnvelope`: subsets by size, then by position, cut at a limit.
 */
module ActivationWalk {
  import opened Sequences
  import opened Wrappers
  import opened Ordering
  import opened CombatTypes
  import opened ActivationEnvelope

  /** `activationVariant`. */
  function ActivationVariant(activeIds: seq<string>, levers: Levers): Variant {
    var ids := SortedUnique(activeIds);
    Variant(if ids == [] then "baseline" else "active:" + JoinBy("+", ids), ids, Cost(ids, levers))
  }

  // ---- The subsets of a list of identifiers, by size, in position order ----

  function Prepend(prefix: seq<string>, lists: seq<seq<string>>): seq<seq<string>> {
    seq(|lists|, i requires 0 <= i < |lists| => prefix + lists[i])
  }

  function Combos(ids: seq<string>, size: nat): seq<seq<string>> {
    if size == 0 then [[]]
    else if ids == [] then []
    else Prepend([ids[0]], Combos(ids[1..], size - 1)) + Combos(ids[1..], size)
  }

  function CombosFrom(ids: seq<string>, size: nat): seq<seq<string>>
    decreases |ids| + 1 - size
  {
    if size > |ids| then [] else Combos(ids, size) + CombosFrom(ids, size + 1)
  }

  /** Keep what the constraint checker accepts. */
  function Legal(lists: seq<seq<string>>, levers: Levers, budget: Option<real>): seq<seq<string>> {
    if lists == [] then []
    else (if Accepts(lists[0], levers, budget) then [lists[0]] else []) + Legal(lists[1..], levers, budget)
  }

  function VariantsOf(lists: seq<seq<string>>, levers: Levers): seq<Variant> {
    seq(|lists|, i requires 0 <= i < |lists| => ActivationVariant(lists[i], levers))
  }

  lemma {:induction false} LegalConcat(a: seq<seq<string>>, b: seq<seq<string>>, levers: Levers, budget: Option<real>)
    ensures Legal(a + b, levers, budget) == Legal(a, levers, budget) + Legal(b, levers, budget)
  {
    hide Accepts;
    if a == [] {
      assert a + b == b;
    } else {
      var first := if Accepts(a[0], levers, budget) then [a[0]] else [];
      assert (a + b)[0] == a[0] && (a + b)[1..] == a[1..] + b;
      assert Legal(a + b, levers, budget) == first + Legal(a[1..] + b, levers, budget);
      assert Legal(a, levers, budget) == first + Legal(a[1..], levers, budget);
      hide Legal;
      LegalConcat(a[1..], b, levers, budget);
      assert first + (Legal(a[1..], levers, budget) + Legal(b, levers, budget)) ==
             first + Legal(a[1..], levers, budget) + Legal(b, levers, budget);
    }
  }

  // ---- The walk ----

  /** Offering `lists` in order keeps every legal one, or exactly as many as the limit allows. */
  ghost predicate Offered(before: seq<seq<string>>, lists: seq<seq<string>>, after: seq<seq<string>>, truncated: bool,
                          levers: Levers, budget: Option<real>, limit: nat)
  {
    var kept := before + Legal(lists, levers, budget);
    && |before| <= limit
    && (truncated <==> |kept| > limit)
    && after == (if |kept| > limit then kept[..limit] else kept)
  }

  lemma OfferedInTurn(before: seq<seq<string>>, first: seq<seq<string>>, middle: seq<seq<string>>,
                      second: seq<seq<string>>, after: seq<seq<string>>, truncated: bool,
                      levers: Levers, budget: Option<real>, limit: nat)
    requires Offered(before, first, middle, false, levers, budget, limit)
    requires Offered(middle, second, after, truncated, levers, budget, limit)
    ensures Offered(before, first + second, after, truncated, levers, budget, limit)
  {
    LegalConcat(first, second, levers, budget);
    assert before + (Legal(first, levers, budget) + Legal(second, levers, budget)) ==
           middle + Legal(second, levers, budget);
  }

  lemma OfferedEnough(before: seq<seq<string>>, first: seq<seq<string>>, after: seq<seq<string>>,
                      second: seq<seq<string>>, levers: Levers, budget: Option<real>, limit: nat)
    requires Offered(before, first, after, true, levers, budget, limit)
    ensures Offered(before, first + second, after, true, levers, budget, limit)
  {
    LegalConcat(first, second, levers, budget);
    assert before + (Legal(first, levers, budget) + Legal(second, levers, budget)) ==
           before + Legal(first, levers, budget) + Legal(second, levers, budget);
  }

  /** The mutable locals the two closures share. */
  class EnvelopeWalk {
    const ids: seq<string>
    const levers: Levers
    const budget: Option<real>
    const limit: nat
    var selected: seq<string>
    var variants: seq<Variant>
    var truncated: bool
    ghost var accepted: seq<seq<string>>

    ghost predicate Valid()
      reads this
    {
      variants == VariantsOf(accepted, levers) && |accepted| <= limit
    }

    constructor (ids: seq<string>, levers: Levers, budget: Option<real>, limit: nat)
      requires limit >= 1
      ensures Valid() && this.ids == ids && this.levers == levers && this.budget == budget && this.limit == limit
      ensures selected == [] && !truncated && accepted == [[]]
    {
      this.ids, this.levers, this.budget, this.limit := ids, levers, budget, limit;
      selected, truncated, accepted := [], false, [[]];
      variants := [ActivationVariant([], levers)];
    }

    method AddCombination() returns (goOn: bool)
      requires Valid() && !truncated
      modifies this`variants, this`truncated, this`accepted
      ensures Valid() && goOn == !truncated
      ensures Offered(old(accepted), [selected], accepted, truncated, levers, budget, limit)
    {
      assert Legal([selected], levers, budget) == if Accepts(selected, levers, budget) then [selected] else [];
      var issue := ActivationConstraintIssue(selected, levers, budget);
      if issue.Some? { return true; }
      if |variants| >= limit {
        truncated := true;
        return false;
      }
      variants := variants + [ActivationVariant(selected, levers)];
      accepted := accepted + [selected];
      return true;
    }

    method Walk(size: nat, start: nat) returns (goOn: bool)
      requires Valid() && !truncated && |selected| <= size && start <= |ids|
      modifies this
      ensures Valid() && goOn == !truncated && (goOn ==> selected == old(selected))
      ensures Offered(old(accepted), Prepend(old(selected), Combos(ids[start..], size - |old(selected)|)),
                      accepted, truncated, levers, budget, limit)
      decreases size - |selected|
    {
      hide Offered, Prepend, Combos, CombosFrom, Legal, Accepts, VariantsOf, ActivationVariant;
      if |selected| == size {
        PrependEmptyList(selected, ids[start..]);
        goOn := AddCombination();
        return;
      }
      ghost var rest, before, was := size - |selected|, accepted, selected;
      OfferedNothing(before, levers, budget, limit);
      ghost var all, offered := Prepend(selected, Combos(ids[start..], rest)), [];
      for index := start to |ids|
        invariant Valid() && selected == was && !truncated
        invariant all == offered + Prepend(was, Combos(ids[index..], rest))
        invariant Offered(before, offered, accepted, false, levers, budget, limit)
      {
        ghost var middle := accepted;
        selected := selected + [ids[index]];
        var more := Walk(size, index + 1);
        offered := StepOfWalk(was, ids, index, rest, all, before, offered, middle, accepted, truncated, levers, budget,
                              limit);
        if !more { return false; }
        selected := selected[..|selected| - 1];
      }
      NothingLeft(was, ids, rest, offered);
      return true;
    }

    /** The loop over sizes. */
    method WalkAllSizes()
      requires Valid() && !truncated && selected == []
      modifies this
      ensures Valid() && Offered(old(accepted), CombosFrom(ids, 1), accepted, truncated, levers, budget, limit)
    {
      hide Offered, Prepend, Combos, CombosFrom, Legal, Accepts, VariantsOf, ActivationVariant;
      ghost var before, all, offered := accepted, CombosFrom(ids, 1), [];
      OfferedNothing(before, levers, budget, limit);
      var size := 1;
      while size <= |ids|
        invariant 1 <= size <= |ids| + 1
        invariant Valid() && selected == [] && !truncated
        invariant all == offered + CombosFrom(ids, size)
        invariant Offered(before, offered, accepted, false, levers, budget, limit)
      {
        ghost var middle := accepted;
        var more := Walk(size, 0);
        offered := StepOfSizes(ids, size, all, before, offered, middle, accepted, truncated, levers, budget, limit);
        if !more { return; }
        size := size + 1;
      }
      NoSizeLeft(ids, offered);
    }
  }

  lemma OfferedNothing(before: seq<seq<string>>, levers: Levers, budget: Option<real>, limit: nat)
    requires |before| <= limit
    ensures Offered(before, [], before, false, levers, budget, limit)
  {
    assert before + Legal([], levers, budget) == before;
  }

  lemma NothingLeft(selected: seq<string>, ids: seq<string>, rest: nat, offered: seq<seq<string>>)
    requires rest > 0
    ensures offered + Prepend(selected, Combos(ids[|ids|..], rest)) == offered
  {
    assert ids[|ids|..] == [];
  }

  lemma NoSizeLeft(ids: seq<string>, offered: seq<seq<string>>)
    ensures offered + CombosFrom(ids, |ids| + 1) == offered
  {}

  lemma PrependEmptyList(selected: seq<string>, ids: seq<string>)
    ensures Prepend(selected, Combos(ids, 0)) == [selected]
  {
    assert selected + [] == selected;
  }

  /** The subsets that start with one identifier come first, then those that leave it out. */
  lemma CombosSplit(selected: seq<string>, ids: seq<string>, index: nat, rest: nat)
    requires index < |ids| && rest > 0
    ensures Prepend(selected, Combos(ids[index..], rest)) ==
            Prepend(selected + [ids[index]], Combos(ids[index + 1..], rest - 1)) +
            Prepend(selected, Combos(ids[index + 1..], rest))
  {
    assert ids[index..][1..] == ids[index + 1..];
    var a := Combos(ids[index + 1..], rest - 1);
    forall i | 0 <= i < |a| ensures selected + ([ids[index]] + a[i]) == selected + [ids[index]] + a[i] {}
  }

  /** One iteration of the walk: the subsets that start with `ids[index]`. */
  lemma StepOfWalk(selected: seq<string>, ids: seq<string>, index: nat, rest: nat, all: seq<seq<string>>,
                   before: seq<seq<string>>, offered: seq<seq<string>>, middle: seq<seq<string>>,
                   after: seq<seq<string>>, truncated: bool, levers: Levers, budget: Option<real>, limit: nat)
    returns (now: seq<seq<string>>)
    requires index < |ids| && rest > 0
    requires all == offered + Prepend(selected, Combos(ids[index..], rest))
    requires Offered(before, offered, middle, false, levers, budget, limit)
    requires Offered(middle, Prepend(selected + [ids[index]], Combos(ids[index + 1..], rest - 1)), after, truncated,
                     levers, budget, limit)
    ensures all == now + Prepend(selected, Combos(ids[index + 1..], rest))
    ensures Offered(before, now, after, truncated, levers, budget, limit)
    ensures truncated ==> Offered(before, all, after, true, levers, budget, limit)
  {
    var here := Prepend(selected + [ids[index]], Combos(ids[index + 1..], rest - 1));
    var later := Prepend(selected, Combos(ids[index + 1..], rest));
    CombosSplit(selected, ids, index, rest);
    hide Offered, Combos, Prepend;
    now := offered + here;
    Associative(offered, here, later);
    OfferedInTurn(before, offered, middle, here, after, truncated, levers, budget, limit);
    if truncated { OfferedEnough(before, now, after, later, levers, budget, limit); }
  }

  lemma PrependNothing(lists: seq<seq<string>>)
    ensures Prepend([], lists) == lists
  {
    forall i | 0 <= i < |lists| ensures [] + lists[i] == lists[i] {}
  }

  /** One iteration of the loop over sizes. */
  lemma StepOfSizes(ids: seq<string>, size: nat, all: seq<seq<string>>,
                    before: seq<seq<string>>, offered: seq<seq<string>>, middle: seq<seq<string>>,
                    after: seq<seq<string>>, truncated: bool, levers: Levers, budget: Option<real>, limit: nat)
    returns (now: seq<seq<string>>)
    requires size <= |ids|
    requires all == offered + CombosFrom(ids, size)
    requires Offered(before, offered, middle, false, levers, budget, limit)
    requires Offered(middle, Prepend([], Combos(ids[0..], size - 0)), after, truncated, levers, budget, limit)
    ensures all == now + CombosFrom(ids, size + 1)
    ensures Offered(before, now, after, truncated, levers, budget, limit)
    ensures truncated ==> Offered(before, all, after, true, levers, budget, limit)
  {
    var here, later := Combos(ids, size), CombosFrom(ids, size + 1);
    assert ids[0..] == ids;
    assert CombosFrom(ids, size) == here + later;
    PrependNothing(here);
    hide Offered, Combos, CombosFrom, Prepend;
    now := offered + here;
    Associative(offered, here, later);
    OfferedInTurn(before, offered, middle, here, after, truncated, levers, budget, limit);
    if truncated { OfferedEnough(before, now, after, later, levers, budget, limit); }
  }
}
