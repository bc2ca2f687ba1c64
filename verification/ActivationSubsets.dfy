/**
  What the walk of `enumerateActivationEnvelope` lists (lib/rosterpilot/combat-bridge.ts:910-940):
  every legal subset, by size and then by position, without repeats, closed under taking subsets.
 */
module ActivationSubsets {
  import opened Wrappers
  import opened Ordering
  import opened CombatTypes
  import opened ActivationEnvelope
  import opened ActivationWalk

  /** A set of activations, written in the order of `ids`. */
  ghost predicate SubsetOf(c: seq<string>, ids: seq<string>) {
    Ascending(c) && forall x :: x in c ==> x in ids
  }

  /** Of two lists of one length, the one with the earlier activation at the first difference. */
  ghost predicate LexBefore(c: seq<string>, d: seq<string>)
    requires |c| == |d|
  {
    c != [] && (StringLess(c[0], d[0]) || (c[0] == d[0] && LexBefore(c[1..], d[1..])))
  }

  /** Smaller sets first, then by position. */
  ghost predicate Before(c: seq<string>, d: seq<string>) {
    |c| < |d| || (|c| == |d| && LexBefore(c, d))
  }

  ghost predicate InOrder(lists: seq<seq<string>>) {
    forall i, j :: 0 <= i < j < |lists| ==> Before(lists[i], lists[j])
  }

  lemma {:induction false} BeforeIrreflexive(c: seq<string>)
    ensures !Before(c, c)
  {
    if c != [] {
      StringLessIrreflexive(c[0]);
      BeforeIrreflexive(c[1..]);
    }
  }

  lemma {:induction false} BeforeTotal(c: seq<string>, d: seq<string>)
    ensures Before(c, d) || c == d || Before(d, c)
  {
    if |c| == |d| && c != [] {
      StringLessTotal(c[0], d[0]);
      BeforeTotal(c[1..], d[1..]);
      assert c == [c[0]] + c[1..] && d == [d[0]] + d[1..];
    }
  }

  lemma {:induction false} BeforeTransitive(c: seq<string>, d: seq<string>, e: seq<string>)
    requires Before(c, d) && Before(d, e)
    ensures Before(c, e)
  {
    if |c| == |d| == |e| {
      if StringLess(c[0], d[0]) && StringLess(d[0], e[0]) {
        StringLessTransitive(c[0], d[0], e[0]);
      } else if c[0] == d[0] == e[0] {
        BeforeTransitive(c[1..], d[1..], e[1..]);
      }
    }
  }

  /** The order of the list is a strict total order on activation sets. */
  lemma BeforeIsStrictTotal()
    ensures forall c :: !Before(c, c)
    ensures forall c, d :: c != d ==> Before(c, d) || Before(d, c)
    ensures forall c, d, e :: Before(c, d) && Before(d, e) ==> Before(c, e)
  {
    hide Before;
    forall c ensures !Before(c, c) { BeforeIrreflexive(c); }
    forall c, d | c != d ensures Before(c, d) || Before(d, c) { BeforeTotal(c, d); }
    forall c, d, e | Before(c, d) && Before(d, e) ensures Before(c, e) { BeforeTransitive(c, d, e); }
  }

  // ---- Combos lists exactly the subsets of one size, in order ----

  lemma PrependMember(x: string, lists: seq<seq<string>>, c: seq<string>)
    ensures c in Prepend([x], lists) <==> c != [] && c[0] == x && c[1..] in lists
  {
    var r := Prepend([x], lists);
    if c in r {
      var i :| 0 <= i < |r| && r[i] == c;
      assert c == [x] + lists[i];
      assert c[1..] == lists[i];
    }
    if c != [] && c[0] == x && c[1..] in lists {
      var i :| 0 <= i < |lists| && lists[i] == c[1..];
      assert r[i] == c;
    }
  }

  lemma SubsetExtends(x: string, c: seq<string>, ids: seq<string>)
    requires Ascending([x] + ids) && SubsetOf(c, ids)
    ensures SubsetOf([x] + c, [x] + ids)
  {
    forall k | 0 <= k < |c| ensures StringLess(x, c[k]) {
      assert c[k] in ids;
      var i :| 0 <= i < |ids| && ids[i] == c[k];
      assert ([x] + ids)[0] == x && ([x] + ids)[i + 1] == c[k];
    }
  }

  lemma {:induction false} CombosMembers(ids: seq<string>, size: nat, c: seq<string>)
    requires Ascending(ids)
    ensures c in Combos(ids, size) <==> |c| == size && SubsetOf(c, ids)
  {
    if size == 0 || ids == [] {
      assert c != [] ==> c[0] in c;
    } else {
      hide SubsetOf, Prepend, Ascending;
      var rest := ids[1..];
      TailAscending(ids);
      PrependMember(ids[0], Combos(rest, size - 1), c);
      SubsetCases(c, ids);
      CombosMembers(rest, size, c);
      if c != [] { CombosMembers(rest, size - 1, c[1..]); }
      assert Combos(ids, size) == Prepend([ids[0]], Combos(rest, size - 1)) + Combos(rest, size);
    }
  }

  lemma TailAscending(ids: seq<string>)
    requires Ascending(ids) && ids != []
    ensures Ascending(ids[1..])
  {}

  /** A subset leaves the first activation out, or starts with it. */
  lemma SubsetCases(c: seq<string>, ids: seq<string>)
    requires Ascending(ids) && ids != []
    ensures SubsetOf(c, ids) <==> SubsetOf(c, ids[1..]) || (c != [] && c[0] == ids[0] && SubsetOf(c[1..], ids[1..]))
  {
    assert ids == [ids[0]] + ids[1..];
    if c != [] {
      assert c == [c[0]] + c[1..];
      if SubsetOf(c, ids) { SubsetSplits(c, ids); }
      if c[0] == ids[0] && SubsetOf(c[1..], ids[1..]) { SubsetExtends(ids[0], c[1..], ids[1..]); }
    }
  }

  /** A subset either starts with the first activation or does not use it. */
  lemma SubsetSplits(c: seq<string>, ids: seq<string>)
    requires Ascending(ids) && ids != [] && c != [] && SubsetOf(c, ids)
    ensures c[0] == ids[0] ==> SubsetOf(c[1..], ids[1..])
    ensures c[0] != ids[0] ==> SubsetOf(c, ids[1..])
  {
    assert ids == [ids[0]] + ids[1..];
    forall x | x in c[1..] ensures x in ids[1..] || c[0] != ids[0] {
      assert x in c;
      if x == c[0] { StringLessIrreflexive(x); }
    }
    forall x | x in c && c[0] != ids[0] ensures x in ids[1..] {
      if x == ids[0] {
        assert c[0] in ids;
        assert StringLess(ids[0], c[0]) && StringLess(c[0], x);
        StringLessTransitive(x, c[0], x);
        StringLessIrreflexive(x);
      }
    }
  }

  lemma BeforePrepend(x: string, c: seq<string>, d: seq<string>)
    requires Before(c, d)
    ensures Before([x] + c, [x] + d)
  {
    assert ([x] + c)[1..] == c && ([x] + d)[1..] == d;
  }

  lemma PrependInOrder(x: string, lists: seq<seq<string>>)
    requires InOrder(lists)
    ensures InOrder(Prepend([x], lists))
  {
    forall i, j | 0 <= i < j < |lists| ensures Before([x] + lists[i], [x] + lists[j]) {
      BeforePrepend(x, lists[i], lists[j]);
    }
  }

  lemma OrderedConcat(a: seq<seq<string>>, b: seq<seq<string>>)
    requires InOrder(a) && InOrder(b)
    requires forall c, d :: c in a && d in b ==> Before(c, d)
    ensures InOrder(a + b)
  {
    forall i, j | 0 <= i < j < |a + b| ensures Before((a + b)[i], (a + b)[j]) {
      if i < |a| <= j { assert a[i] in a && b[j - |a|] in b; }
    }
  }

  lemma {:induction false} CombosInOrder(ids: seq<string>, size: nat)
    requires Ascending(ids)
    ensures InOrder(Combos(ids, size))
  {
    if size > 0 && ids != [] {
      var x, rest := ids[0], ids[1..];
      var a, b := Combos(rest, size - 1), Combos(rest, size);
      CombosInOrder(rest, size - 1);
      CombosInOrder(rest, size);
      PrependInOrder(x, a);
      forall c, d | c in Prepend([x], a) && d in b ensures Before(c, d) { WithBeforeWithout(ids, size, c, d); }
      hide Before, InOrder, Prepend;
      OrderedConcat(Prepend([x], a), b);
    }
  }

  /** A subset with the first activation comes before one of that size without it. */
  lemma WithBeforeWithout(ids: seq<string>, size: nat, c: seq<string>, d: seq<string>)
    requires Ascending(ids) && ids != [] && size > 0
    requires c in Prepend([ids[0]], Combos(ids[1..], size - 1)) && d in Combos(ids[1..], size)
    ensures Before(c, d)
  {
    PrependMember(ids[0], Combos(ids[1..], size - 1), c);
    CombosMembers(ids[1..], size - 1, c[1..]);
    CombosMembers(ids[1..], size, d);
    hide Prepend, Combos;
    assert |c| == size && c[0] == ids[0] && d[0] in d;
    var i :| 0 <= i < |ids[1..]| && ids[1..][i] == d[0];
    hide SubsetOf;
    assert StringLess(ids[0], ids[i + 1]);
  }

  lemma {:induction false} SubsetSize(c: seq<string>, ids: seq<string>)
    requires Ascending(ids) && SubsetOf(c, ids)
    ensures |c| <= |ids|
  {
    if c != [] {
      assert c[0] in ids;
      SubsetSplits(c, ids);
      SubsetSize(if c[0] == ids[0] then c[1..] else c, ids[1..]);
    }
  }

  lemma {:induction false} CombosFromMembers(ids: seq<string>, size: nat, c: seq<string>)
    requires Ascending(ids)
    ensures c in CombosFrom(ids, size) <==> |c| >= size && SubsetOf(c, ids)
    decreases |ids| + 1 - size
  {
    hide Combos, StringLess, Ascending;
    if SubsetOf(c, ids) { SubsetSize(c, ids); }
    if size <= |ids| {
      CombosMembers(ids, size, c);
      CombosFromMembers(ids, size + 1, c);
    }
  }

  lemma {:induction false} CombosFromInOrder(ids: seq<string>, size: nat)
    requires Ascending(ids)
    ensures InOrder(CombosFrom(ids, size))
    decreases |ids| + 1 - size
  {
    if size <= |ids| {
      var a, b := Combos(ids, size), CombosFrom(ids, size + 1);
      CombosInOrder(ids, size);
      CombosFromInOrder(ids, size + 1);
      forall c, d | c in a && d in b ensures Before(c, d) {
        CombosMembers(ids, size, c);
        CombosFromMembers(ids, size + 1, d);
      }
      hide Before, InOrder, Combos;
      OrderedConcat(a, b);
    }
  }

  // ---- Keeping the legal ones ----

  lemma {:induction false} LegalMembers(lists: seq<seq<string>>, levers: Levers, budget: Option<real>, c: seq<string>)
    ensures c in Legal(lists, levers, budget) <==> c in lists && Accepts(c, levers, budget)
  {
    if lists != [] {
      LegalMembers(lists[1..], levers, budget, c);
      assert lists == [lists[0]] + lists[1..];
    }
  }

  lemma {:induction false} LegalInOrder(lists: seq<seq<string>>, levers: Levers, budget: Option<real>)
    requires InOrder(lists)
    ensures InOrder(Legal(lists, levers, budget))
  {
    if lists != [] {
      var rest := Legal(lists[1..], levers, budget);
      LegalInOrder(lists[1..], levers, budget);
      forall j | 0 <= j < |rest| ensures Before(lists[0], rest[j]) {
        LegalMembers(lists[1..], levers, budget, rest[j]);
        assert rest[j] in lists[1..];
      }
    }
  }

  /** Every legal subset of `ids`, the empty one first. */
  function AllLegal(ids: seq<string>, levers: Levers, budget: Option<real>): seq<seq<string>> {
    Legal(CombosFrom(ids, 0), levers, budget)
  }

  ghost predicate ValidLevers(ids: seq<string>, levers: Levers) {
    Ascending(ids) && ConsistentGroups(levers) && NonNegativeCosts(levers)
  }

  /** `AllLegal` is the enumeration of the feasible subsets: exactly those, in order, each once. */
  lemma AllLegalExact(ids: seq<string>, levers: Levers, budget: Option<real>)
    requires ValidLevers(ids, levers)
    ensures InOrder(AllLegal(ids, levers, budget))
    ensures forall c :: c in AllLegal(ids, levers, budget) <==> SubsetOf(c, ids) && Feasible(c, levers, budget)
  {
    CombosFromInOrder(ids, 0);
    LegalInOrder(CombosFrom(ids, 0), levers, budget);
    forall c ensures c in AllLegal(ids, levers, budget) <==> SubsetOf(c, ids) && Feasible(c, levers, budget) {
      LegalMembers(CombosFrom(ids, 0), levers, budget, c);
      CombosFromMembers(ids, 0, c);
      AcceptsIffFeasible(c, levers, budget);
    }
  }

  /** With a budget that is not negative the baseline is the first legal subset. */
  lemma BaselineFirst(ids: seq<string>, levers: Levers, budget: Option<real>)
    requires budget.Some? ==> budget.value >= 0.0
    ensures AllLegal(ids, levers, budget) == [[]] + Legal(CombosFrom(ids, 1), levers, budget)
  {
    LegalConcat(Combos(ids, 0), CombosFrom(ids, 1), levers, budget);
    assert Legal([[]], levers, budget) == [[]];
  }

  /** A negative budget rejects every set, the empty one included. */
  lemma NegativeBudgetRejectsAll(ids: seq<string>, levers: Levers, budget: real)
    requires ValidLevers(ids, levers) && budget < 0.0
    ensures AllLegal(ids, levers, Some(budget)) == []
  {
    var all := AllLegal(ids, levers, Some(budget));
    AllLegalExact(ids, levers, Some(budget));
    if all != [] {
      assert all[0] in all;
      SubsequenceShrinks([], all[0], levers, "");
      assert false;
    }
  }

  /**
    A prefix of the enumeration, however short, is closed under taking subsets: dropping
    activations from a listed set gives a listed set.
   */
  lemma PrefixClosed(ids: seq<string>, levers: Levers, budget: Option<real>, n: nat, i: nat, c: seq<string>)
    requires ValidLevers(ids, levers)
    requires n <= |AllLegal(ids, levers, budget)| && i < n
    requires Ascending(c) && forall x :: x in c ==> x in AllLegal(ids, levers, budget)[i]
    ensures c in AllLegal(ids, levers, budget)[..n]
  {
    var all := AllLegal(ids, levers, budget);
    AllLegalExact(ids, levers, budget);
    var d := all[i];
    assert d in all;
    AscendingSubset(c, d);
    SubsequenceShrinks(c, d, levers, "");
    FeasibleDownward(c, d, levers, budget);
    assert c in all;
    var k :| 0 <= k < |all| && all[k] == c;
    if k > i {
      assert Before(d, c);
      if |c| == |d| { BeforeIrreflexive(d); }
    }
    assert all[..n][k] == c;
  }

  /** What the limit cuts off comes after everything it keeps. */
  lemma PrefixIsFirst(ids: seq<string>, levers: Levers, budget: Option<real>, n: nat, c: seq<string>)
    requires ValidLevers(ids, levers) && n <= |AllLegal(ids, levers, budget)|
    requires SubsetOf(c, ids) && Feasible(c, levers, budget) && c !in AllLegal(ids, levers, budget)[..n]
    ensures forall i :: 0 <= i < n ==> Before(AllLegal(ids, levers, budget)[i], c)
  {
    AllLegalExact(ids, levers, budget);
    var all := AllLegal(ids, levers, budget);
    var k :| 0 <= k < |all| && all[k] == c;
    assert forall m :: 0 <= m < n ==> all[m] in all[..n];
  }
}
