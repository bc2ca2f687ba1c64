/**
  scripts/sync-bsdata.ts:645-745: what a single condition and a local group answer, in terms of the counts they
  speak of.
 */
module ConditionLeaves {
  import opened Wrappers
  import opened ConditionTree

  // ---- Comparisons ----

  const KINDS: set<string> := {"atLeast", "atMost", "greaterThan", "lessThan", "equalTo", "notEqualTo"}

  ghost predicate Says(kind: string, actual: real, expected: real) {
    NumericMatches(Some(kind), actual, expected) == Some(true)
  }

  /** Exactly the six kinds are decided. */
  lemma KindDefiniteIff(kind: Option<string>, actual: real, expected: real)
    ensures NumericMatches(kind, actual, expected).Some? <==> kind.Some? && kind.value in KINDS
    ensures kind.Some? && kind.value in KINDS ==>
              NumericMatches(kind, actual, expected) == Some(Says(kind.value, actual, expected))
  {}

  /** What "at least" means, and the other five in terms of it. */
  lemma ComparisonLaws(actual: real, expected: real)
    ensures actual == expected ==> Says("atLeast", actual, expected)
    ensures actual < expected ==> !Says("atLeast", actual, expected)
    ensures forall more :: more >= actual && Says("atLeast", actual, expected) ==> Says("atLeast", more, expected)
    ensures Says("lessThan", actual, expected) <==> !Says("atLeast", actual, expected)
    ensures Says("atMost", actual, expected) <==> Says("atLeast", expected, actual)
    ensures Says("greaterThan", actual, expected) <==> !Says("atMost", actual, expected)
    ensures Says("equalTo", actual, expected) <==>
              Says("atLeast", actual, expected) && Says("atMost", actual, expected)
    ensures Says("notEqualTo", actual, expected) <==> !Says("equalTo", actual, expected)
  {}

  // ---- The count a condition speaks of ----

  ghost predicate AsksPrimary(c: Condition) { c.scope == Some("primary-catalogue") && c.kind == Some("instanceOf") }

  /** A condition about the selected entry itself. */
  ghost predicate AsksSelf(c: Condition, ctx: Context) {
    !AsksPrimary(c) && (c.scope == Some("self") || c.scope == ctx.nodeId)
  }

  /** Enough is written to decide the condition at all. */
  ghost predicate Readable(c: Condition) {
    c.field == Some("selections") && c.scope.Some? && c.childId.Some? && c.value.Some?
  }

  /** How often an id is among what was selected. */
  ghost predicate SelectedTimes(ctx: Context, id: string, n: real) {
    if id in ctx.selectedCounts then n == ctx.selectedCounts[id] else n == 0.0
  }

  ghost predicate Counts(c: Condition, ctx: Context, n: real)
    requires Readable(c)
  {
    || (AsksPrimary(c) && c.childId.value == ctx.primaryCatalogueId && n == 1.0)
    || (AsksPrimary(c) && c.childId.value != ctx.primaryCatalogueId && n == 0.0)
    || (AsksSelf(c, ctx) && c.childId.value == "model" && n == ctx.modelCount)
    || (AsksSelf(c, ctx) && c.childId.value != "model" && SelectedTimes(ctx, c.childId.value, n))
  }

  /** An instance is there at least as often as is asked. */
  ghost predicate Holds(c: Condition, n: real)
    requires Readable(c)
  {
    c.kind.Some? && Says(if c.kind == Some("instanceOf") then "atLeast" else c.kind.value, n, c.value.value)
  }

  /** A condition answers exactly when it is readable, of a known kind and about a known count; then by that count. */
  lemma ConditionIff(c: Condition, ctx: Context, b: bool)
    ensures ConditionMatches(c, ctx) == Some(b) <==>
            && Readable(c) && c.kind.Some? && (c.kind.value in KINDS || c.kind.value == "instanceOf")
            && exists n :: Counts(c, ctx, n) && b == Holds(c, n)
  {
    if Readable(c) {
      var actual := Actual(c, ctx);
      forall n: real ensures Counts(c, ctx, n) <==> actual == Some(n) {}
      hide Counts, Actual, KINDS, NumericMatches;
      if actual.Some? {
        KindDefiniteIff(c.kind, actual.value, c.value.value);
        KindDefiniteIff(Some("atLeast"), actual.value, c.value.value);
        AtLeastIs(actual.value, c.value.value);
        assert Counts(c, ctx, actual.value);
      }
    }
  }

  lemma AtLeastIs(actual: real, expected: real)
    ensures Says("atLeast", actual, expected) <==> actual >= expected
    ensures "atLeast" in KINDS && "instanceOf" !in KINDS
  {}

  // ---- Local groups ----

  /** Among its conditions a local group must say that it is about the same unit, and about earlier ones. */
  ghost predicate AboutEarlier(l: LocalGroup, ctx: Context) {
    && l.field == Some("selections") && l.scope == Some("parent") && l.value.Some?
    && (exists c :: c in l.conditions && c.field == Some("selections") && c.scope == Some("self") &&
          c.kind == Some("instanceOf") && c.childId == ctx.nodeId)
    && (exists c :: c in l.conditions && c.field == Some("selections") && c.scope == Some("self") &&
          c.kind == Some("before") && c.childId == Some("any"))
  }

  /** A local group of a known kind compares how many of the same unit come earlier; any other is undecided. */
  lemma LocalIff(l: LocalGroup, ctx: Context, b: bool)
    ensures LocalMatches(l, ctx) == Some(b) <==>
            && AboutEarlier(l, ctx) && l.kind.Some? && l.kind.value in KINDS
            && b == Says(l.kind.value, ctx.unitOrdinal - 1.0, l.value.value)
  {
    EarlierIff(l, ctx);
    if l.value.Some? { KindDefiniteIff(l.kind, ctx.unitOrdinal - 1.0, l.value.value); }
    hide AboutEarlier, KINDS, NumericMatches;
  }

  lemma EarlierIff(l: LocalGroup, ctx: Context)
    ensures AboutEarlier(l, ctx) <==>
            !(l.field != Some("selections") || l.scope != Some("parent") || l.value.None?
              || (forall i :: 0 <= i < |l.conditions| ==> !SameUnit(l.conditions[i], ctx))
              || (forall i :: 0 <= i < |l.conditions| ==> !BeforeCurrent(l.conditions[i])))
  {
    if c :| c in l.conditions && SameUnit(c, ctx) {
      var i :| 0 <= i < |l.conditions| && l.conditions[i] == c;
      assert SameUnit(l.conditions[i], ctx);
    }
    if c :| c in l.conditions && BeforeCurrent(c) {
      var i :| 0 <= i < |l.conditions| && l.conditions[i] == c;
      assert BeforeCurrent(l.conditions[i]);
    }
    if AboutEarlier(l, ctx) {
      assert exists c :: c in l.conditions && SameUnit(c, ctx);
      assert exists c :: c in l.conditions && BeforeCurrent(c);
    }
  }
}
