/**
  scripts/sync-bsdata.ts:645-786: three-valued condition trees. A tree has a definite answer exactly
  when the answer does not depend on what its unknown leaves turn out to be.
 */
module ConditionTree {
  import opened Wrappers

  // ---- Trees and their completions ----

  datatype Tree = Known(b: bool) | Unknown | Node(any: bool, children: seq<Tree>)

  /** `combineConditionResults`; an operator other than "or" means "and". */
  function Combine(any: bool, results: seq<Option<bool>>): Option<bool> {
    if |results| == 0 then Some(true)
    else if any then
      if Some(true) in results then Some(true) else if None in results then None else Some(false)
    else if Some(false) in results then Some(false) else if None in results then None else Some(true)
  }

  function Eval(t: Tree): Option<bool> {
    match t
    case Known(b) => Some(b)
    case Unknown => None
    case Node(any, children) => Combine(any, seq(|children|, i requires 0 <= i < |children| => Eval(children[i])))
  }

  function EvalAll(children: seq<Tree>): (r: seq<Option<bool>>)
    ensures |r| == |children| && forall i :: 0 <= i < |r| ==> r[i] == Eval(children[i])
  {
    seq(|children|, i requires 0 <= i < |children| => Eval(children[i]))
  }

  lemma EvalNode(t: Tree)
    requires t.Node?
    ensures Eval(t) == Combine(t.any, EvalAll(t.children))
  {
    assert seq(|t.children|, i requires 0 <= i < |t.children| => Eval(t.children[i])) == EvalAll(t.children);
  }

  /** The two-valued answer of a tree without unknown leaves; an empty node holds. */
  predicate Truth(t: Tree) {
    match t
    case Known(b) => b
    case Unknown => false
    case Node(any, children) =>
      children == [] ||
      if any then exists i :: 0 <= i < |children| && Truth(children[i])
      else forall i :: 0 <= i < |children| ==> Truth(children[i])
  }

  /** `c` is `t` with every unknown leaf replaced by an answer of its own. */
  predicate Completes(c: Tree, t: Tree) {
    match t
    case Known(_) => c == t
    case Unknown => c.Known?
    case Node(any, children) =>
      c.Node? && c.any == any && |c.children| == |children| &&
      forall i :: 0 <= i < |children| ==> Completes(c.children[i], children[i])
  }

  /** Every unknown leaf replaced by the same answer. */
  function Fill(t: Tree, b: bool): Tree {
    match t
    case Known(_) => t
    case Unknown => Known(b)
    case Node(any, children) => Node(any, seq(|children|, i requires 0 <= i < |children| => Fill(children[i], b)))
  }

  lemma {:induction false} FillCompletes(t: Tree, b: bool)
    ensures Completes(Fill(t, b), t)
  {
    if t.Node? {
      forall i | 0 <= i < |t.children| ensures Completes(Fill(t, b).children[i], t.children[i]) {
        FillCompletes(t.children[i], b);
      }
    }
  }

  /** A definite answer is every completion's answer. */
  lemma {:induction false} DefiniteHolds(t: Tree, c: Tree)
    requires Eval(t).Some? && Completes(c, t)
    ensures Truth(c) == Eval(t).value
  {
    if t.Node? {
      var results := EvalAll(t.children);
      EvalNode(t);
      forall i | 0 <= i < |t.children| && results[i].Some? ensures Truth(c.children[i]) == results[i].value {
        DefiniteHolds(t.children[i], c.children[i]);
      }
      if Some(t.any) in results {
        var i :| 0 <= i < |results| && results[i] == Some(t.any);
        assert Truth(c.children[i]) == t.any;
      } else {
        forall i | 0 <= i < |results| ensures results[i] == Some(!t.any) { assert results[i] in results; }
      }
    }
  }

  /** An indefinite answer is open: some completion says yes and some says no. */
  lemma {:induction false} IndefiniteOpen(t: Tree, b: bool)
    requires Eval(t).None?
    ensures Truth(Fill(t, b)) == b
  {
    if t.Node? {
      var results := EvalAll(t.children);
      EvalNode(t);
      var filled := Fill(t, b).children;
      assert forall i :: 0 <= i < |results| ==> results[i] in results;
      forall i | 0 <= i < |results| ensures Truth(filled[i]) == (if results[i].Some? then !t.any else b) {
        FillCompletes(t.children[i], b);
        if results[i].Some? { DefiniteHolds(t.children[i], filled[i]); } else { IndefiniteOpen(t.children[i], b); }
      }
      var k :| 0 <= k < |results| && results[k] == None;
      assert Truth(filled[k]) == b;
    }
  }

  /** A tree answers `b` exactly when every completion of its unknown leaves does. */
  lemma DefiniteIff(t: Tree, b: bool)
    ensures Eval(t) == Some(b) <==> forall c :: Completes(c, t) ==> Truth(c) == b
  {
    if Eval(t).Some? {
      forall c | Completes(c, t) ensures Truth(c) == Eval(t).value { DefiniteHolds(t, c); }
      FillCompletes(t, b);
      DefiniteHolds(t, Fill(t, b));
    } else {
      FillCompletes(t, !b);
      IndefiniteOpen(t, !b);
    }
  }

  // ---- Conditions as the catalogue writes them ----

  datatype Condition = Condition(field: Option<string>, scope: Option<string>, childId: Option<string>,
                                 kind: Option<string>, value: Option<real>)

  datatype LocalGroup = LocalGroup(field: Option<string>, scope: Option<string>, kind: Option<string>,
                                   value: Option<real>, conditions: seq<Condition>)

  datatype Group = Group(repeats: bool, operator: Option<string>, conditions: seq<Condition>,
                         conditionGroups: seq<Group>, localConditionGroups: seq<LocalGroup>)

  datatype Context = Context(nodeId: Option<string>, modelCount: real, unitOrdinal: real, primaryCatalogueId: string,
                             selectedCounts: map<string, real>)

  function NumericMatches(kind: Option<string>, actual: real, expected: real): Option<bool> {
    if kind == Some("atLeast") then Some(actual >= expected)
    else if kind == Some("atMost") then Some(actual <= expected)
    else if kind == Some("greaterThan") then Some(actual > expected)
    else if kind == Some("lessThan") then Some(actual < expected)
    else if kind == Some("equalTo") then Some(actual == expected)
    else if kind == Some("notEqualTo") then Some(actual != expected)
    else None
  }

  function Actual(c: Condition, ctx: Context): Option<real>
    requires c.scope.Some? && c.childId.Some?
  {
    if c.scope.value == "primary-catalogue" && c.kind == Some("instanceOf") then
      Some(if c.childId.value == ctx.primaryCatalogueId then 1.0 else 0.0)
    else if c.scope.value == "self" || c.scope == ctx.nodeId then
      Some(if c.childId.value == "model" then ctx.modelCount
           else if c.childId.value in ctx.selectedCounts then ctx.selectedCounts[c.childId.value] else 0.0)
    else None
  }

  /** `pointConditionMatches`. */
  function ConditionMatches(c: Condition, ctx: Context): Option<bool> {
    if c.field != Some("selections") || c.scope.None? || c.childId.None? || c.value.None? then None
    else
      var actual := Actual(c, ctx);
      if actual.None? then None
      else if c.kind == Some("instanceOf") then Some(actual.value >= c.value.value)
      else NumericMatches(c.kind, actual.value, c.value.value)
  }

  predicate SameUnit(c: Condition, ctx: Context) {
    c.field == Some("selections") && c.scope == Some("self") && c.kind == Some("instanceOf") && c.childId == ctx.nodeId
  }

  predicate BeforeCurrent(c: Condition) {
    c.field == Some("selections") && c.scope == Some("self") && c.kind == Some("before") && c.childId == Some("any")
  }

  /** How many of the same unit come earlier, compared. */
  function LocalMatches(l: LocalGroup, ctx: Context): Option<bool> {
    if l.field != Some("selections") || l.scope != Some("parent") || l.value.None?
       || (forall i :: 0 <= i < |l.conditions| ==> !SameUnit(l.conditions[i], ctx))
       || (forall i :: 0 <= i < |l.conditions| ==> !BeforeCurrent(l.conditions[i])) then None
    else NumericMatches(l.kind, ctx.unitOrdinal - 1.0, l.value.value)
  }

  function ConditionResults(conditions: seq<Condition>, ctx: Context): (r: seq<Option<bool>>)
    ensures |r| == |conditions| && forall i :: 0 <= i < |r| ==> r[i] == ConditionMatches(conditions[i], ctx)
  {
    seq(|conditions|, i requires 0 <= i < |conditions| => ConditionMatches(conditions[i], ctx))
  }

  function LocalResults(locals: seq<LocalGroup>, ctx: Context): (r: seq<Option<bool>>)
    ensures |r| == |locals| && forall i :: 0 <= i < |r| ==> r[i] == LocalMatches(locals[i], ctx)
  {
    seq(|locals|, i requires 0 <= i < |locals| => LocalMatches(locals[i], ctx))
  }

  /** `pointConditionGroupMatches`. */
  function GroupMatches(g: Group, ctx: Context): Option<bool> {
    if g.repeats then None
    else
      var groups := g.conditionGroups;
      var nested := seq(|groups|, i requires 0 <= i < |groups| => GroupMatches(groups[i], ctx));
      Combine(g.operator == Some("or"),
              ConditionResults(g.conditions, ctx) + nested + LocalResults(g.localConditionGroups, ctx))
  }

  function GroupResults(groups: seq<Group>, ctx: Context): (r: seq<Option<bool>>)
    ensures |r| == |groups| && forall i :: 0 <= i < |r| ==> r[i] == GroupMatches(groups[i], ctx)
  {
    seq(|groups|, i requires 0 <= i < |groups| => GroupMatches(groups[i], ctx))
  }

  // ---- A group is a tree ----

  function LeafOf(answer: Option<bool>): Tree { if answer.Some? then Known(answer.value) else Unknown }

  function Leaves(answers: seq<Option<bool>>): (r: seq<Tree>)
    ensures |r| == |answers| && forall i :: 0 <= i < |r| ==> r[i] == LeafOf(answers[i])
  {
    seq(|answers|, i requires 0 <= i < |answers| => LeafOf(answers[i]))
  }

  /** The tree of a group: its conditions and local groups are leaves, a repeated group is one unknown leaf. */
  function TreeOf(g: Group, ctx: Context): Tree {
    if g.repeats then Unknown
    else
      var groups := g.conditionGroups;
      var nested := seq(|groups|, i requires 0 <= i < |groups| => TreeOf(groups[i], ctx));
      Node(g.operator == Some("or"),
           Leaves(ConditionResults(g.conditions, ctx)) + nested + Leaves(LocalResults(g.localConditionGroups, ctx)))
  }

  function TreesOf(groups: seq<Group>, ctx: Context): (r: seq<Tree>)
    ensures |r| == |groups| && forall i :: 0 <= i < |r| ==> r[i] == TreeOf(groups[i], ctx)
  {
    seq(|groups|, i requires 0 <= i < |groups| => TreeOf(groups[i], ctx))
  }

  lemma LeafEval(answer: Option<bool>)
    ensures Eval(LeafOf(answer)) == answer
  {}

  /** Answers of a list of leaves, trees and leaves. */
  lemma EvalParts(before: seq<Option<bool>>, groups: seq<Group>, after: seq<Option<bool>>, ctx: Context)
    requires forall i :: 0 <= i < |groups| ==> GroupMatches(groups[i], ctx) == Eval(TreeOf(groups[i], ctx))
    ensures EvalAll(Leaves(before) + TreesOf(groups, ctx) + Leaves(after)) == before + GroupResults(groups, ctx) + after
  {
    hide GroupMatches, TreeOf, Eval, LeafOf;
    var results := before + GroupResults(groups, ctx) + after;
    var evals := EvalAll(Leaves(before) + TreesOf(groups, ctx) + Leaves(after));
    forall i | 0 <= i < |evals| ensures evals[i] == results[i] { LeafEval(results[i]); }
  }

  lemma {:induction false} GroupIsTree(g: Group, ctx: Context)
    ensures GroupMatches(g, ctx) == Eval(TreeOf(g, ctx))
  {
    if !g.repeats {
      var groups := g.conditionGroups;
      forall i | 0 <= i < |groups| ensures GroupMatches(groups[i], ctx) == Eval(TreeOf(groups[i], ctx)) {
        GroupIsTree(groups[i], ctx);
      }
      EvalNode(TreeOf(g, ctx));
      EvalParts(ConditionResults(g.conditions, ctx), groups, LocalResults(g.localConditionGroups, ctx), ctx);
      assert seq(|groups|, i requires 0 <= i < |groups| => GroupMatches(groups[i], ctx)) == GroupResults(groups, ctx);
      assert seq(|groups|, i requires 0 <= i < |groups| => TreeOf(groups[i], ctx)) == TreesOf(groups, ctx);
    }
  }

  /** A condition group answers `b` exactly when it would whatever its unknown conditions turn out to be. */
  lemma GroupDefiniteIff(g: Group, ctx: Context, b: bool)
    ensures GroupMatches(g, ctx) == Some(b) <==> forall c :: Completes(c, TreeOf(g, ctx)) ==> Truth(c) == b
  {
    GroupIsTree(g, ctx);
    DefiniteIff(TreeOf(g, ctx), b);
  }
}
