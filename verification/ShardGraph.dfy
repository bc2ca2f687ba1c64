/**
  lib/rosterpilot/data-bundle.ts:361-384: the recursive visit over shard dependencies, which accepts a
  graph exactly when no shard depends on itself through others.
 */
module ShardGraph {
  import opened Sequences
  import opened Wrappers

  datatype ShardKind = GlobalShard | FactionShard

  datatype Shard = Shard(shardId: string, kind: ShardKind, factionIds: seq<string>, dependencyShardIds: seq<string>,
                         contentSha256: string, semanticHash: string)

  /** The map of descriptors by shard id. */
  type Graph = map<string, Shard>

  predicate Edge(g: Graph, x: string, y: string) { x in g && y in g && y in g[x].dependencyShardIds }

  ghost predicate IsPath(g: Graph, p: seq<string>) {
    p != [] && forall i, j :: 0 <= i && j == i + 1 && j < |p| ==> Edge(g, p[i], p[j])
  }

  ghost predicate Cycle(g: Graph, p: seq<string>) { IsPath(g, p) && |p| >= 2 && p[0] == p[|p| - 1] }

  ghost predicate HasCycle(g: Graph) { exists p :: Cycle(g, p) }

  /** Every dependency of a listed shard is listed before it. */
  ghost predicate DependenciesFirst(g: Graph, order: seq<string>) {
    forall i, y :: 0 <= i < |order| && Edge(g, order[i], y) ==> y in order[..i]
  }

  // ---- The visit ----

  /** The sets `visiting` and `visited`, and the order shards finish in. */
  class Visitor {
    const g: Graph
    var visiting: set<string>
    var visited: set<string>
    ghost var order: seq<string>

    constructor (g: Graph)
      ensures this.g == g && visiting == {} && visited == {} && order == []
      ensures Valid([])
    {
      this.g := g;
      visiting, visited := {}, {};
      order := [];
    }

    /** `stack` lists the shards being visited, each depending on the next. */
    ghost predicate Valid(stack: seq<string>)
      reads this
    {
      && visiting <= g.Keys && visited <= g.Keys && visiting !! visited
      && (forall x :: x in visiting <==> x in stack)
      && (forall x :: x in visited <==> x in order)
      && (stack != [] ==> IsPath(g, stack))
      && NoRepeats(order) && DependenciesFirst(g, order)
    }

    method Visit(shardId: string, ghost stack: seq<string>) returns (ok: bool)
      requires Valid(stack) && shardId in g && (stack != [] ==> Edge(g, stack[|stack| - 1], shardId))
      modifies this
      ensures ok ==> Valid(stack) && visiting == old(visiting) && shardId in visited && old(visited) <= visited
      ensures !ok ==> HasCycle(g)
      decreases g.Keys - visiting
    {
      if shardId in visiting {
        StackCloses(g, stack, shardId);
        return false;
      }
      if shardId in visited { return true; }
      visiting := visiting + {shardId};
      ghost var deeper := stack + [shardId];
      assert Valid(deeper);
      var dependencies := g[shardId].dependencyShardIds;
      for i := 0 to |dependencies|
        invariant Valid(deeper) && visiting == old(visiting) + {shardId} && old(visited) <= visited
        invariant forall j :: 0 <= j < i && dependencies[j] in g ==> dependencies[j] in visited
      {
        if dependencies[i] in g {
          ok := Visit(dependencies[i], deeper);
          if !ok { return false; }
        }
      }
      assert shardId !in order;
      assert forall y :: Edge(g, shardId, y) ==> y in order;
      Finish(g, order, shardId);
      visiting := visiting - {shardId};
      visited := visited + {shardId};
      order := order + [shardId];
      ok := true;
    }
  }

  lemma StackCloses(g: Graph, stack: seq<string>, x: string)
    requires IsPath(g, stack) && x in stack && Edge(g, stack[|stack| - 1], x)
    ensures HasCycle(g)
  {
    var k :| 0 <= k < |stack| && stack[k] == x;
    var p := stack[k..] + [x];
    forall i, j | 0 <= i && j == i + 1 && j < |p| ensures Edge(g, p[i], p[j]) {
      if j < |p| - 1 { assert p[i] == stack[k + i] && p[j] == stack[k + j]; }
    }
    assert Cycle(g, p);
  }

  lemma Finish(g: Graph, order: seq<string>, x: string)
    requires DependenciesFirst(g, order) && NoRepeats(order) && x !in order && forall y :: Edge(g, x, y) ==> y in order
    ensures DependenciesFirst(g, order + [x]) && NoRepeats(order + [x])
  {
    var after := order + [x];
    forall i, y | 0 <= i < |after| && Edge(g, after[i], y) ensures y in after[..i] {
      if i < |order| { assert after[..i] == order[..i]; } else { assert after[..i] == order; }
    }
  }

  // ---- An order is a proof that nothing cycles ----

  function Position(order: seq<string>, x: string): (i: nat)
    requires x in order
    ensures i < |order| && order[i] == x
  {
    if order[0] == x then 0 else 1 + Position(order[1..], x)
  }

  lemma {:induction false} PathDescends(g: Graph, order: seq<string>, p: seq<string>)
    requires DependenciesFirst(g, order) && NoRepeats(order) && IsPath(g, p) && forall x :: x in g ==> x in order
    requires |p| >= 2
    ensures p[0] in order && p[|p| - 1] in order && Position(order, p[|p| - 1]) < Position(order, p[0])
    decreases |p|
  {
    var q := p[..|p| - 1];
    assert Edge(g, p[|p| - 2], p[|p| - 1]);
    EdgeDescends(g, order, p[|p| - 2], p[|p| - 1]);
    if |p| > 2 {
      assert IsPath(g, q) by {
        forall i, j | 0 <= i && j == i + 1 && j < |q| ensures Edge(g, q[i], q[j]) {
          assert q[i] == p[i] && q[j] == p[j];
        }
      }
      PathDescends(g, order, q);
    }
  }

  lemma EdgeDescends(g: Graph, order: seq<string>, x: string, y: string)
    requires DependenciesFirst(g, order) && NoRepeats(order) && Edge(g, x, y) && x in order
    ensures y in order && Position(order, y) < Position(order, x)
  {
    var i := Position(order, x);
    assert y in order[..i];
    var j :| 0 <= j < i && order[j] == y;
    var k := Position(order, y);
    assert order[k] == order[j] && k == j;
  }

  lemma OrderMeansAcyclic(g: Graph, order: seq<string>)
    requires DependenciesFirst(g, order) && NoRepeats(order) && forall x :: x in g ==> x in order
    ensures !HasCycle(g)
  {
    forall p ensures !Cycle(g, p) {
      if IsPath(g, p) && |p| >= 2 { PathDescends(g, order, p); }
    }
  }

  /** The loop over every shard: false exactly when the dependencies cycle; else an order to load them in. */
  method VisitAll(g: Graph, ids: seq<string>) returns (acyclic: bool, ghost order: seq<string>)
    requires forall x :: x in ids <==> x in g
    ensures acyclic <==> !HasCycle(g)
    ensures acyclic ==> (forall x :: x in order <==> x in g) && NoRepeats(order) && DependenciesFirst(g, order)
  {
    var visitor := new Visitor(g);
    order := [];
    for i := 0 to |ids|
      invariant visitor.g == g && visitor.Valid([]) && visitor.visiting == {}
      invariant forall j :: 0 <= j < i ==> ids[j] in visitor.visited
    {
      assert ids[i] in ids;
      var ok := visitor.Visit(ids[i], []);
      if !ok { return false, []; }
    }
    order := visitor.order;
    OrderMeansAcyclic(g, order);
    acyclic := true;
  }
}
