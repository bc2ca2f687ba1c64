/**
  lib/rosterpilot/combat-corpus-conformance.ts:185-365, 686-836: the inventory of every effect
  fragment and leaf (`buildCombatSourceLeafInventoryV1`) and the rules it must satisfy.
 */
module SourceInventory {
  import opened Wrappers
  import opened Ordering
  import opened JsonPointer
  import opened EffectTree

  type Digest = string

  /** The objects whose `canonicalJson` is hashed. */
  datatype Preimage =
    | ValuePre(value: Json)
    | FragmentPre(sourceId: string, entitySha256: Digest, jsonPointer: string, fragmentSha256: Digest)
    | LeafPre(fragmentId: Digest, ancestorFragmentIds: seq<Digest>)

  type Hash = Preimage -> Digest

  /** No two of the listed objects share a digest. */
  ghost predicate NoCollision(hash: Hash, objects: set<Preimage>) {
    forall x, y :: x in objects && y in objects && hash(x) == hash(y) ==> x == y
  }

  datatype Role = ContainerRole | LeafRole | UntraversableRole

  datatype Source = Source(sourceId: string, entitySha256: Digest, effectJsonPointer: string, effectSha256: Digest)

  datatype Fragment = Fragment(fragmentId: Digest, sourceId: string, jsonPointer: string, fragmentSha256: Digest,
                               effectType: Option<string>, role: Role)

  datatype SourceLeaf = SourceLeaf(leafId: Digest, fragmentId: Digest, sourceId: string,
                                   ancestorFragmentIds: seq<Digest>)

  datatype Issue = Issue(code: IssueCode, sourceId: string, fragmentId: Digest, jsonPointer: string)

  datatype Inventory = Inventory(sources: seq<Source>, fragments: seq<Fragment>, leaves: seq<SourceLeaf>,
                                 issues: seq<Issue>)

  /** What a caller hands in: a source and its effect tree. */
  datatype SourceInput = SourceInput(sourceId: string, entitySha256: Digest, effectJsonPointer: string, effect: Json)

  function RoleOf(c: Classification): Role {
    match c case Leaf => LeafRole case Container(_) => ContainerRole case Untraversable(_) => UntraversableRole
  }

  // ---- The traversal ----

  /** What `visit` closes over. */
  datatype Context = Context(hash: Hash, sourceId: string, entitySha256: Digest)

  function FragmentId(c: Context, jsonPointer: string, sha: Digest): Digest {
    c.hash(FragmentPre(c.sourceId, c.entitySha256, jsonPointer, sha))
  }

  /** The object behind the id of a fragment, and behind that of a leaf. */
  function FragmentObject(c: Context, f: Fragment): Preimage {
    FragmentPre(c.sourceId, c.entitySha256, f.jsonPointer, f.fragmentSha256)
  }

  function LeafObject(l: SourceLeaf): Preimage { LeafPre(l.fragmentId, l.ancestorFragmentIds) }

  function FragmentOf(c: Context, value: Json, pointer: string): Fragment {
    var sha := c.hash(ValuePre(value));
    Fragment(FragmentId(c, pointer, sha), c.sourceId, pointer, sha, EffectType(value), RoleOf(Classify(value)))
  }

  datatype Found = Found(fragments: seq<Fragment>, leaves: seq<SourceLeaf>, issues: seq<Issue>)

  function Both(a: Found, b: Found): Found {
    Found(a.fragments + b.fragments, a.leaves + b.leaves, a.issues + b.issues)
  }

  const NOTHING := Found([], [], [])

  /** What visiting one value finds, in preorder. */
  function Visit(c: Context, value: Json, pointer: string, ancestors: seq<Digest>): Found
    decreases value, 1, 0
  {
    var f := FragmentOf(c, value, pointer);
    var k := Classify(value);
    ClassifyGood(value);
    match k
    case Container(children) => Both(Found([f], [], []),
                                     VisitAll(c, value, children, pointer, ancestors + [f.fragmentId]))
    case Leaf => Found([f], [LeafOf(c, f, ancestors)], [])
    case Untraversable(code) => Found([f], [LeafOf(c, f, ancestors)], [Issue(code, c.sourceId, f.fragmentId, pointer)])
  }

  function LeafOf(c: Context, f: Fragment, ancestors: seq<Digest>): SourceLeaf {
    SourceLeaf(c.hash(LeafPre(f.fragmentId, ancestors)), f.fragmentId, c.sourceId, ancestors)
  }

  function VisitAll(c: Context, ghost parent: Json, children: seq<Child>, pointer: string,
                    ancestors: seq<Digest>): Found
    requires forall k :: k in children ==> k.value < parent
    decreases parent, 0, |children|
  {
    if children == [] then NOTHING
    else
      assert children[0] in children;
      Both(Visit(c, children[0].value, pointer + Render(children[0].segments), ancestors),
           VisitAll(c, parent, children[1..], pointer, ancestors))
  }

  /** The closure `visit` and the three lists it pushes to. */
  class Builder {
    var fragments: seq<Fragment>
    var leaves: seq<SourceLeaf>
    var issues: seq<Issue>

    constructor ()
      ensures fragments == [] && leaves == [] && issues == []
    {
      fragments, leaves, issues := [], [], [];
    }

    ghost function Pushed(): Found
      reads this
    {
      Found(fragments, leaves, issues)
    }

    method VisitNode(c: Context, value: Json, pointer: string, ancestors: seq<Digest>)
      modifies this
      ensures Pushed() == Both(old(Pushed()), Visit(c, value, pointer, ancestors))
      decreases value, 1, 0
    {
      hide Classify, FragmentOf, LeafOf, VisitAll;
      var fragment := FragmentOf(c, value, pointer);
      var classification := Classify(value);
      ClassifyGood(value);
      fragments := fragments + [fragment];
      if classification.Container? {
        BothAssociative(old(Pushed()), Found([fragment], [], []),
                        VisitAll(c, value, classification.children, pointer, ancestors + [fragment.fragmentId]));
        VisitChildren(c, value, classification.children, pointer, ancestors + [fragment.fragmentId]);
        return;
      }
      leaves := leaves + [LeafOf(c, fragment, ancestors)];
      if classification.Untraversable? {
        issues := issues + [Issue(classification.code, c.sourceId, fragment.fragmentId, pointer)];
      }
    }

    method VisitChildren(c: Context, ghost parent: Json, children: seq<Child>, pointer: string, ancestors: seq<Digest>)
      requires forall k :: k in children ==> k.value < parent
      modifies this
      ensures Pushed() == Both(old(Pushed()), VisitAll(c, parent, children, pointer, ancestors))
      decreases parent, 0, |children|
    {
      hide Both, Visit, VisitAll, Render;
      ghost var before := Pushed();
      VisitNone(c, parent, children, pointer, ancestors, before);
      for n := 0 to |children|
        invariant Pushed() == Both(before, VisitAll(c, parent, children[..n], pointer, ancestors))
      {
        VisitAllAppend(c, parent, children, n, pointer, ancestors);
        assert children[n] in children;
        BothAssociative(before, VisitAll(c, parent, children[..n], pointer, ancestors),
                        Visit(c, children[n].value, pointer + Render(children[n].segments), ancestors));
        VisitNode(c, children[n].value, pointer + Render(children[n].segments), ancestors);
      }
      assert children[..|children|] == children;
    }
  }

  lemma VisitNone(c: Context, parent: Json, children: seq<Child>, pointer: string, ancestors: seq<Digest>,
                  before: Found)
    requires forall k :: k in children ==> k.value < parent
    ensures Both(before, VisitAll(c, parent, children[..0], pointer, ancestors)) == before
  {
    BothNothing(before);
  }

  lemma VisitAllOne(c: Context, parent: Json, child: Child, pointer: string, ancestors: seq<Digest>)
    requires child.value < parent
    ensures VisitAll(c, parent, [child], pointer, ancestors) ==
            Visit(c, child.value, pointer + Render(child.segments), ancestors)
  {
    hide Classify, FragmentOf, Render, Visit;
    BothNothing(Visit(c, child.value, pointer + Render(child.segments), ancestors));
  }

  lemma {:induction false} VisitAllConcat(c: Context, parent: Json, a: seq<Child>, b: seq<Child>, pointer: string,
                                          ancestors: seq<Digest>)
    requires forall k :: k in a + b ==> k.value < parent
    ensures (forall k :: k in a ==> k.value < parent) && (forall k :: k in b ==> k.value < parent)
    ensures VisitAll(c, parent, a + b, pointer, ancestors) ==
            Both(VisitAll(c, parent, a, pointer, ancestors), VisitAll(c, parent, b, pointer, ancestors))
    decreases |a|
  {
    hide Classify, FragmentOf, Render, Visit, Both;
    assert forall k :: k in a ==> k in a + b;
    assert forall k :: k in b ==> k in a + b;
    if a == [] {
      assert a + b == b;
      BothNothing(VisitAll(c, parent, b, pointer, ancestors));
    } else {
      assert (a + b)[1..] == a[1..] + b;
      VisitAllConcat(c, parent, a[1..], b, pointer, ancestors);
      BothAssociative(Visit(c, a[0].value, pointer + Render(a[0].segments), ancestors),
                      VisitAll(c, parent, a[1..], pointer, ancestors), VisitAll(c, parent, b, pointer, ancestors));
    }
  }

  lemma BothAssociative(x: Found, y: Found, z: Found)
    ensures Both(x, Both(y, z)) == Both(Both(x, y), z)
  {
    assert x.fragments + (y.fragments + z.fragments) == x.fragments + y.fragments + z.fragments;
    assert x.leaves + (y.leaves + z.leaves) == x.leaves + y.leaves + z.leaves;
    assert x.issues + (y.issues + z.issues) == x.issues + y.issues + z.issues;
  }

  lemma BothNothing(x: Found)
    ensures Both(NOTHING, x) == x && Both(x, NOTHING) == x
  {}

  lemma VisitAllAppend(c: Context, parent: Json, children: seq<Child>, n: nat, pointer: string, ancestors: seq<Digest>)
    requires n < |children| && forall k :: k in children ==> k.value < parent
    ensures VisitAll(c, parent, children[..n + 1], pointer, ancestors) ==
            Both(VisitAll(c, parent, children[..n], pointer, ancestors),
                 Visit(c, children[n].value, pointer + Render(children[n].segments), ancestors))
  {
    hide Classify, FragmentOf, Render, Visit;
    assert children[..n + 1] == children[..n] + [children[n]];
    VisitAllConcat(c, parent, children[..n], [children[n]], pointer, ancestors);
    VisitAllOne(c, parent, children[n], pointer, ancestors);
  }
}
