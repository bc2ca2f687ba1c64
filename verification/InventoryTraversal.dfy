/**
  What the traversal of one effect tree produces (lib/rosterpilot/combat-corpus-conformance.ts:725-805):
  each pointer once, one leaf per terminal fragment, one issue per untraversable one, and every
  container on the path of some leaf.
 */
module InventoryTraversal {
  import opened Sequences
  import opened Wrappers
  import opened Ordering
  import opened JsonPointer
  import opened EffectTree
  import opened SourceInventory

  function PointerKey(): Fragment -> string { (f: Fragment) => f.jsonPointer }

  function FragmentKey(): Fragment -> string { (f: Fragment) => f.fragmentId }

  function LeafFragmentKey(): SourceLeaf -> string { (l: SourceLeaf) => l.fragmentId }

  function IssueKey(): Issue -> string { (i: Issue) => i.fragmentId }

  // ---- Pointers ----

  /** `q` is `p` or a position below it. */
  ghost predicate Below(p: string, q: string) { exists u :: Continues(u) && q == p + u }

  ghost predicate OfContext(c: Context, f: Fragment) {
    f.sourceId == c.sourceId && f.fragmentId == FragmentId(c, f.jsonPointer, f.fragmentSha256)
  }

  ghost predicate PointersUnder(c: Context, pointer: string, fragments: seq<Fragment>) {
    && (forall f :: f in fragments ==> OfContext(c, f) && Below(pointer, f.jsonPointer))
    && DistinctKeys(PointerKey(), fragments)
  }

  ghost predicate BelowSome(pointer: string, children: seq<Child>, f: Fragment) {
    exists k :: k in children && Below(pointer + Render(k.segments), f.jsonPointer)
  }

  ghost predicate PointersUnderSome(c: Context, pointer: string, children: seq<Child>, fragments: seq<Fragment>) {
    && (forall f :: f in fragments ==> OfContext(c, f) && BelowSome(pointer, children, f))
    && DistinctKeys(PointerKey(), fragments)
  }

  lemma BelowSteps(p: string, segments: seq<Segment>, q: string)
    requires Below(p + Render(segments), q)
    ensures Below(p, q) && (segments != [] ==> |q| > |p|)
  {
    var u :| Continues(u) && q == p + Render(segments) + u;
    RenderContinues(segments);
    assert q == p + (Render(segments) + u);
    assert Continues(Render(segments) + u);
  }

  /** Positions below two children that sit apart are different. */
  lemma SiblingsDiffer(p: string, a: Child, b: Child, q: string, r: string)
    requires Apart(a.segments, b.segments)
    requires Below(p + Render(a.segments), q) && Below(p + Render(b.segments), r)
    ensures q != r
  {
    var u :| Continues(u) && q == p + Render(a.segments) + u;
    var v :| Continues(v) && r == p + Render(b.segments) + v;
    ApartStaysApart(a.segments, b.segments, u, v);
    hide *;
    Associative(p, Render(a.segments), u);
    Associative(p, Render(b.segments), v);
    SamePrefix(p, Render(a.segments) + u, Render(b.segments) + v);
  }

  lemma SamePrefix(p: string, x: string, y: string)
    ensures p + x == p + y ==> x == y
  {
    assert (p + x)[|p|..] == x && (p + y)[|p|..] == y;
  }

  lemma DistinctConcat(a: seq<Fragment>, b: seq<Fragment>)
    requires DistinctKeys(PointerKey(), a) && DistinctKeys(PointerKey(), b)
    requires forall f, g :: f in a && g in b ==> f.jsonPointer != g.jsonPointer
    ensures DistinctKeys(PointerKey(), a + b)
  {
    forall i, j | 0 <= i < j < |a + b| ensures PointerKey()((a + b)[i]) != PointerKey()((a + b)[j]) {
      if i < |a| <= j { assert a[i] in a && b[j - |a|] in b; }
    }
  }

  lemma {:induction false} VisitPointers(c: Context, value: Json, pointer: string, ancestors: seq<Digest>)
    ensures PointersUnder(c, pointer, Visit(c, value, pointer, ancestors).fragments)
    decreases value, 1, 0
  {
    hide Classify, Render, EffectType, Below, VisitAll, GoodChildren, DistinctKeys;
    var f := FragmentOf(c, value, pointer);
    BelowItself(pointer);
    OneDistinct(f);
    ClassifyGood(value);
    if Classify(value).Container? {
      var children := Classify(value).children;
      GoodChildrenSmaller(value, children);
      VisitAllPointers(c, value, children, pointer, ancestors + [f.fragmentId]);
      var rest := VisitAll(c, value, children, pointer, ancestors + [f.fragmentId]).fragments;
      forall g | g in rest ensures Below(pointer, g.jsonPointer) && g.jsonPointer != pointer {
        var k :| k in children && Below(pointer + Render(k.segments), g.jsonPointer);
        BelowSteps(pointer, k.segments, g.jsonPointer);
      }
      DistinctConcat([f], rest);
    }
  }

  lemma BelowItself(p: string)
    ensures Below(p, p)
  {
    assert p == p + "" && Continues("");
  }

  lemma OneDistinct(f: Fragment)
    ensures DistinctKeys(PointerKey(), [f])
  {}

  lemma GoodChildrenSmaller(value: Json, children: seq<Child>)
    requires GoodChildren(value, children)
    ensures children != []
    ensures forall c :: c in children ==> c.value < value && c.segments != []
    ensures forall i, j :: 0 <= i < j < |children| ==> Apart(children[i].segments, children[j].segments)
  {}

  lemma {:induction false} VisitAllPointers(c: Context, parent: Json, children: seq<Child>, pointer: string,
                                            ancestors: seq<Digest>)
    requires forall k :: k in children ==> k.value < parent
    requires forall i, j :: 0 <= i < j < |children| ==> Apart(children[i].segments, children[j].segments)
    ensures PointersUnderSome(c, pointer, children, VisitAll(c, parent, children, pointer, ancestors).fragments)
    decreases parent, 0, |children|
  {
    hide Render, Below, Visit, Apart, FragmentId;
    if children != [] {
      var first, rest := children[0], children[1..];
      assert children == [first] + rest;
      assert first in children;
      VisitPointers(c, first.value, pointer + Render(first.segments), ancestors);
      VisitAllPointers(c, parent, rest, pointer, ancestors);
      var a := Visit(c, first.value, pointer + Render(first.segments), ancestors).fragments;
      var b := VisitAll(c, parent, rest, pointer, ancestors).fragments;
      forall f, g | f in a && g in b ensures f.jsonPointer != g.jsonPointer {
        var k :| k in rest && Below(pointer + Render(k.segments), g.jsonPointer);
        var j :| 0 <= j < |rest| && rest[j] == k;
        assert children[j + 1] == k;
        SiblingsDiffer(pointer, first, k, f.jsonPointer, g.jsonPointer);
      }
      DistinctConcat(a, b);
    }
  }

  // ---- Leaves and issues, one for one ----

  function Terminal(fragments: seq<Fragment>): seq<Fragment> {
    if fragments == [] then []
    else (if fragments[0].role != ContainerRole then [fragments[0]] else []) + Terminal(fragments[1..])
  }

  function Stopped(fragments: seq<Fragment>): seq<Fragment> {
    if fragments == [] then []
    else (if fragments[0].role == UntraversableRole then [fragments[0]] else []) + Stopped(fragments[1..])
  }

  lemma {:induction false} TerminalConcat(a: seq<Fragment>, b: seq<Fragment>)
    ensures Terminal(a + b) == Terminal(a) + Terminal(b)
  {
    if a == [] { assert a + b == b; } else {
      assert (a + b)[1..] == a[1..] + b;
      TerminalConcat(a[1..], b);
    }
  }

  lemma {:induction false} StoppedConcat(a: seq<Fragment>, b: seq<Fragment>)
    ensures Stopped(a + b) == Stopped(a) + Stopped(b)
  {
    if a == [] { assert a + b == b; } else {
      assert (a + b)[1..] == a[1..] + b;
      StoppedConcat(a[1..], b);
    }
  }

  /** Leaves name the terminal fragments and issues the untraversable ones, in the same order. */
  ghost predicate OneForOne(found: Found) {
    && KeysOf(LeafFragmentKey(), found.leaves) == KeysOf(FragmentKey(), Terminal(found.fragments))
    && KeysOf(IssueKey(), found.issues) == KeysOf(FragmentKey(), Stopped(found.fragments))
    && (forall i :: i in found.issues ==> exists f :: f in found.fragments && IssueMatches(i, f))
  }

  predicate IssueMatches(i: Issue, f: Fragment) {
    f.fragmentId == i.fragmentId && f.role == UntraversableRole && f.sourceId == i.sourceId &&
    f.jsonPointer == i.jsonPointer
  }

  lemma OneForOneBoth(a: Found, b: Found)
    requires OneForOne(a) && OneForOne(b)
    ensures OneForOne(Both(a, b))
  {
    TerminalConcat(a.fragments, b.fragments);
    StoppedConcat(a.fragments, b.fragments);
    KeysConcat(LeafFragmentKey(), a.leaves, b.leaves);
    KeysConcat(FragmentKey(), Terminal(a.fragments), Terminal(b.fragments));
    KeysConcat(IssueKey(), a.issues, b.issues);
    KeysConcat(FragmentKey(), Stopped(a.fragments), Stopped(b.fragments));
    hide KeysOf, Terminal, Stopped;
    var both := Both(a, b);
    forall i | i in both.issues ensures exists f :: f in both.fragments && IssueMatches(i, f) {
      if i in a.issues {
        var f :| f in a.fragments && IssueMatches(i, f);
        assert f in both.fragments;
      } else {
        var f :| f in b.fragments && IssueMatches(i, f);
        assert f in both.fragments;
      }
    }
  }

  lemma {:induction false} VisitOneForOne(c: Context, value: Json, pointer: string, ancestors: seq<Digest>)
    ensures OneForOne(Visit(c, value, pointer, ancestors))
    decreases value, 1, 0
  {
    hide Classify, FragmentId, EffectType, VisitAll, GoodChildren, OneForOne, Both;
    var f := FragmentOf(c, value, pointer);
    ClassifyGood(value);
    if Classify(value).Container? {
      var children := Classify(value).children;
      GoodChildrenSmaller(value, children);
      VisitAllOneForOne(c, value, children, pointer, ancestors + [f.fragmentId]);
      ContainerOneForOne(f);
      OneForOneBoth(Found([f], [], []), VisitAll(c, value, children, pointer, ancestors + [f.fragmentId]));
    } else {
      TerminalOneForOne(f, LeafOf(c, f, ancestors),
                        if Classify(value).Untraversable? then
                          [Issue(Classify(value).code, c.sourceId, f.fragmentId, pointer)]
                        else []);
    }
  }

  lemma ContainerOneForOne(f: Fragment)
    requires f.role == ContainerRole
    ensures OneForOne(Found([f], [], []))
  {}

  lemma TerminalOneForOne(f: Fragment, l: SourceLeaf, issues: seq<Issue>)
    requires f.role != ContainerRole && l.fragmentId == f.fragmentId
    requires f.role == UntraversableRole ==> |issues| == 1 && IssueMatches(issues[0], f)
    requires f.role == LeafRole ==> issues == []
    ensures OneForOne(Found([f], [l], issues))
  {
    assert [f][0] in [f];
  }

  lemma {:induction false} VisitAllOneForOne(c: Context, parent: Json, children: seq<Child>, pointer: string,
                                             ancestors: seq<Digest>)
    requires forall k :: k in children ==> k.value < parent
    ensures OneForOne(VisitAll(c, parent, children, pointer, ancestors))
    decreases parent, 0, |children|
  {
    hide Visit, OneForOne, Both;
    if children == [] {
      NothingOneForOne();
    } else {
      assert children[0] in children;
      VisitOneForOne(c, children[0].value, pointer + Render(children[0].segments), ancestors);
      VisitAllOneForOne(c, parent, children[1..], pointer, ancestors);
      OneForOneBoth(Visit(c, children[0].value, pointer + Render(children[0].segments), ancestors),
                    VisitAll(c, parent, children[1..], pointer, ancestors));
    }
  }

  lemma NothingOneForOne()
    ensures OneForOne(NOTHING)
  {}

  // ---- Paths ----

  /** An id of a fragment above a position of this length. */
  ghost predicate AncestorId(c: Context, a: Digest, length: nat, objects: set<Preimage>) {
    exists p, sha :: a == FragmentId(c, p, sha) && |p| < length &&
      FragmentPre(c.sourceId, c.entitySha256, p, sha) in objects
  }

  ghost predicate PathAbove(c: Context, ancestors: seq<Digest>, length: nat, objects: set<Preimage>) {
    (forall a :: a in ancestors ==> AncestorId(c, a, length, objects)) && NoRepeats(ancestors)
  }

  /** The objects listed cover the ids of these fragments. */
  ghost predicate Covers(objects: set<Preimage>, c: Context, fragments: seq<Fragment>) {
    forall f :: f in fragments ==> FragmentObject(c, f) in objects
  }

  predicate IsContainer(f: Fragment, id: Digest) { f.fragmentId == id && f.role == ContainerRole }

  /** The id is one of the given ancestors or a container found below. */
  ghost predicate KnownAncestor(ancestors: seq<Digest>, fragments: seq<Fragment>, a: Digest) {
    a in ancestors || exists f :: f in fragments && IsContainer(f, a)
  }

  ghost predicate LeafPath(c: Context, ancestors: seq<Digest>, fragments: seq<Fragment>, l: SourceLeaf) {
    && l.sourceId == c.sourceId && l.leafId == c.hash(LeafPre(l.fragmentId, l.ancestorFragmentIds))
    && ancestors <= l.ancestorFragmentIds && NoRepeats(l.ancestorFragmentIds)
    && forall a :: a in l.ancestorFragmentIds ==> KnownAncestor(ancestors, fragments, a)
  }

  ghost predicate OnSomePath(leaves: seq<SourceLeaf>, id: Digest) {
    exists l :: l in leaves && id in l.ancestorFragmentIds
  }

  ghost predicate Paths(c: Context, ancestors: seq<Digest>, found: Found) {
    && (forall l :: l in found.leaves ==> LeafPath(c, ancestors, found.fragments, l))
    && (forall f :: f in found.fragments && f.role == ContainerRole ==> OnSomePath(found.leaves, f.fragmentId))
  }

  lemma PathsBoth(c: Context, ancestors: seq<Digest>, a: Found, b: Found)
    requires Paths(c, ancestors, a) && Paths(c, ancestors, b)
    ensures Paths(c, ancestors, Both(a, b))
  {
    hide IsContainer, NoRepeats;
    var both := Both(a, b);
    forall l | l in both.leaves ensures LeafPath(c, ancestors, both.fragments, l) {
      var fragments := if l in a.leaves then a.fragments else b.fragments;
      assert LeafPath(c, ancestors, fragments, l);
      forall x | x in l.ancestorFragmentIds ensures KnownAncestor(ancestors, both.fragments, x) {
        assert KnownAncestor(ancestors, fragments, x);
        if x !in ancestors {
          var f :| f in fragments && IsContainer(f, x);
          assert f in both.fragments;
        }
      }
    }
    forall f | f in both.fragments && f.role == ContainerRole ensures OnSomePath(both.leaves, f.fragmentId) {
      var leaves := if f in a.fragments then a.leaves else b.leaves;
      var l :| l in leaves && f.fragmentId in l.ancestorFragmentIds;
      assert l in both.leaves;
    }
  }

  /** A container above: its id is on every path below it. */
  lemma PathsContainer(c: Context, ancestors: seq<Digest>, f: Fragment, found: Found)
    requires f.role == ContainerRole && found.leaves != []
    requires Paths(c, ancestors + [f.fragmentId], found)
    ensures Paths(c, ancestors, Both(Found([f], [], []), found))
  {
    hide NoRepeats;
    var both := Both(Found([f], [], []), found);
    assert f in both.fragments;
    forall l | l in both.leaves ensures LeafPath(c, ancestors, both.fragments, l) {
      assert LeafPath(c, ancestors + [f.fragmentId], found.fragments, l);
      forall x | x in l.ancestorFragmentIds ensures KnownAncestor(ancestors, both.fragments, x) {
        assert KnownAncestor(ancestors + [f.fragmentId], found.fragments, x);
        if x == f.fragmentId {
          assert IsContainer(f, x);
        } else if x !in ancestors {
          var g :| g in found.fragments && IsContainer(g, x);
          assert g in both.fragments;
        }
      }
    }
    var first := found.leaves[0];
    assert first in both.leaves && LeafPath(c, ancestors + [f.fragmentId], found.fragments, first);
    assert first.ancestorFragmentIds[|ancestors|] == f.fragmentId;
    forall g | g in both.fragments && g.role == ContainerRole ensures OnSomePath(both.leaves, g.fragmentId) {
      if g in found.fragments {
        var l :| l in found.leaves && g.fragmentId in l.ancestorFragmentIds;
        assert l in both.leaves;
      }
    }
  }

  /**
    Every leaf carries the ids of the containers above it, without repeats unless two ids of this very tree
    collide.
   */
  lemma {:induction false} VisitPaths(c: Context, value: Json, pointer: string, ancestors: seq<Digest>,
                                      objects: set<Preimage>)
    requires NoCollision(c.hash, objects) && Covers(objects, c, Visit(c, value, pointer, ancestors).fragments)
    requires PathAbove(c, ancestors, |pointer|, objects)
    ensures Paths(c, ancestors, Visit(c, value, pointer, ancestors)) && Visit(c, value, pointer, ancestors).leaves != []
    decreases value, 1, 0
  {
    hide Classify, EffectType, VisitAll, GoodChildren, Paths, PathAbove, FragmentId, NoCollision;
    var f := FragmentOf(c, value, pointer);
    assert f in Visit(c, value, pointer, ancestors).fragments && FragmentObject(c, f) in objects;
    ClassifyGood(value);
    if Classify(value).Container? {
      var children := Classify(value).children;
      GoodChildrenSmaller(value, children);
      PathExtends(c, ancestors, pointer, f.fragmentSha256, objects);
      VisitAllPaths(c, value, children, pointer, ancestors + [f.fragmentId], objects);
      PathsContainer(c, ancestors, f, VisitAll(c, value, children, pointer, ancestors + [f.fragmentId]));
    } else {
      TerminalPath(c, ancestors, |pointer|, f, objects);
    }
  }

  lemma PathExtends(c: Context, ancestors: seq<Digest>, pointer: string, sha: Digest, objects: set<Preimage>)
    requires NoCollision(c.hash, objects) && FragmentPre(c.sourceId, c.entitySha256, pointer, sha) in objects
    requires PathAbove(c, ancestors, |pointer|, objects)
    ensures PathAbove(c, ancestors + [FragmentId(c, pointer, sha)], |pointer| + 1, objects)
  {
    var id := FragmentId(c, pointer, sha);
    assert AncestorId(c, id, |pointer| + 1, objects);
    forall a | a in ancestors ensures AncestorId(c, a, |pointer| + 1, objects) && a != id {
      var p, s :| a == FragmentId(c, p, s) && |p| < |pointer| &&
                  FragmentPre(c.sourceId, c.entitySha256, p, s) in objects;
      assert FragmentPre(c.sourceId, c.entitySha256, p, s) != FragmentPre(c.sourceId, c.entitySha256, pointer, sha);
    }
    var path := ancestors + [id];
    forall i, j | 0 <= i < j < |path| ensures path[i] != path[j] {
      assert path[i] in ancestors;
    }
  }

  lemma TerminalPath(c: Context, ancestors: seq<Digest>, length: nat, f: Fragment, objects: set<Preimage>)
    requires PathAbove(c, ancestors, length, objects) && f.role != ContainerRole
    ensures forall issues :: Paths(c, ancestors, Found([f], [LeafOf(c, f, ancestors)], issues))
  {}

  lemma {:induction false} VisitAllPaths(c: Context, parent: Json, children: seq<Child>, pointer: string,
                                         ancestors: seq<Digest>, objects: set<Preimage>)
    requires NoCollision(c.hash, objects) && PathAbove(c, ancestors, |pointer| + 1, objects)
    requires forall k :: k in children ==> k.value < parent && k.segments != []
    requires Covers(objects, c, VisitAll(c, parent, children, pointer, ancestors).fragments)
    ensures Paths(c, ancestors, VisitAll(c, parent, children, pointer, ancestors))
    ensures children != [] ==> VisitAll(c, parent, children, pointer, ancestors).leaves != []
    decreases parent, 0, |children|
  {
    hide Visit, Paths, PathAbove, NoCollision;
    if children == [] {
      NothingPaths(c, ancestors);
    } else {
      var first := children[0];
      assert first in children;
      PathLonger(c, ancestors, |pointer| + 1, |pointer + Render(first.segments)|, objects);
      VisitPaths(c, first.value, pointer + Render(first.segments), ancestors, objects);
      VisitAllPaths(c, parent, children[1..], pointer, ancestors, objects);
      PathsBoth(c, ancestors, Visit(c, first.value, pointer + Render(first.segments), ancestors),
                VisitAll(c, parent, children[1..], pointer, ancestors));
    }
  }

  lemma NothingPaths(c: Context, ancestors: seq<Digest>)
    ensures Paths(c, ancestors, NOTHING)
  {}

  lemma PathLonger(c: Context, ancestors: seq<Digest>, n: nat, m: nat, objects: set<Preimage>)
    requires PathAbove(c, ancestors, n, objects) && n <= m
    ensures PathAbove(c, ancestors, m, objects)
  {
    forall a | a in ancestors ensures AncestorId(c, a, m, objects) {
      var p, sha :| a == FragmentId(c, p, sha) && |p| < n && FragmentPre(c.sourceId, c.entitySha256, p, sha) in objects;
    }
  }
}
