/**
  lib/rosterpilot/combat-corpus-conformance.ts:185-365, `validateCombatSourceLeafInventoryShape`, and
  686-836, the builder around the traversal: what an inventory must satisfy, the validator that
  decides it, and why every inventory the builder makes does.
 */
module InventoryValidity {
  import opened Sequences
  import opened Wrappers
  import opened Ordering
  import opened JsonPointer
  import opened EffectTree
  import opened SourceInventory
  import opened InventoryTraversal

  function SourceKey(): Source -> string { (s: Source) => s.sourceId }

  function InputKey(): SourceInput -> string { (s: SourceInput) => s.sourceId }

  function LeafKey(): SourceLeaf -> string { (l: SourceLeaf) => l.leafId }

  /** The validator joins source id and pointer with a NUL character. */
  function JoinedKey(): Fragment -> string { (f: Fragment) => f.sourceId + "\0" + f.jsonPointer }

  function CountKey<T>(key: T -> string, s: seq<T>, x: string): nat { multiset(KeysOf(key, s))[x] }

  // ---- Valid inventories ----

  ghost predicate HasSource(inv: Inventory, id: string) { exists s :: s in inv.sources && s.sourceId == id }

  ghost predicate LeafSound(inv: Inventory, l: SourceLeaf) {
    && HasSource(inv, l.sourceId)
    && (exists f :: f in inv.fragments && f.fragmentId == l.fragmentId && f.role != ContainerRole &&
          f.sourceId == l.sourceId)
    && NoRepeats(l.ancestorFragmentIds)
    && forall a :: a in l.ancestorFragmentIds ==> AncestorSound(inv, a, l.sourceId)
  }

  ghost predicate AncestorSound(inv: Inventory, a: Digest, sourceId: string) {
    exists f :: f in inv.fragments && f.fragmentId == a && f.role == ContainerRole && f.sourceId == sourceId
  }

  ghost predicate IssueSound(inv: Inventory, i: Issue) { exists f :: f in inv.fragments && IssueMatches(i, f) }

  predicate IsRoot(f: Fragment, s: Source) {
    f.sourceId == s.sourceId && f.jsonPointer == s.effectJsonPointer && f.fragmentSha256 == s.effectSha256
  }

  ghost predicate RootSound(inv: Inventory, s: Source) { exists f :: f in inv.fragments && IsRoot(f, s) }

  ghost predicate FragmentSound(inv: Inventory, f: Fragment) {
    && HasSource(inv, f.sourceId)
    && (f.role == ContainerRole ==> OnSomePath(inv.leaves, f.fragmentId))
    && (f.role != ContainerRole ==> CountKey(LeafFragmentKey(), inv.leaves, f.fragmentId) == 1)
    && (f.role == UntraversableRole ==> CountKey(IssueKey(), inv.issues, f.fragmentId) == 1)
  }

  ghost predicate IdsDistinct(inv: Inventory) {
    && DistinctKeys(SourceKey(), inv.sources) && DistinctKeys(FragmentKey(), inv.fragments)
    && DistinctKeys(JoinedKey(), inv.fragments) && DistinctKeys(LeafKey(), inv.leaves)
  }

  ghost predicate ValidInventory(inv: Inventory) {
    && IdsDistinct(inv)
    && (forall f :: f in inv.fragments ==> FragmentSound(inv, f))
    && (forall l :: l in inv.leaves ==> LeafSound(inv, l))
    && (forall i :: i in inv.issues ==> IssueSound(inv, i))
    && (forall s :: s in inv.sources ==> RootSound(inv, s))
  }

  // ---- The draft the builder collects ----

  function SourceOf(hash: Hash, s: SourceInput): Source {
    Source(s.sourceId, s.entitySha256, s.effectJsonPointer, hash(ValuePre(s.effect)))
  }

  function FoundIn(hash: Hash, s: SourceInput): Found {
    Visit(Context(hash, s.sourceId, s.entitySha256), s.effect, s.effectJsonPointer, [])
  }

  function DraftOf(hash: Hash, inputs: seq<SourceInput>): Inventory {
    if inputs == [] then Inventory([], [], [], [])
    else
      var n := |inputs| - 1;
      var before, found := DraftOf(hash, inputs[..n]), FoundIn(hash, inputs[n]);
      Inventory(before.sources + [SourceOf(hash, inputs[n])], before.fragments + found.fragments,
                before.leaves + found.leaves, before.issues + found.issues)
  }

  /** The objects whose digests are the ids of one source's fragments and leaves, and of all sources'. */
  function ObjectsIn(hash: Hash, s: SourceInput): set<Preimage> {
    var c, found := Context(hash, s.sourceId, s.entitySha256), FoundIn(hash, s);
    (set f | f in found.fragments :: FragmentObject(c, f)) + set l | l in found.leaves :: LeafObject(l)
  }

  function ObjectsOf(hash: Hash, inputs: seq<SourceInput>): set<Preimage> {
    set k, x | k in inputs && x in ObjectsIn(hash, k) :: x
  }

  /** The draft's own facts, source by source; `objects` lists what its ids are digests of. */
  ghost predicate Collected(hash: Hash, inputs: seq<SourceInput>, inv: Inventory, objects: set<Preimage>) {
    && (forall s :: s in inv.sources <==> exists k :: k in inputs && s == SourceOf(hash, k))
    && (forall f :: f in inv.fragments ==> OfSomeInput(hash, inputs, f, objects))
    && (forall l :: l in inv.leaves ==> LeafObject(l) in objects)
    && DistinctKeys(SourceKey(), inv.sources) && DistinctKeys(FragmentKey(), inv.fragments)
    && OneForOne(Found(inv.fragments, inv.leaves, inv.issues))
    && (forall l :: l in inv.leaves ==> InventoryLeaf(hash, inv, l))
    && (forall f :: f in inv.fragments && f.role == ContainerRole ==> OnSomePath(inv.leaves, f.fragmentId))
    && (forall s :: s in inv.sources ==> RootSound(inv, s))
  }

  ghost predicate OfSomeInput(hash: Hash, inputs: seq<SourceInput>, f: Fragment, objects: set<Preimage>) {
    exists k :: k in inputs && OfInput(Context(hash, k.sourceId, k.entitySha256), f, objects)
  }

  ghost predicate OfInput(c: Context, f: Fragment, objects: set<Preimage>) {
    OfContext(c, f) && FragmentObject(c, f) in objects
  }

  ghost predicate InventoryLeaf(hash: Hash, inv: Inventory, l: SourceLeaf) {
    && l.leafId == hash(LeafPre(l.fragmentId, l.ancestorFragmentIds))
    && LeafSound(inv, l)
  }

  lemma {:induction false} DraftCollected(hash: Hash, inputs: seq<SourceInput>, objects: set<Preimage>)
    requires NoCollision(hash, objects) && DistinctKeys(InputKey(), inputs)
    requires forall k :: k in inputs ==> ObjectsIn(hash, k) <= objects
    ensures Collected(hash, inputs, DraftOf(hash, inputs), objects)
  {
    if inputs == [] {
      NothingOneForOne();
    } else {
      var n := |inputs| - 1;
      var input := inputs[n];
      assert inputs == inputs[..n] + [input];
      DistinctKeysAppend(InputKey(), inputs[..n], input);
      DraftCollected(hash, inputs[..n], objects);
      CollectOneMore(hash, inputs[..n], input, DraftOf(hash, inputs[..n]), objects);
    }
  }

  lemma CollectOneMore(hash: Hash, inputs: seq<SourceInput>, input: SourceInput, before: Inventory,
                       objects: set<Preimage>)
    requires NoCollision(hash, objects) && Collected(hash, inputs, before, objects) && ObjectsIn(hash, input) <= objects
    requires forall k :: k in inputs ==> k.sourceId != input.sourceId
    ensures var found := FoundIn(hash, input);
            Collected(hash, inputs + [input],
              Inventory(before.sources + [SourceOf(hash, input)], before.fragments + found.fragments,
                        before.leaves + found.leaves, before.issues + found.issues), objects)
  {
    var c, found := Context(hash, input.sourceId, input.entitySha256), FoundIn(hash, input);
    var inv := Inventory(before.sources + [SourceOf(hash, input)], before.fragments + found.fragments,
                         before.leaves + found.leaves, before.issues + found.issues);
    FoundInFacts(hash, input, objects);
    ObjectsWithin(hash, input, objects);
    hide ObjectsIn, LeafObject, NoCollision, FoundIn, OneForOne, PointersUnder, DistinctKeys, Paths, InventoryLeaf,
      OnSomePath, RootSound, OfSomeInput, SourceOf;
    assert Both(Found(before.fragments, before.leaves, before.issues), found) ==
           Found(inv.fragments, inv.leaves, inv.issues);
    OneForOneBoth(Found(before.fragments, before.leaves, before.issues), found);
    SourcesGrow(hash, inputs, input, before, inv, objects);
    FragmentsGrow(hash, inputs, input, before, found, inv, objects);
    LeavesGrow(hash, inputs, input, before, found, inv, objects);
    RootsGrow(hash, input, before, found, inv);
  }

  lemma ObjectsWithin(hash: Hash, input: SourceInput, objects: set<Preimage>)
    requires ObjectsIn(hash, input) <= objects
    ensures Covers(objects, Context(hash, input.sourceId, input.entitySha256), FoundIn(hash, input).fragments)
    ensures forall l :: l in FoundIn(hash, input).leaves ==> LeafObject(l) in objects
  {
    hide FoundIn;
    var c, found := Context(hash, input.sourceId, input.entitySha256), FoundIn(hash, input);
    forall f | f in found.fragments ensures FragmentObject(c, f) in objects {
      assert FragmentObject(c, f) in ObjectsIn(hash, input);
    }
    forall l | l in found.leaves ensures LeafObject(l) in objects { assert LeafObject(l) in ObjectsIn(hash, input); }
  }

  lemma FoundInFacts(hash: Hash, input: SourceInput, objects: set<Preimage>)
    requires NoCollision(hash, objects) && ObjectsIn(hash, input) <= objects
    ensures var c, found := Context(hash, input.sourceId, input.entitySha256), FoundIn(hash, input);
            PointersUnder(c, input.effectJsonPointer, found.fragments) && OneForOne(found) && Paths(c, [], found)
  {
    ObjectsWithin(hash, input, objects);
    hide Visit, OneForOne, PointersUnder, Paths, ObjectsIn;
    var c := Context(hash, input.sourceId, input.entitySha256);
    assert PathAbove(c, [], |input.effectJsonPointer|, objects);
    VisitPointers(c, input.effect, input.effectJsonPointer, []);
    VisitOneForOne(c, input.effect, input.effectJsonPointer, []);
    VisitPaths(c, input.effect, input.effectJsonPointer, [], objects);
  }

  lemma SourcesGrow(hash: Hash, inputs: seq<SourceInput>, input: SourceInput, before: Inventory, inv: Inventory,
                    objects: set<Preimage>)
    requires Collected(hash, inputs, before, objects) && inv.sources == before.sources + [SourceOf(hash, input)]
    requires forall k :: k in inputs ==> k.sourceId != input.sourceId
    ensures DistinctKeys(SourceKey(), inv.sources)
    ensures forall s :: s in inv.sources <==> exists k :: k in inputs + [input] && s == SourceOf(hash, k)
  {
    hide OneForOne, InventoryLeaf, OfSomeInput, OnSomePath, RootSound;
    DistinctKeysAppend(SourceKey(), before.sources, SourceOf(hash, input));
    forall s ensures s in inv.sources <==> exists k :: k in inputs + [input] && s == SourceOf(hash, k) {
      if s in inv.sources {
        if s in before.sources {
          var k :| k in inputs && s == SourceOf(hash, k);
          assert k in inputs + [input];
        } else {
          assert input in inputs + [input];
        }
      }
    }
  }

  lemma FragmentsGrow(hash: Hash, inputs: seq<SourceInput>, input: SourceInput, before: Inventory, found: Found,
                      inv: Inventory, objects: set<Preimage>)
    requires NoCollision(hash, objects) && Collected(hash, inputs, before, objects) &&
             inv.fragments == before.fragments + found.fragments
    requires forall k :: k in inputs ==> k.sourceId != input.sourceId
    requires PointersUnder(Context(hash, input.sourceId, input.entitySha256), input.effectJsonPointer, found.fragments)
    requires Covers(objects, Context(hash, input.sourceId, input.entitySha256), found.fragments)
    ensures DistinctKeys(FragmentKey(), inv.fragments)
    ensures forall f :: f in inv.fragments ==> OfSomeInput(hash, inputs + [input], f, objects)
  {
    hide OneForOne, InventoryLeaf, OnSomePath, RootSound, Below;
    var c := Context(hash, input.sourceId, input.entitySha256);
    var a, b := before.fragments, found.fragments;
    forall i, j | 0 <= i < j < |a + b| ensures FragmentKey()((a + b)[i]) != FragmentKey()((a + b)[j]) {
      var f, g := (a + b)[i], (a + b)[j];
      if j < |a| {
        assert FragmentKey()(a[i]) != FragmentKey()(a[j]);
      } else if i < |a| {
        assert f in a && g in b;
        var k :| k in inputs && OfInput(Context(hash, k.sourceId, k.entitySha256), f, objects);
        assert FragmentPre(k.sourceId, k.entitySha256, f.jsonPointer, f.fragmentSha256) !=
               FragmentPre(c.sourceId, c.entitySha256, g.jsonPointer, g.fragmentSha256);
      } else {
        assert f in b && g in b && PointerKey()(b[i - |a|]) != PointerKey()(b[j - |a|]);
        assert FragmentPre(c.sourceId, c.entitySha256, f.jsonPointer, f.fragmentSha256) !=
               FragmentPre(c.sourceId, c.entitySha256, g.jsonPointer, g.fragmentSha256);
      }
    }
    forall f | f in inv.fragments ensures OfSomeInput(hash, inputs + [input], f, objects) {
      if f in a {
        var k :| k in inputs && OfInput(Context(hash, k.sourceId, k.entitySha256), f, objects);
        assert k in inputs + [input];
      } else {
        assert input in inputs + [input] && OfInput(c, f, objects);
      }
    }
  }

  /** A leaf of one tree is a sound leaf of any inventory that holds the tree and its source. */
  lemma TreeLeafSound(c: Context, found: Found, inv: Inventory, l: SourceLeaf)
    requires l in found.leaves && LeafPath(c, [], found.fragments, l) && OneForOne(found)
    requires forall f :: f in found.fragments ==> f in inv.fragments && OfContext(c, f)
    requires HasSource(inv, c.sourceId)
    ensures InventoryLeaf(c.hash, inv, l)
  {
    hide NoRepeats, FragmentId;
    var f := LeafHasFragment(found, l);
    assert f in inv.fragments && OfContext(c, f);
    forall a | a in l.ancestorFragmentIds ensures AncestorSound(inv, a, l.sourceId) {
      assert KnownAncestor([], found.fragments, a);
      var g :| g in found.fragments && IsContainer(g, a);
      assert g in inv.fragments && OfContext(c, g);
    }
  }

  lemma LeafHasFragment(found: Found, l: SourceLeaf) returns (f: Fragment)
    requires OneForOne(found) && l in found.leaves
    ensures f in found.fragments && f.fragmentId == l.fragmentId && f.role != ContainerRole
  {
    var i :| 0 <= i < |found.leaves| && found.leaves[i] == l;
    var keys := KeysOf(LeafFragmentKey(), found.leaves);
    assert keys[i] == l.fragmentId;
    f := Terminal(found.fragments)[i];
    assert KeysOf(FragmentKey(), Terminal(found.fragments))[i] == FragmentKey()(f);
    TerminalMembers(found.fragments);
    assert f in Terminal(found.fragments);
  }

  lemma {:induction false} TerminalMembers(fragments: seq<Fragment>)
    ensures forall f :: f in Terminal(fragments) <==> f in fragments && f.role != ContainerRole
    ensures forall f :: f in Stopped(fragments) <==> f in fragments && f.role == UntraversableRole
  {
    if fragments != [] {
      TerminalMembers(fragments[1..]);
      assert fragments == [fragments[0]] + fragments[1..];
    }
  }

  lemma LeafKept(hash: Hash, before: Inventory, inv: Inventory, l: SourceLeaf)
    requires InventoryLeaf(hash, before, l)
    requires forall f :: f in before.fragments ==> f in inv.fragments
    requires forall s :: s in before.sources ==> s in inv.sources
    ensures InventoryLeaf(hash, inv, l)
  {
    hide NoRepeats;
    var s :| s in before.sources && s.sourceId == l.sourceId;
    assert s in inv.sources;
    var f :| f in before.fragments && f.fragmentId == l.fragmentId && f.role != ContainerRole &&
             f.sourceId == l.sourceId;
    assert f in inv.fragments;
    forall a | a in l.ancestorFragmentIds ensures AncestorSound(inv, a, l.sourceId) {
      assert AncestorSound(before, a, l.sourceId);
      var g :| g in before.fragments && g.fragmentId == a && g.role == ContainerRole && g.sourceId == l.sourceId;
      assert g in inv.fragments;
    }
  }

  lemma LeavesGrow(hash: Hash, inputs: seq<SourceInput>, input: SourceInput, before: Inventory, found: Found,
                   inv: Inventory, objects: set<Preimage>)
    requires Collected(hash, inputs, before, objects)
    requires inv.sources == before.sources + [SourceOf(hash, input)]
    requires inv.fragments == before.fragments + found.fragments && inv.leaves == before.leaves + found.leaves
    requires OneForOne(found)
    requires PointersUnder(Context(hash, input.sourceId, input.entitySha256), input.effectJsonPointer, found.fragments)
    requires Paths(Context(hash, input.sourceId, input.entitySha256), [], found)
    ensures forall l :: l in inv.leaves ==> InventoryLeaf(hash, inv, l)
    ensures forall f :: f in inv.fragments && f.role == ContainerRole ==> OnSomePath(inv.leaves, f.fragmentId)
  {
    hide OneForOne, DistinctKeys, InventoryLeaf, OfContext, RootSound, LeafPath, OfSomeInput, Below;
    var c := Context(hash, input.sourceId, input.entitySha256);
    var s := SourceOf(hash, input);
    assert s in inv.sources && s.sourceId == input.sourceId;
    forall l | l in inv.leaves ensures InventoryLeaf(hash, inv, l) {
      if l in before.leaves { LeafKept(hash, before, inv, l); } else { TreeLeafSound(c, found, inv, l); }
    }
    forall f | f in inv.fragments && f.role == ContainerRole ensures OnSomePath(inv.leaves, f.fragmentId) {
      var leaves := if f in before.fragments then before.leaves else found.leaves;
      assert OnSomePath(leaves, f.fragmentId);
      var l :| l in leaves && f.fragmentId in l.ancestorFragmentIds;
      assert l in inv.leaves;
    }
  }

  lemma RootsGrow(hash: Hash, input: SourceInput, before: Inventory, found: Found, inv: Inventory)
    requires forall s :: s in before.sources ==> RootSound(before, s)
    requires found == FoundIn(hash, input)
    requires inv.sources == before.sources + [SourceOf(hash, input)] &&
             inv.fragments == before.fragments + found.fragments
    ensures forall s :: s in inv.sources ==> RootSound(inv, s)
  {
    var root := VisitRoot(hash, input);
    forall s | s in inv.sources ensures RootSound(inv, s) {
      if s in before.sources {
        var f :| f in before.fragments && IsRoot(f, s);
        assert f in inv.fragments;
      } else {
        assert root in inv.fragments && IsRoot(root, s);
      }
    }
  }

  lemma VisitRoot(hash: Hash, input: SourceInput) returns (root: Fragment)
    ensures root in FoundIn(hash, input).fragments && IsRoot(root, SourceOf(hash, input))
  {
    hide Classify, EffectType, VisitAll;
    root := FragmentOf(Context(hash, input.sourceId, input.entitySha256), input.effect, input.effectJsonPointer);
    assert FoundIn(hash, input).fragments[0] == root;
  }

  // ---- The builder's inventory is valid ----

  lemma DistinctCount<T>(key: T -> string, s: seq<T>, x: T)
    requires DistinctKeys(key, s) && x in s
    ensures CountKey(key, s, key(x)) == 1
  {
    var keys := KeysOf(key, s);
    var i :| 0 <= i < |s| && s[i] == x;
    assert keys[i] in keys;
    NoRepeatCount(keys, key(x));
  }

  lemma {:induction false} DistinctSublists(fragments: seq<Fragment>)
    requires DistinctKeys(FragmentKey(), fragments)
    ensures DistinctKeys(FragmentKey(), Terminal(fragments)) && DistinctKeys(FragmentKey(), Stopped(fragments))
  {
    if fragments != [] {
      var rest := fragments[1..];
      forall i, j | 0 <= i < j < |rest| ensures FragmentKey()(rest[i]) != FragmentKey()(rest[j]) {
        assert FragmentKey()(fragments[i + 1]) != FragmentKey()(fragments[j + 1]);
      }
      DistinctSublists(rest);
      TerminalMembers(rest);
      forall f | f in rest ensures FragmentKey()(f) != FragmentKey()(fragments[0]) {
        var i :| 0 <= i < |rest| && rest[i] == f;
        assert FragmentKey()(fragments[0]) != FragmentKey()(fragments[i + 1]);
      }
      DistinctPrepend(fragments[0], Terminal(rest));
      DistinctPrepend(fragments[0], Stopped(rest));
    }
  }

  lemma DistinctPrepend(f: Fragment, s: seq<Fragment>)
    requires DistinctKeys(FragmentKey(), s) && forall g :: g in s ==> FragmentKey()(g) != FragmentKey()(f)
    ensures DistinctKeys(FragmentKey(), [f] + s)
  {}

  /** One leaf per terminal fragment, one issue per untraversable one. */
  lemma CountsAreOne(found: Found, f: Fragment)
    requires OneForOne(found) && DistinctKeys(FragmentKey(), found.fragments) && f in found.fragments
    ensures f.role != ContainerRole ==> CountKey(LeafFragmentKey(), found.leaves, f.fragmentId) == 1
    ensures f.role == UntraversableRole ==> CountKey(IssueKey(), found.issues, f.fragmentId) == 1
  {
    DistinctSublists(found.fragments);
    TerminalMembers(found.fragments);
    if f.role != ContainerRole { DistinctCount(FragmentKey(), Terminal(found.fragments), f); }
    if f.role == UntraversableRole { DistinctCount(FragmentKey(), Stopped(found.fragments), f); }
  }

  lemma LeafIdsDistinct(hash: Hash, inv: Inventory, objects: set<Preimage>)
    requires NoCollision(hash, objects) && DistinctKeys(FragmentKey(), inv.fragments)
    requires forall l :: l in inv.leaves ==> LeafObject(l) in objects
    requires OneForOne(Found(inv.fragments, inv.leaves, inv.issues))
    requires forall l :: l in inv.leaves ==> l.leafId == hash(LeafPre(l.fragmentId, l.ancestorFragmentIds))
    ensures DistinctKeys(LeafKey(), inv.leaves)
  {
    DistinctSublists(inv.fragments);
    var keys := KeysOf(FragmentKey(), Terminal(inv.fragments));
    forall i, j | 0 <= i < j < |inv.leaves| ensures LeafKey()(inv.leaves[i]) != LeafKey()(inv.leaves[j]) {
      var a, b := inv.leaves[i], inv.leaves[j];
      assert a in inv.leaves && b in inv.leaves;
      assert LeafFragmentKey()(a) == keys[i] && LeafFragmentKey()(b) == keys[j];
      assert FragmentKey()(Terminal(inv.fragments)[i]) != FragmentKey()(Terminal(inv.fragments)[j]);
      assert LeafObject(a) in objects && LeafObject(b) in objects && LeafObject(a) != LeafObject(b);
    }
  }

  /**
    Unless two of its own ids collide, a draft passes every rule of the validator, the joined keys being the
    only thing left to ask.
   */
  lemma DraftValidIff(hash: Hash, inputs: seq<SourceInput>)
    requires NoCollision(hash, ObjectsOf(hash, inputs)) && DistinctKeys(InputKey(), inputs)
    ensures ValidInventory(DraftOf(hash, inputs)) <==> DistinctKeys(JoinedKey(), DraftOf(hash, inputs).fragments)
  {
    var inv, objects := DraftOf(hash, inputs), ObjectsOf(hash, inputs);
    forall k | k in inputs ensures ObjectsIn(hash, k) <= objects {}
    hide ObjectsIn, ObjectsOf, DraftOf;
    DraftCollected(hash, inputs, objects);
    CollectedValidIff(hash, inputs, inv, objects);
  }

  lemma CollectedValidIff(hash: Hash, inputs: seq<SourceInput>, inv: Inventory, objects: set<Preimage>)
    requires NoCollision(hash, objects) && Collected(hash, inputs, inv, objects)
    ensures ValidInventory(inv) <==> DistinctKeys(JoinedKey(), inv.fragments)
  {
    hide NoCollision, OneForOne, DistinctKeys, LeafSound, RootSound, OnSomePath, CountKey, LeafObject;
    LeafIdsDistinct(hash, inv, objects);
    forall f | f in inv.fragments ensures FragmentSound(inv, f) {
      CollectedFragmentSound(hash, inputs, inv, objects, f);
    }
    forall i | i in inv.issues ensures IssueSound(inv, i) {
      IssuesMatch(Found(inv.fragments, inv.leaves, inv.issues), i);
    }
  }

  lemma CollectedFragmentSound(hash: Hash, inputs: seq<SourceInput>, inv: Inventory, objects: set<Preimage>,
                               f: Fragment)
    requires Collected(hash, inputs, inv, objects) && f in inv.fragments
    ensures FragmentSound(inv, f)
  {
    hide OneForOne, DistinctKeys, InventoryLeaf, RootSound, OnSomePath, CountKey, LeafObject;
    CountsAreOne(Found(inv.fragments, inv.leaves, inv.issues), f);
    var k :| k in inputs && OfInput(Context(hash, k.sourceId, k.entitySha256), f, objects);
    assert SourceOf(hash, k) in inv.sources;
  }

  lemma IssuesMatch(found: Found, i: Issue)
    requires OneForOne(found) && i in found.issues
    ensures exists f :: f in found.fragments && IssueMatches(i, f)
  {}

  // ---- When joined keys are distinct ----

  ghost predicate FromSome(inputs: seq<SourceInput>, f: Fragment) {
    exists k :: k in inputs && f.sourceId == k.sourceId
  }

  /** Source ids without a NUL character never make two joined keys meet. */
  lemma {:induction false} NoNulNoClash(hash: Hash, inputs: seq<SourceInput>)
    requires DistinctKeys(InputKey(), inputs) && forall k :: k in inputs ==> '\0' !in k.sourceId
    ensures DistinctKeys(JoinedKey(), DraftOf(hash, inputs).fragments)
    ensures forall f :: f in DraftOf(hash, inputs).fragments ==> FromSome(inputs, f)
  {
    if inputs != [] {
      var n := |inputs| - 1;
      var input := inputs[n];
      assert inputs == inputs[..n] + [input];
      DistinctKeysAppend(InputKey(), inputs[..n], input);
      NoNulNoClash(hash, inputs[..n]);
      VisitPointers(Context(hash, input.sourceId, input.entitySha256), input.effect, input.effectJsonPointer, []);
      hide Visit, Below, FragmentId;
      var a, b := DraftOf(hash, inputs[..n]).fragments, FoundIn(hash, input).fragments;
      assert DraftOf(hash, inputs).fragments == a + b;
      forall f | f in a + b ensures FromSome(inputs, f) {
        if f in a {
          var k :| k in inputs[..n] && f.sourceId == k.sourceId;
          assert k in inputs;
        } else {
          assert OfContext(Context(hash, input.sourceId, input.entitySha256), f) && input in inputs;
        }
      }
      forall i, j | 0 <= i < j < |a + b| ensures JoinedKey()((a + b)[i]) != JoinedKey()((a + b)[j]) {
        if j < |a| {
          assert JoinedKey()(a[i]) != JoinedKey()(a[j]);
        } else {
          JoinedKeysDiffer(hash, inputs, n, a, b, i, j);
        }
      }
    }
  }

  lemma JoinedKeysDiffer(hash: Hash, inputs: seq<SourceInput>, n: nat, a: seq<Fragment>, b: seq<Fragment>, i: nat,
                         j: nat)
    requires n < |inputs| && forall k :: k in inputs ==> '\0' !in k.sourceId
    requires forall k :: k in inputs[..n] ==> k.sourceId != inputs[n].sourceId
    requires forall f :: f in a ==> FromSome(inputs[..n], f)
    requires PointersUnder(Context(hash, inputs[n].sourceId, inputs[n].entitySha256), inputs[n].effectJsonPointer, b)
    requires i < j < |a + b| && j >= |a|
    ensures JoinedKey()((a + b)[i]) != JoinedKey()((a + b)[j])
  {
    hide Below, FragmentId;
    var f, g := (a + b)[i], (a + b)[j];
    assert g in b && g.sourceId == inputs[n].sourceId;
    if i < |a| {
      assert f in a;
      var k :| k in inputs[..n] && f.sourceId == k.sourceId;
      assert k in inputs;
    } else {
      assert f in b && f.sourceId == inputs[n].sourceId;
      assert PointerKey()(b[i - |a|]) != PointerKey()(b[j - |a|]);
    }
    if JoinedKey()(f) == JoinedKey()(g) {
      SplitAtNul(f.sourceId, g.sourceId, f.jsonPointer, g.jsonPointer);
    }
  }

  function ClashInputs(): seq<SourceInput> {
    [SourceInput("a", "", "/x\0/y", Null), SourceInput("a\0/x", "", "/y", Null)]
  }

  /**
    A NUL in a source id can make two fragments share a joined key: two distinct sources, each with
    one fragment, are refused although every pointer is unique within its source.
   */
  lemma NulCanClash(hash: Hash)
    ensures DistinctKeys(InputKey(), ClashInputs())
    ensures !ValidInventory(DraftOf(hash, ClashInputs()))
  {
    var inputs := ClashInputs();
    assert inputs[0].sourceId != inputs[1].sourceId;
    ClashDraft(hash);
    hide DraftOf, FragmentSound, LeafSound, IssueSound, RootSound, ClashInputs;
    var all := DraftOf(hash, inputs).fragments;
    assert JoinedKey()(all[0]) == "a" + "\0" + "/x\0/y" == "a\0/x" + "\0" + "/y" == JoinedKey()(all[1]);
  }

  lemma ClashDraft(hash: Hash)
    ensures var all := DraftOf(hash, ClashInputs()).fragments;
            && |all| == 2 && all[0].sourceId == "a" && all[0].jsonPointer == "/x\0/y"
            && all[1].sourceId == "a\0/x" && all[1].jsonPointer == "/y"
  {
    var inputs := ClashInputs();
    var first := [inputs[0]];
    assert inputs[..1] == first && first[..0] == [];
    NullFound(hash, inputs[0]);
    NullFound(hash, inputs[1]);
    hide FoundIn;
    assert DraftOf(hash, first).fragments == FoundIn(hash, inputs[0]).fragments;
    assert DraftOf(hash, inputs).fragments == FoundIn(hash, inputs[0]).fragments + FoundIn(hash, inputs[1]).fragments;
  }

  lemma NullFound(hash: Hash, input: SourceInput)
    requires input.effect == Null
    ensures var f := FoundIn(hash, input).fragments;
            |f| == 1 && f[0].sourceId == input.sourceId && f[0].jsonPointer == input.effectJsonPointer
  {}
}
