/**
  lib/rosterpilot/combat-corpus-conformance.ts:36-49 and 185-365: the inventory validator as it
  runs, pass by pass, deciding exactly the valid inventories.
 */
module InventoryValidator {
  import opened Sequences
  import opened Wrappers
  import opened Ordering
  import opened JsonPointer
  import opened EffectTree
  import opened SourceInventory
  import opened InventoryTraversal
  import opened InventoryValidity

  type Index = map<Digest, Fragment>

  // ---- The validator's passes ----

  /** `new Set(values).size === values.length`. */
  method Unique<T(==)>(values: seq<T>) returns (unique: bool)
    ensures unique <==> NoRepeats(values)
  {
    var seen: set<T> := {};
    for i := 0 to |values|
      invariant forall x :: x in seen <==> x in values[..i]
      invariant |seen| <= i && (|seen| == i <==> NoRepeats(values[..i]))
    {
      NoRepeatsAppend(values, i);
      seen := seen + {values[i]};
    }
    assert values[..|values|] == values;
    unique := |seen| == |values|;
  }

  method UniqueKeys<T>(key: T -> string, s: seq<T>) returns (unique: bool)
    ensures unique <==> DistinctKeys(key, s)
  {
    unique := Unique(KeysOf(key, s));
    assert unique ==> DistinctKeys(key, s) by {
      if unique {
        forall i, j | 0 <= i < j < |s| ensures key(s[i]) != key(s[j]) { assert KeysOf(key, s)[i] != KeysOf(key, s)[j]; }
      }
    }
  }

  lemma SameKeySame<T>(key: T -> string, s: seq<T>, x: T, y: T)
    requires DistinctKeys(key, s) && x in s && y in s && key(x) == key(y)
    ensures x == y
  {
    var i :| 0 <= i < |s| && s[i] == x;
    var j :| 0 <= j < |s| && s[j] == y;
    assert i == j;
  }

  ghost predicate ById(index: Index, fragments: seq<Fragment>) {
    && (forall f :: f in fragments ==> f.fragmentId in index)
    && (forall id :: id in index ==> index[id] in fragments && index[id].fragmentId == id)
  }

  /** `new Map(fragments.map(...))`: the last fragment with an id wins. */
  method IndexFragments(fragments: seq<Fragment>) returns (index: Index)
    ensures ById(index, fragments)
  {
    index := map[];
    for i := 0 to |fragments|
      invariant ById(index, fragments[..i])
    {
      assert fragments[..i + 1] == fragments[..i] + [fragments[i]];
      index := index[fragments[i].fragmentId := fragments[i]];
    }
    assert fragments[..|fragments|] == fragments;
  }

  method SourceIds(sources: seq<Source>) returns (ids: set<string>)
    ensures forall id :: id in ids <==> exists s :: s in sources && s.sourceId == id
  {
    ids := {};
    for i := 0 to |sources|
      invariant forall id :: id in ids <==> exists s :: s in sources[..i] && s.sourceId == id
    {
      assert forall s :: s in sources[..i + 1] <==> s in sources[..i] || s == sources[i] by {
        assert sources[..i + 1] == sources[..i] + [sources[i]];
      }
      ids := ids + {sources[i].sourceId};
    }
    assert sources[..|sources|] == sources;
  }

  predicate AncestorOk(index: Index, a: Digest, sourceId: string) {
    a in index && index[a].role == ContainerRole && index[a].sourceId == sourceId
  }

  ghost predicate LeafOk(index: Index, ids: set<string>, l: SourceLeaf) {
    && l.fragmentId in index && index[l.fragmentId].role != ContainerRole
    && index[l.fragmentId].sourceId == l.sourceId && l.sourceId in ids
    && NoRepeats(l.ancestorFragmentIds)
    && forall a :: a in l.ancestorFragmentIds ==> AncestorOk(index, a, l.sourceId)
  }

  ghost predicate Referenced(index: Index, leaves: seq<SourceLeaf>, a: Digest) {
    exists l :: l in leaves && a in l.ancestorFragmentIds && AncestorOk(index, a, l.sourceId)
  }

  /** One leaf: its fragment, its source, its path; the containers on the path are noted. */
  method CheckLeaf(index: Index, ids: set<string>, l: SourceLeaf, known: set<Digest>)
    returns (ok: bool, referenced: set<Digest>)
    ensures ok <==> LeafOk(index, ids, l)
    ensures forall a :: a in referenced <==>
              a in known || (a in l.ancestorFragmentIds && AncestorOk(index, a, l.sourceId))
  {
    ok := l.fragmentId in index && index[l.fragmentId].role != ContainerRole
          && index[l.fragmentId].sourceId == l.sourceId && l.sourceId in ids;
    var unique := Unique(l.ancestorFragmentIds);
    ok := ok && unique;
    referenced := known;
    ghost var before := ok;
    var path := l.ancestorFragmentIds;
    for i := 0 to |path|
      invariant ok <==> before && forall a :: a in path[..i] ==> AncestorOk(index, a, l.sourceId)
      invariant forall a :: a in referenced <==> a in known || (a in path[..i] && AncestorOk(index, a, l.sourceId))
    {
      assert forall a :: a in path[..i + 1] <==> a in path[..i] || a == path[i] by {
        assert path[..i + 1] == path[..i] + [path[i]];
      }
      if AncestorOk(index, path[i], l.sourceId) {
        referenced := referenced + {path[i]};
      } else {
        ok := false;
      }
    }
    assert path[..|path|] == path;
  }

  /** A count kept in a map, zero when absent. */
  function Count(counts: map<string, nat>, id: string): nat { if id in counts then counts[id] else 0 }

  ghost predicate Counts<T>(counts: map<string, nat>, key: T -> string, s: seq<T>) {
    forall id :: Count(counts, id) == CountKey(key, s, id)
  }

  lemma CountOneMore<T>(counts: map<string, nat>, key: T -> string, s: seq<T>, i: nat)
    requires i < |s| && Counts(counts, key, s[..i])
    ensures Counts(counts[key(s[i]) := Count(counts, key(s[i])) + 1], key, s[..i + 1])
  {
    var x, next := key(s[i]), counts[key(s[i]) := Count(counts, key(s[i])) + 1];
    forall id ensures Count(next, id) == CountKey(key, s[..i + 1], id) {
      assert Count(counts, id) == CountKey(key, s[..i], id);
      CountKeyAppend(key, s, i, id);
    }
  }

  lemma CountKeyAppend<T>(key: T -> string, s: seq<T>, i: nat, id: string)
    requires i < |s|
    ensures CountKey(key, s[..i + 1], id) == CountKey(key, s[..i], id) + (if key(s[i]) == id then 1 else 0)
  {
    assert s[..i + 1] == s[..i] + [s[i]];
    KeysConcat(key, s[..i], [s[i]]);
    assert KeysOf(key, [s[i]]) == [key(s[i])];
  }

  method CheckLeaves(index: Index, ids: set<string>, leaves: seq<SourceLeaf>)
    returns (ok: bool, counts: map<string, nat>, referenced: set<Digest>)
    ensures ok <==> forall l :: l in leaves ==> LeafOk(index, ids, l)
    ensures Counts(counts, LeafFragmentKey(), leaves)
    ensures forall a :: a in referenced <==> Referenced(index, leaves, a)
  {
    hide LeafOk, AncestorOk, Counts, CountKey;
    ok, counts, referenced := true, map[], {};
    assert Counts(counts, LeafFragmentKey(), leaves[..0]) by { NothingCounted(LeafFragmentKey(), leaves); }
    for i := 0 to |leaves|
      invariant ok <==> forall l :: l in leaves[..i] ==> LeafOk(index, ids, l)
      invariant Counts(counts, LeafFragmentKey(), leaves[..i])
      invariant forall a :: a in referenced <==> Referenced(index, leaves[..i], a)
    {
      var l := leaves[i];
      assert forall k :: k in leaves[..i + 1] <==> k in leaves[..i] || k == l by {
        assert leaves[..i + 1] == leaves[..i] + [l];
      }
      CountOneMore(counts, LeafFragmentKey(), leaves, i);
      counts := counts[l.fragmentId := Count(counts, l.fragmentId) + 1];
      var fine: bool;
      fine, referenced := CheckLeaf(index, ids, l, referenced);
      ok := ok && fine;
    }
    assert leaves[..|leaves|] == leaves;
  }

  lemma NothingCounted<T>(key: T -> string, s: seq<T>)
    ensures Counts(map[], key, s[..0])
  {}

  ghost predicate RoleOk(ids: set<string>, counts: map<string, nat>, referenced: set<Digest>, f: Fragment) {
    && f.sourceId in ids
    && (f.role == ContainerRole ==> f.fragmentId in referenced)
    && (f.role != ContainerRole ==> Count(counts, f.fragmentId) == 1)
  }

  method CheckRoles(ids: set<string>, counts: map<string, nat>, referenced: set<Digest>, fragments: seq<Fragment>)
    returns (ok: bool)
    ensures ok <==> forall f :: f in fragments ==> RoleOk(ids, counts, referenced, f)
  {
    ok := true;
    for i := 0 to |fragments|
      invariant ok <==> forall f :: f in fragments[..i] ==> RoleOk(ids, counts, referenced, f)
    {
      var f := fragments[i];
      assert forall k :: k in fragments[..i + 1] <==> k in fragments[..i] || k == f by {
        assert fragments[..i + 1] == fragments[..i] + [f];
      }
      ghost var before := ok;
      if f.sourceId !in ids { ok := false; }
      if f.role == ContainerRole && f.fragmentId !in referenced { ok := false; }
      if f.role != ContainerRole && Count(counts, f.fragmentId) != 1 { ok := false; }
      assert ok <==> before && RoleOk(ids, counts, referenced, f);
    }
    assert fragments[..|fragments|] == fragments;
  }

  ghost predicate IssueOk(index: Index, i: Issue) { i.fragmentId in index && IssueMatches(i, index[i.fragmentId]) }

  method CheckIssues(index: Index, issues: seq<Issue>) returns (ok: bool, counts: map<string, nat>)
    ensures ok <==> forall i :: i in issues ==> IssueOk(index, i)
    ensures Counts(counts, IssueKey(), issues)
  {
    hide Counts, CountKey;
    ok, counts := true, map[];
    assert Counts(counts, IssueKey(), issues[..0]) by { NothingCounted(IssueKey(), issues); }
    for n := 0 to |issues|
      invariant ok <==> forall i :: i in issues[..n] ==> IssueOk(index, i)
      invariant Counts(counts, IssueKey(), issues[..n])
    {
      var issue := issues[n];
      assert forall k :: k in issues[..n + 1] <==> k in issues[..n] || k == issue by {
        assert issues[..n + 1] == issues[..n] + [issue];
      }
      ghost var before := ok;
      if issue.fragmentId !in index || !IssueMatches(issue, index[issue.fragmentId]) { ok := false; }
      assert ok <==> before && IssueOk(index, issue);
      CountOneMore(counts, IssueKey(), issues, n);
      counts := counts[issue.fragmentId := Count(counts, issue.fragmentId) + 1];
    }
    assert issues[..|issues|] == issues;
  }

  method CheckStopped(counts: map<string, nat>, fragments: seq<Fragment>) returns (ok: bool)
    ensures ok <==> forall f :: f in fragments && f.role == UntraversableRole ==> Count(counts, f.fragmentId) == 1
  {
    ok := true;
    for i := 0 to |fragments|
      invariant ok <==> forall f :: f in fragments[..i] && f.role == UntraversableRole ==>
                          Count(counts, f.fragmentId) == 1
    {
      var f := fragments[i];
      assert forall k :: k in fragments[..i + 1] <==> k in fragments[..i] || k == f by {
        assert fragments[..i + 1] == fragments[..i] + [f];
      }
      if f.role == UntraversableRole && Count(counts, f.fragmentId) != 1 { ok := false; }
    }
    assert fragments[..|fragments|] == fragments;
  }

  predicate AtRoot(f: Fragment, s: Source) { f.sourceId == s.sourceId && f.jsonPointer == s.effectJsonPointer }

  ghost predicate Rooted(fragments: seq<Fragment>, s: Source) { exists f :: f in fragments && IsRoot(f, s) }

  /** `fragments.find(...)` at the declared pointer, and its digest. */
  method FindRoot(fragments: seq<Fragment>, s: Source) returns (ok: bool)
    requires DistinctKeys(JoinedKey(), fragments)
    ensures ok <==> Rooted(fragments, s)
  {
    for i := 0 to |fragments|
      invariant forall f :: f in fragments[..i] ==> !AtRoot(f, s)
    {
      if AtRoot(fragments[i], s) {
        OnlyRoot(fragments, s, i);
        assert fragments[i] in fragments;
        return fragments[i].fragmentSha256 == s.effectSha256;
      }
      assert fragments[..i + 1] == fragments[..i] + [fragments[i]];
    }
    assert fragments[..|fragments|] == fragments;
    return false;
  }

  lemma OnlyRoot(fragments: seq<Fragment>, s: Source, i: nat)
    requires DistinctKeys(JoinedKey(), fragments) && i < |fragments| && AtRoot(fragments[i], s)
    ensures forall f :: f in fragments && AtRoot(f, s) ==> f == fragments[i]
  {
    forall f | f in fragments && AtRoot(f, s) ensures f == fragments[i] {
      SameKeySame(JoinedKey(), fragments, fragments[i], f);
    }
  }

  method CheckRoots(fragments: seq<Fragment>, sources: seq<Source>) returns (ok: bool)
    requires DistinctKeys(JoinedKey(), fragments)
    ensures ok <==> forall s :: s in sources ==> Rooted(fragments, s)
  {
    ok := true;
    for i := 0 to |sources|
      invariant ok <==> forall s :: s in sources[..i] ==> Rooted(fragments, s)
    {
      assert forall k :: k in sources[..i + 1] <==> k in sources[..i] || k == sources[i] by {
        assert sources[..i + 1] == sources[..i] + [sources[i]];
      }
      var fine := FindRoot(fragments, sources[i]);
      ok := ok && fine;
    }
    assert sources[..|sources|] == sources;
  }

  method CheckIds(inv: Inventory) returns (ok: bool)
    ensures ok <==> IdsDistinct(inv)
  {
    var a := UniqueKeys(SourceKey(), inv.sources);
    var b := UniqueKeys(FragmentKey(), inv.fragments);
    var c := UniqueKeys(JoinedKey(), inv.fragments);
    var d := UniqueKeys(LeafKey(), inv.leaves);
    ok := a && b && c && d;
  }

  // ---- The passes together ----

  /** What the passes after the id checks find together. */
  ghost predicate PassesAccept(inv: Inventory, index: Index, ids: set<string>, counts: map<string, nat>,
                               referenced: set<Digest>, issueCounts: map<string, nat>) {
    && (forall l :: l in inv.leaves ==> LeafOk(index, ids, l))
    && (forall f :: f in inv.fragments ==> RoleOk(ids, counts, referenced, f))
    && (forall i :: i in inv.issues ==> IssueOk(index, i))
    && (forall f :: f in inv.fragments && f.role == UntraversableRole ==> Count(issueCounts, f.fragmentId) == 1)
    && (forall s :: s in inv.sources ==> Rooted(inv.fragments, s))
  }

  /** `validateCombatSourceLeafInventoryShape`: accepts exactly the valid inventories. */
  method Validate(inv: Inventory) returns (valid: bool)
    ensures valid <==> ValidInventory(inv)
  {
    hide IdsDistinct, LeafOk, RoleOk, IssueOk, Counts, ById, Referenced, Count;
    var distinct := CheckIds(inv);
    if !distinct { return false; }
    IdsMeanDistinct(inv);
    var ids := SourceIds(inv.sources);
    var index := IndexFragments(inv.fragments);
    var leavesOk, counts, referenced := CheckLeaves(index, ids, inv.leaves);
    var rolesOk := CheckRoles(ids, counts, referenced, inv.fragments);
    var issuesOk, issueCounts := CheckIssues(index, inv.issues);
    var stoppedOk := CheckStopped(issueCounts, inv.fragments);
    var rootsOk := CheckRoots(inv.fragments, inv.sources);
    valid := leavesOk && rolesOk && issuesOk && stoppedOk && rootsOk;
    assert valid <==> PassesAccept(inv, index, ids, counts, referenced, issueCounts);
    PassesAcceptIffValid(inv, index, ids, counts, referenced, issueCounts);
  }

  lemma IdsMeanDistinct(inv: Inventory)
    requires IdsDistinct(inv)
    ensures DistinctKeys(FragmentKey(), inv.fragments) && DistinctKeys(JoinedKey(), inv.fragments)
  {}

  lemma IndexedExactly(index: Index, fragments: seq<Fragment>, f: Fragment)
    requires ById(index, fragments) && DistinctKeys(FragmentKey(), fragments) && f in fragments
    ensures f.fragmentId in index && index[f.fragmentId] == f
  {
    SameKeySame(FragmentKey(), fragments, index[f.fragmentId], f);
  }

  lemma LeafOkIff(inv: Inventory, index: Index, ids: set<string>, l: SourceLeaf)
    requires ById(index, inv.fragments) && DistinctKeys(FragmentKey(), inv.fragments)
    requires forall id :: id in ids <==> HasSource(inv, id)
    ensures LeafOk(index, ids, l) <==> LeafSound(inv, l)
  {
    hide DistinctKeys, HasSource, NoRepeats;
    forall f | f in inv.fragments ensures f.fragmentId in index && index[f.fragmentId] == f {
      IndexedExactly(index, inv.fragments, f);
    }
    forall a ensures AncestorOk(index, a, l.sourceId) <==> AncestorSound(inv, a, l.sourceId) {}
  }

  lemma IssueOkIff(inv: Inventory, index: Index, i: Issue)
    requires ById(index, inv.fragments) && DistinctKeys(FragmentKey(), inv.fragments)
    ensures IssueOk(index, i) <==> IssueSound(inv, i)
  {
    hide DistinctKeys;
    forall f | f in inv.fragments ensures f.fragmentId in index && index[f.fragmentId] == f {
      IndexedExactly(index, inv.fragments, f);
    }
  }

  /** A container the passes noted is a container on some leaf's path, when every leaf is in order. */
  lemma ReferencedIff(index: Index, ids: set<string>, leaves: seq<SourceLeaf>, a: Digest)
    requires forall l :: l in leaves ==> LeafOk(index, ids, l)
    ensures Referenced(index, leaves, a) <==> OnSomePath(leaves, a)
  {
    hide AncestorOk;
    if OnSomePath(leaves, a) {
      var l :| l in leaves && a in l.ancestorFragmentIds;
      assert AncestorOk(index, a, l.sourceId);
    }
  }

  lemma PassesAcceptIffValid(inv: Inventory, index: Index, ids: set<string>, counts: map<string, nat>,
                             referenced: set<Digest>, issueCounts: map<string, nat>)
    requires IdsDistinct(inv) && ById(index, inv.fragments)
    requires forall id :: id in ids <==> HasSource(inv, id)
    requires Counts(counts, LeafFragmentKey(), inv.leaves) && Counts(issueCounts, IssueKey(), inv.issues)
    requires forall a :: a in referenced <==> Referenced(index, inv.leaves, a)
    ensures PassesAccept(inv, index, ids, counts, referenced, issueCounts) <==> ValidInventory(inv)
  {
    hide LeafOk, IssueOk, LeafSound, IssueSound, HasSource, Referenced, OnSomePath, DistinctKeys, CountKey, Count, ById;
    forall l ensures LeafOk(index, ids, l) <==> LeafSound(inv, l) { LeafOkIff(inv, index, ids, l); }
    forall i ensures IssueOk(index, i) <==> IssueSound(inv, i) { IssueOkIff(inv, index, i); }
    assert forall s :: Rooted(inv.fragments, s) <==> RootSound(inv, s);
    if forall l :: l in inv.leaves ==> LeafSound(inv, l) {
      forall a ensures a in referenced <==> OnSomePath(inv.leaves, a) { ReferencedIff(index, ids, inv.leaves, a); }
    }
  }
}
