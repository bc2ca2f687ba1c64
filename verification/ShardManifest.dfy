/**
  lib/rosterpilot/data-bundle.ts:220-384, `validateManifestGraph`, and 1377-1441, the snapshot built
  from an accepted manifest: which shard answers for a faction.
 */
module ShardManifest {
  import opened Sequences
  import opened Wrappers
  import opened ShardGraph

  datatype Retained = Retained(shardId: string, sourceContentSha256: string, sourceSemanticHash: string)

  /** `factions` is the semantic inventory, one hash per faction; `retained` is there in composed bundles. */
  datatype Manifest = Manifest(shards: seq<Shard>, factions: map<string, string>, retained: Option<seq<Retained>>)

  // ---- What an accepted manifest is ----

  ghost predicate Declares(shards: seq<Shard>, id: string) { exists s :: s in shards && s.shardId == id }

  ghost predicate UniqueIds(shards: seq<Shard>) {
    forall i, j :: 0 <= i < j < |shards| ==> shards[i].shardId != shards[j].shardId
  }

  ghost predicate Owns(shards: seq<Shard>, i: int, f: string) { 0 <= i < |shards| && f in shards[i].factionIds }

  /** Every faction has one owner, listed once. */
  ghost predicate OwnedOnce(shards: seq<Shard>) {
    && (forall i, j, f :: Owns(shards, i, f) && Owns(shards, j, f) ==> i == j)
    && (forall s :: s in shards ==> NoRepeats(s.factionIds))
  }

  /** How many global shards there are. */
  function Globals(shards: seq<Shard>): nat {
    if shards == [] then 0
    else Globals(shards[..|shards| - 1]) + (if shards[|shards| - 1].kind == GlobalShard then 1 else 0)
  }

  ghost predicate DependenciesKnown(shards: seq<Shard>, s: Shard) {
    forall d :: d in s.dependencyShardIds ==> d != s.shardId && Declares(shards, d)
  }

  ghost predicate RetainedSound(shards: seq<Shard>, r: Retained) {
    exists s :: s in shards && s.shardId == r.shardId && s.kind == FactionShard
             && s.contentSha256 == r.sourceContentSha256 && s.semanticHash == r.sourceSemanticHash
  }

  ghost predicate Described(g: Graph, shards: seq<Shard>) {
    && (forall s :: s in shards ==> s.shardId in g)
    && (forall id :: id in g ==> g[id] in shards && g[id].shardId == id)
  }

  /** No shard depends on itself, directly or through others. */
  ghost predicate Acyclic(shards: seq<Shard>) { forall g :: Described(g, shards) ==> !HasCycle(g) }

  ghost predicate ValidManifest(m: Manifest) {
    && UniqueIds(m.shards) && Globals(m.shards) == 1 && OwnedOnce(m.shards)
    && (forall s :: s in m.shards ==> DependenciesKnown(m.shards, s))
    && (forall f :: f in m.factions <==> exists i :: Owns(m.shards, i, f))
    && (m.retained.Some? ==> forall r :: r in m.retained.value ==> RetainedSound(m.shards, r))
    && Acyclic(m.shards)
  }

  // ---- The passes ----

  /** `new Map(shards.map(...))` and its keys in order. */
  method Describe(shards: seq<Shard>) returns (g: Graph, ids: seq<string>)
    ensures Described(g, shards) && forall x :: x in ids <==> x in g
    ensures |ids| == |shards| <==> UniqueIds(shards)
  {
    g, ids := map[], [];
    for i := 0 to |shards|
      invariant Described(g, shards[..i]) && (forall x :: x in ids <==> x in g)
      invariant |ids| <= i && (|ids| == i <==> UniqueIds(shards[..i]))
    {
      var s := shards[i];
      UniqueAppend(shards, i);
      assert s.shardId in g <==> Declares(shards[..i], s.shardId);
      if s.shardId !in g { ids := ids + [s.shardId]; }
      g := g[s.shardId := s];
    }
    assert shards[..|shards|] == shards;
  }

  lemma UniqueAppend(shards: seq<Shard>, i: nat)
    requires i < |shards|
    ensures shards[..i + 1] == shards[..i] + [shards[i]]
    ensures UniqueIds(shards[..i + 1]) <==> UniqueIds(shards[..i]) && !Declares(shards[..i], shards[i].shardId)
  {
    var a, b := shards[..i], shards[..i + 1];
    if UniqueIds(b) {
      forall j, k | 0 <= j < k < |a| ensures a[j].shardId != a[k].shardId { assert b[j].shardId != b[k].shardId; }
      forall j | 0 <= j < |a| ensures a[j].shardId != shards[i].shardId { assert b[j].shardId != b[i].shardId; }
    }
  }

  method CountGlobals(shards: seq<Shard>) returns (n: nat)
    ensures n == Globals(shards)
  {
    n := 0;
    for i := 0 to |shards|
      invariant n == Globals(shards[..i])
    {
      assert shards[..i + 1][..i] == shards[..i];
      if shards[i].kind == GlobalShard { n := n + 1; }
    }
    assert shards[..|shards|] == shards;
  }

  /** The first `n` dependencies are other shards of the manifest. */
  ghost predicate Known(g: Graph, s: Shard, n: nat)
    requires n <= |s.dependencyShardIds|
  {
    forall i :: 0 <= i < n ==> s.dependencyShardIds[i] != s.shardId && s.dependencyShardIds[i] in g
  }

  method CheckDependencies(g: Graph, s: Shard) returns (ok: bool)
    ensures ok <==> forall d :: d in s.dependencyShardIds ==> d != s.shardId && d in g
  {
    ok := true;
    var all := s.dependencyShardIds;
    for i := 0 to |all|
      invariant ok <==> Known(g, s, i)
    {
      if all[i] == s.shardId || all[i] !in g { ok := false; }
    }
    AllKnown(g, s);
  }

  lemma AllKnown(g: Graph, s: Shard)
    ensures Known(g, s, |s.dependencyShardIds|) <==> forall d :: d in s.dependencyShardIds ==> d != s.shardId && d in g
  {
    forall i | 0 <= i < |s.dependencyShardIds| ensures s.dependencyShardIds[i] in s.dependencyShardIds {}
  }

  /** The owners recorded after the first `i` shards. */
  ghost predicate OwnersOf(owners: map<string, string>, shards: seq<Shard>) {
    && (forall f :: f in owners <==> exists i :: Owns(shards, i, f))
    && (forall f :: f in owners ==> exists i :: Owns(shards, i, f) && shards[i].shardId == owners[f])
  }

  /** One shard's factions: each must be new. */
  method ClaimFactions(owners: map<string, string>, s: Shard) returns (ok: bool, after: map<string, string>)
    ensures ok <==> NoRepeats(s.factionIds) && forall f :: f in s.factionIds ==> f !in owners
    ensures forall f :: f in after <==> f in owners || f in s.factionIds
    ensures forall f :: f in after ==> after[f] == if f in owners then owners[f] else s.shardId
  {
    ok, after := true, owners;
    var all := s.factionIds;
    for i := 0 to |all|
      invariant ok <==> NoRepeats(all[..i]) && forall f :: f in all[..i] ==> f !in owners
      invariant forall f :: f in after <==> f in owners || f in all[..i]
      invariant forall f :: f in after ==> after[f] == if f in owners then owners[f] else s.shardId
    {
      NoRepeatsAppend(all, i);
      if all[i] in after { ok := false; } else { after := after[all[i] := s.shardId]; }
    }
    assert all[..|all|] == all;
  }

  lemma OwnedAppend(owners: map<string, string>, shards: seq<Shard>, i: nat)
    requires i < |shards| && OwnersOf(owners, shards[..i])
    ensures shards[..i + 1] == shards[..i] + [shards[i]]
    ensures OwnedOnce(shards[..i + 1]) <==>
              OwnedOnce(shards[..i]) && NoRepeats(shards[i].factionIds) &&
              forall f :: f in shards[i].factionIds ==> f !in owners
  {
    hide NoRepeats;
    var a, b := shards[..i], shards[..i + 1];
    assert forall j, f :: Owns(b, j, f) <==> Owns(a, j, f) || (j == i && f in shards[i].factionIds);
    if OwnedOnce(b) {
      forall f | f in shards[i].factionIds ensures f !in owners {
        assert Owns(b, i, f);
        forall j ensures !Owns(a, j, f) { assert Owns(a, j, f) ==> Owns(b, j, f); }
      }
      assert forall s :: s in a ==> s in b;
      assert shards[i] in b;
    }
  }

  lemma OwnersAppend(owners: map<string, string>, after: map<string, string>, shards: seq<Shard>, i: nat)
    requires i < |shards| && OwnersOf(owners, shards[..i])
    requires forall f :: f in after <==> f in owners || f in shards[i].factionIds
    requires forall f :: f in after ==> after[f] == if f in owners then owners[f] else shards[i].shardId
    ensures OwnersOf(after, shards[..i + 1])
  {
    var a, b := shards[..i], shards[..i + 1];
    forall f | f in after ensures exists j :: Owns(b, j, f) && b[j].shardId == after[f] {
      if f in owners {
        var j :| Owns(a, j, f) && a[j].shardId == owners[f];
        assert Owns(b, j, f) && b[j] == a[j];
      } else {
        assert Owns(b, i, f);
      }
    }
    forall j, f | Owns(b, j, f) ensures f in after {
      if j < i { assert Owns(a, j, f); }
    }
  }

  method CheckShards(g: Graph, shards: seq<Shard>) returns (known: bool, ownedOnce: bool, owners: map<string, string>)
    ensures known <==> forall s :: s in shards ==> DepsIn(g, s)
    ensures ownedOnce <==> OwnedOnce(shards)
    ensures OwnersOf(owners, shards)
  {
    hide DepsIn, OwnedOnce, OwnersOf, NoRepeats;
    known, ownedOnce, owners := true, true, map[];
    NothingOwned(shards);
    for i := 0 to |shards|
      invariant known <==> forall s :: s in shards[..i] ==> DepsIn(g, s)
      invariant ownedOnce <==> OwnedOnce(shards[..i])
      invariant OwnersOf(owners, shards[..i])
    {
      OwnedAppend(owners, shards, i);
      var fine := CheckDependencies(g, shards[i]);
      assert fine <==> DepsIn(g, shards[i]) by { DepsInMeans(g, shards[i]); }
      known := known && fine;
      var claimed, after := ClaimFactions(owners, shards[i]);
      ownedOnce := ownedOnce && claimed;
      OwnersAppend(owners, after, shards, i);
      owners := after;
    }
    assert shards[..|shards|] == shards;
  }

  ghost predicate DepsIn(g: Graph, s: Shard) { forall d :: d in s.dependencyShardIds ==> d != s.shardId && d in g }

  lemma DepsInMeans(g: Graph, s: Shard)
    ensures DepsIn(g, s) <==> forall d :: d in s.dependencyShardIds ==> d != s.shardId && d in g
  {}

  lemma NothingOwned(shards: seq<Shard>)
    ensures OwnedOnce(shards[..0]) && OwnersOf(map[], shards[..0])
  {}

  predicate RetainedOk(g: Graph, r: Retained) {
    && r.shardId in g && g[r.shardId].kind == FactionShard
    && g[r.shardId].contentSha256 == r.sourceContentSha256 && g[r.shardId].semanticHash == r.sourceSemanticHash
  }

  method CheckRetained(g: Graph, retained: seq<Retained>) returns (ok: bool)
    ensures ok <==> forall r :: r in retained ==> RetainedOk(g, r)
  {
    ok := true;
    for i := 0 to |retained|
      invariant ok <==> forall j :: 0 <= j < i ==> RetainedOk(g, retained[j])
    {
      if !RetainedOk(g, retained[i]) { ok := false; }
    }
  }

  /** With distinct ids there is one map of descriptors. */
  lemma DescribedOnce(g: Graph, h: Graph, shards: seq<Shard>)
    requires UniqueIds(shards) && Described(g, shards) && Described(h, shards)
    ensures g == h
  {
    forall id | id in g ensures id in h && g[id] == h[id] {
      assert g[id] in shards;
      var i :| 0 <= i < |shards| && shards[i] == g[id];
      var j :| 0 <= j < |shards| && shards[j] == h[id];
      assert i == j;
    }
    forall id | id in h ensures id in g { assert h[id] in shards; }
  }

  lemma AcyclicMeans(g: Graph, shards: seq<Shard>)
    requires UniqueIds(shards) && Described(g, shards)
    ensures Acyclic(shards) <==> !HasCycle(g)
  {
    forall h | Described(h, shards) ensures HasCycle(h) <==> HasCycle(g) { DescribedOnce(g, h, shards); }
  }

  lemma DescribedFacts(g: Graph, shards: seq<Shard>)
    requires UniqueIds(shards) && Described(g, shards)
    ensures forall s :: s in shards ==> g[s.shardId] == s
    ensures forall id :: id in g <==> Declares(shards, id)
    ensures forall s :: DepsIn(g, s) <==> DependenciesKnown(shards, s)
    ensures forall r :: RetainedOk(g, r) <==> RetainedSound(shards, r)
  {
    forall s | s in shards ensures g[s.shardId] == s {
      var i :| 0 <= i < |shards| && shards[i] == s;
      var j :| 0 <= j < |shards| && shards[j] == g[s.shardId];
      assert i == j;
    }
  }

  /** `validateManifestGraph` raises no issue exactly on the valid manifests. */
  method ValidateManifest(m: Manifest) returns (accepted: bool)
    ensures accepted <==> ValidManifest(m)
  {
    hide UniqueIds, Globals, OwnedOnce, DependenciesKnown, RetainedSound, Acyclic, Described, DepsIn, RetainedOk,
      OwnersOf;
    var g, ids := Describe(m.shards);
    var unique := |ids| == |m.shards|;
    var globals := CountGlobals(m.shards);
    var known, ownedOnce, owners := CheckShards(g, m.shards);
    var inventoried := owners.Keys == m.factions.Keys;
    var retainedOk := true;
    if m.retained.Some? { retainedOk := CheckRetained(g, m.retained.value); }
    var acyclic, order := VisitAll(g, ids);
    accepted := unique && globals == 1 && known && ownedOnce && inventoried && retainedOk && acyclic;
    if unique {
      DescribedFacts(g, m.shards);
      AcyclicMeans(g, m.shards);
      OwnersKeys(owners, m);
    }
  }

  lemma OwnersKeys(owners: map<string, string>, m: Manifest)
    requires OwnersOf(owners, m.shards)
    ensures owners.Keys == m.factions.Keys <==> forall f :: f in m.factions <==> exists i :: Owns(m.shards, i, f)
  {
    assert forall f :: f in owners.Keys <==> exists i :: Owns(m.shards, i, f);
    if forall f :: f in m.factions <==> exists i :: Owns(m.shards, i, f) {
      assert forall f :: f in owners.Keys <==> f in m.factions.Keys;
    }
    if owners.Keys == m.factions.Keys {
      assert forall f :: f in m.factions <==> f in m.factions.Keys;
    }
  }

  // ---- The snapshot ----

  datatype Loaded<D> = Loaded(shardId: string, data: D)

  datatype SnapshotError = RepeatedShard | UndeclaredShard | MissingShard

  datatype Snapshot<D> = Snapshot(manifest: Manifest, shards: map<string, Loaded<D>>,
                                  factionOwners: map<string, string>) {
    function GetShard(shardId: string): Option<Loaded<D>> {
      if shardId in shards then Some(shards[shardId]) else None
    }

    function GetFactionShard(factionId: string): Option<Loaded<D>> {
      if factionId in factionOwners && factionOwners[factionId] != "" then GetShard(factionOwners[factionId]) else None
    }
  }

  ghost predicate Holds<D>(shards: map<string, Loaded<D>>, input: seq<Loaded<D>>) {
    && (forall l :: l in input ==> l.shardId in shards)
    && (forall id :: id in shards ==> shards[id] in input && shards[id].shardId == id)
  }

  ghost predicate LoadedOnce<D>(input: seq<Loaded<D>>) {
    forall i, j :: 0 <= i < j < |input| ==> input[i].shardId != input[j].shardId
  }

  method CollectShards<D>(input: seq<Loaded<D>>) returns (once: bool, shards: map<string, Loaded<D>>)
    ensures once <==> LoadedOnce(input)
    ensures once ==> Holds(shards, input)
  {
    shards := map[];
    for i := 0 to |input|
      invariant Holds(shards, input[..i]) && LoadedOnce(input[..i])
    {
      LoadedAppend(input, i);
      if input[i].shardId in shards {
        assert shards[input[i].shardId] in input[..i];
        LoadedPrefix(input, i + 1);
        return false, shards;
      }
      shards := shards[input[i].shardId := input[i]];
    }
    assert input[..|input|] == input;
    once := true;
  }

  lemma LoadedAppend<D>(input: seq<Loaded<D>>, i: nat)
    requires i < |input|
    ensures input[..i + 1] == input[..i] + [input[i]]
    ensures LoadedOnce(input[..i + 1]) <==>
            LoadedOnce(input[..i]) && forall l :: l in input[..i] ==> l.shardId != input[i].shardId
  {
    var a, b := input[..i], input[..i + 1];
    if LoadedOnce(b) {
      forall j, k | 0 <= j < k < |a| ensures a[j].shardId != a[k].shardId { assert b[j].shardId != b[k].shardId; }
      forall j | 0 <= j < |a| ensures a[j].shardId != input[i].shardId { assert b[j].shardId != b[i].shardId; }
    }
  }

  lemma LoadedPrefix<D>(input: seq<Loaded<D>>, n: nat)
    requires n <= |input|
    ensures LoadedOnce(input) ==> LoadedOnce(input[..n])
  {}

  /** `factionOwners`: the last shard that lists a faction. */
  method CollectOwners(shards: seq<Shard>) returns (owners: map<string, string>)
    ensures OwnersOf(owners, shards)
  {
    hide OwnersOf;
    owners := map[];
    NothingOwned(shards);
    for i := 0 to |shards|
      invariant OwnersOf(owners, shards[..i])
    {
      var before, all := owners, shards[i].factionIds;
      for j := 0 to |all|
        invariant forall f :: f in owners <==> f in before || f in all[..j]
        invariant forall f :: f in owners ==> owners[f] == if f in all[..j] then shards[i].shardId else before[f]
      {
        assert all[..j + 1] == all[..j] + [all[j]];
        assert forall f :: f in all[..j + 1] <==> f in all[..j] || f == all[j];
        owners := owners[all[j] := shards[i].shardId];
      }
      assert all[..|all|] == all;
      LaterOwnersAppend(before, owners, shards, i);
    }
    assert shards[..|shards|] == shards;
  }

  lemma LaterOwnersAppend(owners: map<string, string>, after: map<string, string>, shards: seq<Shard>, i: nat)
    requires i < |shards| && OwnersOf(owners, shards[..i])
    requires forall f :: f in after <==> f in owners || f in shards[i].factionIds
    requires forall f :: f in after ==> after[f] == if f in shards[i].factionIds then shards[i].shardId else owners[f]
    ensures OwnersOf(after, shards[..i + 1])
  {
    var a, b := shards[..i], shards[..i + 1];
    forall f | f in after ensures exists j :: Owns(b, j, f) && b[j].shardId == after[f] {
      if f in shards[i].factionIds {
        assert Owns(b, i, f);
      } else {
        var j :| Owns(a, j, f) && a[j].shardId == owners[f];
        assert Owns(b, j, f) && b[j] == a[j];
      }
    }
    forall j, f | Owns(b, j, f) ensures f in after {
      if j < i { assert Owns(a, j, f); }
    }
  }

  /** A snapshot of exactly the declared shards. */
  ghost predicate SnapshotOf<D>(m: Manifest, input: seq<Loaded<D>>, s: Snapshot<D>) {
    && s.manifest == m && Holds(s.shards, input) && OwnersOf(s.factionOwners, m.shards)
    && forall id :: id in s.shards <==> Declares(m.shards, id)
  }

  /** `createDataBundleSnapshot`: possible exactly when every declared shard is loaded once and no other is. */
  method CreateSnapshot<D>(m: Manifest, input: seq<Loaded<D>>) returns (r: Result<Snapshot<D>, SnapshotError>)
    ensures r.Ok? <==>
            LoadedOnce(input) && forall id :: Declares(m.shards, id) <==> exists l :: l in input && l.shardId == id
    ensures r.Ok? ==> SnapshotOf(m, input, r.value)
    ensures r == Err(RepeatedShard) <==> !LoadedOnce(input)
    ensures r == Err(UndeclaredShard) <==> LoadedOnce(input) && exists l :: l in input && !Declares(m.shards, l.shardId)
  {
    hide LoadedOnce, OwnersOf, Described, UniqueIds;
    var once, shards := CollectShards(input);
    if !once { return Err(RepeatedShard); }
    var g, ids := Describe(m.shards);
    assert forall id :: id in g <==> Declares(m.shards, id) by { DescribedIds(g, m.shards); }
    assert forall id :: id in shards <==> exists l :: l in input && l.shardId == id;
    if !(shards.Keys <= g.Keys) {
      var id :| id in shards.Keys && id !in g.Keys;
      assert shards[id] in input;
      return Err(UndeclaredShard);
    }
    assert forall l :: l in input ==> Declares(m.shards, l.shardId) by {
      forall l | l in input ensures Declares(m.shards, l.shardId) { assert l.shardId in shards.Keys; }
    }
    if !(g.Keys <= shards.Keys) {
      var id :| id in g.Keys && id !in shards.Keys;
      return Err(MissingShard);
    }
    assert forall id :: id in shards <==> id in g by { assert shards.Keys == g.Keys; }
    var owners := CollectOwners(m.shards);
    r := Ok(Snapshot(m, shards, owners));
  }

  lemma DescribedIds(g: Graph, shards: seq<Shard>)
    requires Described(g, shards)
    ensures forall id :: id in g <==> Declares(shards, id)
  {}

  /**
    In a snapshot of a valid manifest every inventoried faction is answered by the one loaded shard
    whose descriptor owns it, and no other faction is answered.
   */
  lemma FactionAnswered<D>(m: Manifest, input: seq<Loaded<D>>, s: Snapshot<D>, f: string)
    requires ValidManifest(m) && SnapshotOf(m, input, s) && forall d :: d in m.shards ==> d.shardId != ""
    ensures f in m.factions <==> s.GetFactionShard(f).Some?
    ensures f in m.factions ==> s.GetFactionShard(f).value in input
    ensures forall i :: Owns(m.shards, i, f) ==>
              s.GetFactionShard(f).Some? && s.GetFactionShard(f).value.shardId == m.shards[i].shardId
  {
    hide Globals, DependenciesKnown, RetainedSound, Acyclic;
    if f in s.factionOwners {
      var i :| Owns(m.shards, i, f) && m.shards[i].shardId == s.factionOwners[f];
      assert m.shards[i] in m.shards;
      assert Declares(m.shards, m.shards[i].shardId);
    }
  }
}
