/**
  scripts/build-data-bundle.ts:506-523, 807-934 and lib/rosterpilot/data-bundle.ts:462-510: what is
  in an output root of signed data bundles, and what a reader of its channel pointer relies on.
 */
module ChannelState {
  import opened Wrappers

  type Digest = string

  datatype Transition = Publication(fromBundleId: Option<string>) | Rollback(rolledBackFrom: string)

  /** Pointers of schema 1 carry no revision and no predecessor. */
  datatype Pointer =
    | PointerV1(bundleId: string)
    | PointerV2(bundleId: string, revision: int, previous: Option<Digest>, transition: Transition, publishedAt: string)

  datatype Descriptor = Descriptor(shardId: string, path: string, contentSha256: Digest)

  datatype Manifest = Manifest(bundleId: string, shards: seq<Descriptor>)

  datatype Shard = Shard(shardId: string, data: string)

  datatype Bundle = Bundle(manifest: Manifest, shards: seq<Shard>)

  /** Content of a file; a write that was cut off left some part of it. */
  datatype Blob =
    | ShardBlob(shard: Shard)
    | ManifestBlob(manifest: Manifest)
    | PointerBlob(pointer: Pointer)
    | ReportBlob(report: string)
    | Torn(part: string)

  datatype Path =
    | ShardPath(bundleId: string, path: string)
    | ManifestPath(bundleId: string)
    | HistoryPath(digest: Digest)
    | ReportPath
    | PointerPath
    | TemporaryPath(target: Path)

  type Files = map<Path, Blob>

  /** The two digests: of a pointer (collision-free) and of a shard. */
  datatype Digests = Digests(ofPointer: Pointer -> Digest, ofShard: Shard -> Digest)

  predicate Immutable(path: Path) { path.ShardPath? || path.ManifestPath? || path.HistoryPath? }

  /** No immutable file, finished or torn, is changed or removed. */
  ghost predicate Keeps(before: Files, after: Files) {
    forall p :: p in before && Immutable(p) ==> p in after && after[p] == before[p]
  }

  /** One immutable file to write: its path and its content. */
  datatype Write = Write(path: Path, blob: Blob)

  /** No write meets other content: neither on disk nor from an earlier write of the list. */
  ghost predicate Agrees(files: Files, writes: seq<Write>) {
    && (forall w :: w in writes && w.path in files ==> files[w.path] == w.blob)
    && forall v, w :: v in writes && w in writes && v.path == w.path ==> v.blob == w.blob
  }

  /** The immutable files afterwards are those from before and the writes. */
  ghost predicate Written(before: Files, after: Files, writes: seq<Write>) {
    && Keeps(before, after)
    && (forall w :: w in writes ==> w.path in after && after[w.path] == w.blob)
    && forall p :: p in after && Immutable(p) ==> p in before || exists w :: w in writes && w.path == p
  }

  lemma WrittenAgrees(before: Files, after: Files, writes: seq<Write>)
    requires Written(before, after, writes) && forall w :: w in writes ==> Immutable(w.path)
    ensures Agrees(before, writes)
  {}

  /** The next write meets other content exactly when the list with it does. */
  lemma NextAgrees(before: Files, now: Files, writes: seq<Write>, w: Write)
    requires Written(before, now, writes) && Immutable(w.path) && forall v :: v in writes ==> Immutable(v.path)
    ensures Agrees(before, writes + [w]) <==> (w.path in now ==> now[w.path] == w.blob)
  {
    WrittenAgrees(before, now, writes);
    assert w in writes + [w];
    if Agrees(before, writes + [w]) && w.path in now && w.path !in before {
      var v :| v in writes && v.path == w.path;
      assert v in writes + [w];
    }
    if w.path in now ==> now[w.path] == w.blob {
      forall v | v in writes + [w]
        ensures (v.path in before ==> before[v.path] == v.blob) && (v.path == w.path ==> v.blob == w.blob) {
        if v != w { assert v in writes && now[v.path] == v.blob; }
      }
    }
  }

  lemma AgreesWithin(files: Files, some: seq<Write>, all: seq<Write>)
    requires Agrees(files, all) && forall w :: w in some ==> w in all
    ensures Agrees(files, some)
  {}

  /** A torn file where finished content belongs stays torn, so that content can never be written there. */
  lemma TornStays(before: Files, after: Files, writes: seq<Write>, w: Write)
    requires Keeps(before, after) && w in writes && !w.blob.Torn?
    requires Immutable(w.path) && w.path in before && before[w.path].Torn?
    ensures !Agrees(after, writes)
  {}

  /** One path holds what it held. */
  predicate Same(before: Files, after: Files, p: Path) {
    (p in after <==> p in before) && (p in after && p in before ==> after[p] == before[p])
  }

  // ---- Bundles ----

  /** The signed bundle lists each of its shards once, under its digest. */
  ghost predicate WellSigned(h: Digests, b: Bundle) {
    && (forall i, j :: 0 <= i < j < |b.manifest.shards| ==>
          b.manifest.shards[i].shardId != b.manifest.shards[j].shardId)
    && (forall d :: d in b.manifest.shards ==>
          exists s :: s in b.shards && s.shardId == d.shardId && h.ofShard(s) == d.contentSha256)
    && (forall i, j :: 0 <= i < j < |b.shards| ==> b.shards[i].shardId != b.shards[j].shardId)
  }

  ghost predicate ShardInPlace(h: Digests, files: Files, bundleId: string, d: Descriptor) {
    var p := ShardPath(bundleId, d.path);
    p in files && files[p].ShardBlob? && files[p].shard.shardId == d.shardId &&
    h.ofShard(files[p].shard) == d.contentSha256
  }

  /** The manifest is there, and every shard it lists is there under its digest. */
  ghost predicate BundleInPlace(h: Digests, files: Files, bundleId: string) {
    var p := ManifestPath(bundleId);
    && p in files && files[p].ManifestBlob? && files[p].manifest.bundleId == bundleId
    && forall d :: d in files[p].manifest.shards ==> ShardInPlace(h, files, bundleId, d)
  }

  // ---- The pointer chain ----

  /** `validateDataBundleChannelPointerV2`; the schema itself asks for a revision that is not negative. */
  predicate ValidPointer(p: Pointer) {
    p.PointerV2? ==>
      && p.revision >= 0
      && (p.revision == 0 <==> p.previous.None?)
      && (p.previous.None? ==> p.transition == Publication(None))
      && (p.transition.Rollback? ==> p.previous.Some?)
  }

  /** A schema 1 pointer stands at revision zero. */
  function Revision(p: Pointer): int { if p.PointerV2? then p.revision else 0 }

  function Predecessor(p: Pointer): Option<Digest> { if p.PointerV2? then p.previous else None }

  ghost predicate Recorded(h: Digests, files: Files, p: Pointer) {
    HistoryPath(h.ofPointer(p)) in files && files[HistoryPath(h.ofPointer(p))] == PointerBlob(p)
  }

  /** `q` is the predecessor of `p`: bound by its digest, one revision earlier. */
  ghost predicate Extends(h: Digests, p: Pointer, q: Pointer) {
    Predecessor(p) == Some(h.ofPointer(q)) && Revision(p) == Revision(q) + 1
  }

  /** From `p` back to the first pointer, every link is recorded and valid, with no gap. */
  ghost predicate Chain(h: Digests, files: Files, p: Pointer)
    decreases Revision(p)
  {
    && ValidPointer(p) && Recorded(h, files, p)
    && (Predecessor(p).Some? ==> exists q :: 0 <= Revision(q) < Revision(p) && Extends(h, p, q) && Chain(h, files, q))
  }

  ghost predicate PointsAt(files: Files, p: Pointer) { PointerPath in files && files[PointerPath] == PointerBlob(p) }

  /** What a reader may rely on: the pointer, if any, names a bundle that is all there, and its chain is complete. */
  ghost predicate Serves(h: Digests, files: Files) {
    PointerPath in files ==>
      && files[PointerPath].PointerBlob?
      && BundleInPlace(h, files, files[PointerPath].pointer.bundleId)
      && Chain(h, files, files[PointerPath].pointer)
  }

  /** The pointer has no predecessor, or one whose whole history is there. */
  ghost predicate PredecessorComplete(h: Digests, files: Files, p: Pointer) {
    Predecessor(p).Some? ==> exists q :: Extends(h, p, q) && Chain(h, files, q)
  }

  /** As `Serves`, but the pointer in force may not have its own history entry yet. */
  ghost predicate Stands(h: Digests, files: Files) {
    PointerPath in files ==>
      && files[PointerPath].PointerBlob?
      && BundleInPlace(h, files, files[PointerPath].pointer.bundleId)
      && ValidPointer(files[PointerPath].pointer) && PredecessorComplete(h, files, files[PointerPath].pointer)
  }

  /** The same without the history before the predecessor: a fresh candidate root has no more. */
  ghost predicate Offers(h: Digests, files: Files, p: Pointer) {
    && PointsAt(files, p) && BundleInPlace(h, files, p.bundleId) && ValidPointer(p) && Recorded(h, files, p)
  }

  // ---- More files keep everything in place ----

  lemma BundleKept(h: Digests, before: Files, after: Files, bundleId: string)
    requires Keeps(before, after) && BundleInPlace(h, before, bundleId)
    ensures BundleInPlace(h, after, bundleId)
  {
    var p := ManifestPath(bundleId);
    assert after[p] == before[p];
    forall d | d in after[p].manifest.shards ensures ShardInPlace(h, after, bundleId, d) {
      assert ShardInPlace(h, before, bundleId, d);
    }
  }

  lemma {:induction false} ChainKept(h: Digests, before: Files, after: Files, p: Pointer)
    requires Keeps(before, after) && Chain(h, before, p)
    ensures Chain(h, after, p)
    decreases Revision(p)
  {
    if Predecessor(p).Some? {
      var q :| 0 <= Revision(q) < Revision(p) && Extends(h, p, q) && Chain(h, before, q);
      ChainKept(h, before, after, q);
    }
  }

  lemma ServesKept(h: Digests, before: Files, after: Files)
    requires Keeps(before, after) && Serves(h, before)
    requires Same(before, after, PointerPath)
    ensures Serves(h, after)
  {
    if PointerPath in after {
      BundleKept(h, before, after, before[PointerPath].pointer.bundleId);
      ChainKept(h, before, after, before[PointerPath].pointer);
    }
  }

  lemma PredecessorKept(h: Digests, before: Files, after: Files, p: Pointer)
    requires Keeps(before, after) && PredecessorComplete(h, before, p)
    ensures PredecessorComplete(h, after, p)
  {
    hide Chain;
    if Predecessor(p).Some? {
      var q :| Extends(h, p, q) && Chain(h, before, q);
      ChainKept(h, before, after, q);
    }
  }

  lemma StandsKept(h: Digests, before: Files, after: Files)
    requires Keeps(before, after) && Stands(h, before) && Same(before, after, PointerPath)
    ensures Stands(h, after)
  {
    hide Keeps, PredecessorComplete, BundleInPlace;
    if PointerPath in after {
      BundleKept(h, before, after, before[PointerPath].pointer.bundleId);
      PredecessorKept(h, before, after, before[PointerPath].pointer);
    }
  }

  lemma ServesStands(h: Digests, files: Files)
    requires Serves(h, files)
    ensures Stands(h, files)
  {}

  /** A recorded pointer whose predecessor is complete has its whole chain. */
  lemma RecordedChain(h: Digests, before: Files, after: Files, p: Pointer)
    requires Keeps(before, after) && PredecessorComplete(h, before, p) && ValidPointer(p) && Recorded(h, after, p)
    ensures Chain(h, after, p)
  {
    PredecessorKept(h, before, after, p);
    if Predecessor(p).Some? {
      var q :| Extends(h, p, q) && Chain(h, after, q);
      assert Revision(q) >= 0;
    }
  }

  /** A new pointer on a complete chain makes a longer complete chain. */
  lemma ChainGrows(h: Digests, files: Files, p: Pointer, q: Pointer)
    requires ValidPointer(p) && Recorded(h, files, p) && Extends(h, p, q) && Chain(h, files, q)
    ensures Chain(h, files, p)
  {
    assert Revision(q) >= 0;
  }

  /** `p` was built as the next link after `previous`, or as the first pointer of all. */
  ghost predicate IsNext(h: Digests, p: Pointer, previous: Option<Pointer>) {
    if previous.Some? then Extends(h, p, previous.value) else Predecessor(p).None? && Revision(p) == 0
  }

  function DigestOf(h: Digests, previous: Option<Pointer>): Option<Digest> {
    if previous.Some? then Some(h.ofPointer(previous.value)) else None
  }

  /** The two pointers, if there are two, do not share a digest. */
  ghost predicate NoCollision(h: Digests, a: Option<Pointer>, b: Option<Pointer>) {
    DigestOf(h, a) == DigestOf(h, b) ==> a == b
  }

  /**
    A pointer built on one pointer is the next link after the pointer in force exactly when it names that
    one's digest, which is when it was built on it.
   */
  lemma NextLinkIff(h: Digests, p: Pointer, builtOn: Option<Pointer>, inForce: Option<Pointer>)
    requires IsNext(h, p, builtOn) && NoCollision(h, builtOn, inForce)
    ensures IsNext(h, p, inForce) <==> Predecessor(p) == DigestOf(h, inForce)
    ensures IsNext(h, p, inForce) <==> builtOn == inForce
  {}
}
