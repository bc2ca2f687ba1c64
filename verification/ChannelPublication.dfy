/**
  scripts/build-data-bundle.ts:506-523, 807-934 (`writeImmutableJson`, `writeAtomicJson`, the tail of
  `publishSignedDataBundle`) and scripts/prepare-data-bundle-update.ts:1020-1089 (`copyImmutableTree`,
  `replaceFileAtomically`, `promoteDataChannelAtomically`), for one channel and one process id, with a
  failure or a power loss possible at every write and rename.
 */
module ChannelPublication {
  import opened Wrappers
  import opened ChannelState

  /** One write or rename: it works, it throws, or the machine stops; an unfinished write may leave a part. */
  datatype Event = Works | Throws(part: Option<string>) | PowerLoss(part: Option<string>)

  datatype Outcome = Done | Failed | Lost

  function EndOf(e: Event): Outcome { match e case Works => Done case Throws(_) => Failed case PowerLoss(_) => Lost }

  /** `publishSignedDataBundle`, lines 855-882: the pointer that extends the previous one. */
  function NextPointer(h: Digests, bundleId: string, previous: Option<Pointer>, publishedAt: string): Pointer {
    match previous
    case None => PointerV2(bundleId, 0, None, Publication(None), publishedAt)
    case Some(q) =>
      PointerV2(bundleId, if q.PointerV2? then q.revision + 1 else 1, Some(h.ofPointer(q)),
                Publication(Some(q.bundleId)), publishedAt)
  }

  /** The new pointer passes the pointer validator and is the next link. */
  lemma NextPointerExtends(h: Digests, bundleId: string, previous: Option<Pointer>, publishedAt: string)
    requires previous.Some? ==> ValidPointer(previous.value)
    ensures ValidPointer(NextPointer(h, bundleId, previous, publishedAt))
    ensures previous.Some? ==> Extends(h, NextPointer(h, bundleId, previous, publishedAt), previous.value)
    ensures previous.None? <==> Predecessor(NextPointer(h, bundleId, previous, publishedAt)).None?
  {}

  function FindDescriptor(shards: seq<Descriptor>, shardId: string): Option<Descriptor> {
    if shards == [] then None
    else if shards[0].shardId == shardId then Some(shards[0])
    else FindDescriptor(shards[1..], shardId)
  }

  lemma {:induction false} FindDescriptorExact(shards: seq<Descriptor>, d: Descriptor)
    requires d in shards
    requires forall i, j :: 0 <= i < j < |shards| ==> shards[i].shardId != shards[j].shardId
    ensures FindDescriptor(shards, d.shardId) == Some(d)
  {
    if shards[0] != d {
      var i :| 0 <= i < |shards| && shards[i] == d;
      assert shards[1..][i - 1] == d;
      FindDescriptorExact(shards[1..], d);
    }
  }

  /** What `publishSignedDataBundle` writes once and for all, in order: shards, then the manifest. */
  function ShardWrites(m: Manifest, shards: seq<Shard>): seq<Write> {
    if shards == [] then []
    else
      var n := |shards| - 1;
      var d := FindDescriptor(m.shards, shards[n].shardId);
      ShardWrites(m, shards[..n]) +
      (if d.Some? then [Write(ShardPath(m.bundleId, d.value.path), ShardBlob(shards[n]))] else [])
  }

  lemma NoShardWrites(m: Manifest, shards: seq<Shard>)
    ensures ShardWrites(m, shards[..0]) == [] && Described(m, shards[..0])
  {}

  lemma ShardWritesNext(m: Manifest, shards: seq<Shard>, i: nat)
    requires i < |shards|
    ensures var d := FindDescriptor(m.shards, shards[i].shardId);
            && (d.None? ==> !Described(m, shards))
            && (d.Some? ==> ShardWrites(m, shards[..i + 1]) ==
                              ShardWrites(m, shards[..i]) +
                              [Write(ShardPath(m.bundleId, d.value.path), ShardBlob(shards[i]))])
            && (d.Some? && Described(m, shards[..i]) ==> Described(m, shards[..i + 1]))
  {
    hide FindDescriptor;
    assert shards[..i + 1][..i] == shards[..i];
  }

  predicate Described(m: Manifest, shards: seq<Shard>) {
    forall i :: 0 <= i < |shards| ==> FindDescriptor(m.shards, shards[i].shardId).Some?
  }

  function BundleWrites(b: Bundle): seq<Write> {
    ShardWrites(b.manifest, b.shards) + [Write(ManifestPath(b.manifest.bundleId), ManifestBlob(b.manifest))]
  }

  function HistoryWrite(h: Digests, p: Pointer): Write { Write(HistoryPath(h.ofPointer(p)), PointerBlob(p)) }

  /** All of it: the bundle, the previous pointer for the history, and the new one. */
  function PublishWrites(h: Digests, b: Bundle, previous: Option<Pointer>, pointer: Pointer): seq<Write> {
    BundleWrites(b) + (if previous.Some? then [HistoryWrite(h, previous.value)] else []) + [HistoryWrite(h, pointer)]
  }

  lemma {:induction false} ShardWritesAre(m: Manifest, shards: seq<Shard>)
    ensures forall w :: w in ShardWrites(m, shards) ==> w.path.ShardPath?
    ensures forall s :: s in shards && FindDescriptor(m.shards, s.shardId).Some? ==>
              Write(ShardPath(m.bundleId, FindDescriptor(m.shards, s.shardId).value.path), ShardBlob(s)) in
              ShardWrites(m, shards)
  {
    if shards != [] {
      assert shards == shards[..|shards| - 1] + [shards[|shards| - 1]];
      ShardWritesAre(m, shards[..|shards| - 1]);
    }
  }

  lemma BundleWritesImmutable(b: Bundle)
    ensures forall w :: w in BundleWrites(b) ==> Immutable(w.path)
  {
    ShardWritesAre(b.manifest, b.shards);
  }

  lemma {:induction false} ShardWritesGrow(m: Manifest, shards: seq<Shard>, n: nat)
    requires n <= |shards|
    ensures forall w :: w in ShardWrites(m, shards[..n]) ==> w in ShardWrites(m, shards)
  {
    if n == |shards| {
      assert shards[..n] == shards;
    } else {
      assert shards[..|shards| - 1][..n] == shards[..n];
      ShardWritesGrow(m, shards[..|shards| - 1], n);
    }
  }

  lemma EarlierWritesAgree(files: Files, b: Bundle, n: nat)
    requires n <= |b.shards|
    ensures Agrees(files, BundleWrites(b)) ==> Agrees(files, ShardWrites(b.manifest, b.shards[..n]))
  {
    ShardWritesGrow(b.manifest, b.shards, n);
    if Agrees(files, BundleWrites(b)) { AgreesWithin(files, ShardWrites(b.manifest, b.shards[..n]), BundleWrites(b)); }
  }

  lemma ContentPrefixes(h: Digests, files: Files, b: Bundle, previous: Option<Pointer>, pointer: Pointer)
    requires Agrees(files, PublishWrites(h, b, previous, pointer))
    ensures Agrees(files, BundleWrites(b))
    ensures previous.Some? ==> Agrees(files, BundleWrites(b) + [HistoryWrite(h, previous.value)])
  {
    hide BundleWrites, Agrees;
    AgreesWithin(files, BundleWrites(b), PublishWrites(h, b, previous, pointer));
    if previous.Some? {
      AgreesWithin(files, BundleWrites(b) + [HistoryWrite(h, previous.value)], PublishWrites(h, b, previous, pointer));
    }
  }

  lemma PublishedContent(h: Digests, before: Files, files: Files, b: Bundle, previous: Option<Pointer>,
                         pointer: Pointer)
    requires WellSigned(h, b) && Written(before, files, PublishWrites(h, b, previous, pointer))
    ensures BundleInPlace(h, files, b.manifest.bundleId) && Recorded(h, files, pointer)
    ensures previous.Some? ==> Recorded(h, files, previous.value)
  {
    var writes := PublishWrites(h, b, previous, pointer);
    hide WellSigned, BundleWrites;
    assert forall w :: w in BundleWrites(b) ==> w in writes;
    WrittenBundleInPlace(h, files, b);
    hide BundleInPlace;
    assert HistoryWrite(h, pointer) in writes;
    if previous.Some? { assert HistoryWrite(h, previous.value) in writes; }
  }

  lemma PublishWritesImmutable(h: Digests, b: Bundle, previous: Option<Pointer>, pointer: Pointer)
    ensures forall w :: w in PublishWrites(h, b, previous, pointer) ==> Immutable(w.path)
  {
    BundleWritesImmutable(b);
  }

  /** Once the manifest and all shards are written, the bundle is in place. */
  lemma WrittenBundleInPlace(h: Digests, files: Files, b: Bundle)
    requires WellSigned(h, b) && forall w :: w in BundleWrites(b) ==> w.path in files && files[w.path] == w.blob
    ensures BundleInPlace(h, files, b.manifest.bundleId)
  {
    var m := b.manifest;
    ShardWritesAre(m, b.shards);
    assert Write(ManifestPath(m.bundleId), ManifestBlob(m)) in BundleWrites(b);
    forall d | d in m.shards ensures ShardInPlace(h, files, m.bundleId, d) {
      var s :| s in b.shards && s.shardId == d.shardId && h.ofShard(s) == d.contentSha256;
      FindDescriptorExact(m.shards, d);
      assert Write(ShardPath(m.bundleId, d.path), ShardBlob(s)) in BundleWrites(b);
    }
  }

  /** Nothing fails from here on. */
  ghost predicate Calm(events: seq<Event>) { forall e :: e in events ==> e == Works }

  /** A path that is not immutable holds what it held. */
  ghost predicate OnlyImmutable(before: Files, after: Files) {
    forall p :: !Immutable(p) ==> Same(before, after, p)
  }

  class Root {
    var files: Files
    var events: seq<Event>

    constructor (events: seq<Event>)
      ensures files == map[] && this.events == events
    {
      files, this.events := map[], events;
    }

    method Next() returns (e: Event)
      modifies this`events
      ensures if old(events) == [] then e == Works && events == []
              else e == old(events)[0] && events == old(events)[1..]
      ensures Calm(old(events)) ==> e == Works && Calm(events)
    {
      if events == [] { return Works; }
      assert events[0] in events && forall x :: x in events[1..] ==> x in events;
      e, events := events[0], events[1..];
    }

    /** `writeImmutableJson`: an existing file must already hold exactly this content. */
    method WriteImmutable(path: Path, blob: Blob) returns (o: Outcome)
      requires Immutable(path) && !blob.Torn?
      modifies this
      ensures Keeps(old(files), files)
      ensures forall p :: p != path ==> Same(old(files), files, p)
      ensures o == Done ==> path in files && files[path] == blob
      ensures path in old(files) ==> files == old(files) && o == if old(files)[path] == blob then Done else Failed
      ensures Calm(old(events)) ==> Calm(events) && (path !in old(files) ==> o == Done)
    {
      if path in files {
        return if files[path] == blob then Done else Failed;
      }
      var e := Next();
      if e == Works {
        files := files[path := blob];
      } else if e.part.Some? {
        files := files[path := Torn(e.part.value)];
      }
      return EndOf(e);
    }

    /** The next write of a list, after the ones before it. */
    method WriteNext(w: Write, ghost before: Files, ghost writes: seq<Write>) returns (o: Outcome)
      requires Written(before, files, writes) && OnlyImmutable(before, files)
      requires Immutable(w.path) && !w.blob.Torn? && forall v :: v in writes ==> Immutable(v.path)
      modifies this
      ensures Keeps(before, files) && OnlyImmutable(before, files)
      ensures o == Done ==> Written(before, files, writes + [w]) && Agrees(before, writes + [w])
      ensures Calm(old(events)) ==> Calm(events) && (o == Done <==> Agrees(before, writes + [w]))
    {
      NextAgrees(before, files, writes, w);
      o := WriteImmutable(w.path, w.blob);
      forall p | !Immutable(p) ensures Same(before, files, p) {
        assert Same(before, old(files), p) && Same(old(files), files, p);
      }
      if o == Done {
        forall p | p in files && Immutable(p) ensures p in before || exists v :: v in writes + [w] && v.path == p {
          assert p != w.path ==> Same(old(files), files, p);
          if p == w.path {
            assert w in writes + [w];
          } else if p !in before {
            var v :| v in writes && v.path == p;
            assert v in writes + [w];
          }
        }
      }
    }

    /**
      `writeAtomicJson` and `replaceFileAtomically`: write beside, then rename over. The first
      refuses a leftover temporary file, the second writes over it.
     */
    method WriteAtomic(path: Path, blob: Blob, exclusive: bool) returns (o: Outcome)
      requires !Immutable(path) && !path.TemporaryPath?
      modifies this
      ensures Keeps(old(files), files) && forall p :: p in files && Immutable(p) ==> p in old(files)
      ensures forall p: Path :: p != path && p != TemporaryPath(path) ==> Same(old(files), files, p)
      ensures o == Done ==> path in files && files[path] == blob && TemporaryPath(path) !in files
      ensures o != Done ==> Same(old(files), files, path)
      ensures exclusive && TemporaryPath(path) in old(files) ==> o == Failed
      ensures Calm(old(events)) ==> Calm(events) && (o == Done <==> !(exclusive && TemporaryPath(path) in old(files)))
    {
      var temporary := TemporaryPath(path);
      if exclusive && temporary in files { return Failed; }
      var e := Next();
      if e != Works {
        if e.part.Some? { files := files[temporary := Torn(e.part.value)]; }
        return EndOf(e);
      }
      files := files[temporary := blob];
      e := Next();
      if e != Works { return EndOf(e); }
      files := (files - {temporary})[path := blob];
      return Done;
    }

    // ---- Publication ----

    /** Shards, then the manifest, each immutable. */
    method WriteBundle(b: Bundle) returns (o: Outcome)
      modifies this
      ensures Keeps(old(files), files) && OnlyImmutable(old(files), files)
      ensures o == Done ==> Written(old(files), files, BundleWrites(b)) && Described(b.manifest, b.shards)
      ensures Calm(old(events)) ==> Calm(events)
      ensures Calm(old(events)) ==>
              (o == Done <==> Described(b.manifest, b.shards) && Agrees(old(files), BundleWrites(b)))
    {
      hide Agrees, Written, Calm, OnlyImmutable, Keeps, ShardWrites, FindDescriptor, Described;
      var m := b.manifest;
      NothingWritten(files);
      NoShardWrites(m, b.shards);
      for i := 0 to |b.shards|
        invariant Written(old(files), files, ShardWrites(m, b.shards[..i])) && OnlyImmutable(old(files), files)
        invariant Described(m, b.shards[..i]) && (Calm(old(events)) ==> Calm(events))
      {
        ShardWritesNext(m, b.shards, i);
        ShardWritesAre(m, b.shards[..i]);
        var descriptor := FindDescriptor(m.shards, b.shards[i].shardId);
        WrittenKeeps(old(files), files, ShardWrites(m, b.shards[..i]));
        if descriptor.None? { return Failed; }
        o := WriteNext(Write(ShardPath(m.bundleId, descriptor.value.path), ShardBlob(b.shards[i])), old(files),
                       ShardWrites(m, b.shards[..i]));
        if o != Done {
          EarlierWritesAgree(old(files), b, i + 1);
          return;
        }
      }
      assert b.shards[..|b.shards|] == b.shards;
      ShardWritesAre(m, b.shards);
      o := WriteNext(Write(ManifestPath(m.bundleId), ManifestBlob(m)), old(files), ShardWrites(m, b.shards));
    }

    /**
      The tail of `publishSignedDataBundle`. Content goes first and the pointer last: at every point
      where it can stop, the pointer is the old one with everything it names, or the new one with
      everything it names. Left alone it completes exactly when no file it writes once and for all is there
      with other content, torn files included, and no temporary file is left from an interrupted run.
     */
    method Publish(h: Digests, b: Bundle, previous: Option<Pointer>, publishedAt: string, report: string)
      returns (o: Outcome)
      requires WellSigned(h, b)
      requires previous.Some? ==> ValidPointer(previous.value)
      modifies this
      ensures Keeps(old(files), files)
      ensures o != Done ==> Same(old(files), files, PointerPath)
      ensures var p := NextPointer(h, b.manifest.bundleId, previous, publishedAt);
              && (o == Done ==> Offers(h, files, p) && Written(old(files), files, PublishWrites(h, b, previous, p)))
              && (o == Done ==> Agrees(old(files), PublishWrites(h, b, previous, p)))
              && (Calm(old(events)) ==> Calm(events) && (o == Done <==> CanPublish(h, old(files), b, previous, p)))
      ensures o == Done && previous.Some? ==> Recorded(h, files, previous.value)
      ensures o == Done ==> ReportPath in files && NoLeftovers(files)
      ensures Serves(h, old(files)) && o != Done ==> Serves(h, files)
      ensures o == Done && (previous.Some? ==> PredecessorComplete(h, old(files), previous.value)) ==> Serves(h, files)
    {
      hide BundleInPlace, Chain, PredecessorComplete, ValidPointer, Agrees, Written, Calm, CanPublish, NoLeftovers,
        PublishWrites, Recorded;
      var pointer := NextPointer(h, b.manifest.bundleId, previous, publishedAt);
      NextPointerExtends(h, b.manifest.bundleId, previous, publishedAt);
      o := PublishSteps(h, b, previous, pointer, report);
      if o != Done {
        if Serves(h, old(files)) { ServesKept(h, old(files), files); }
        return;
      }
      if previous.Some? ==> PredecessorComplete(h, old(files), previous.value) {
        if previous.Some? {
          RecordedChain(h, old(files), files, previous.value);
          ChainGrows(h, files, pointer, previous.value);
        } else {
          ChainStarts(h, files, pointer);
        }
      }
    }

    method PublishSteps(h: Digests, b: Bundle, previous: Option<Pointer>, pointer: Pointer, report: string)
      returns (o: Outcome)
      requires WellSigned(h, b)
      modifies this
      ensures Keeps(old(files), files)
      ensures o != Done ==> Same(old(files), files, PointerPath)
      ensures o == Done ==>
              PointsAt(files, pointer) && BundleInPlace(h, files, b.manifest.bundleId) && Recorded(h, files, pointer)
      ensures o == Done ==> Written(old(files), files, PublishWrites(h, b, previous, pointer))
      ensures o == Done ==> Agrees(old(files), PublishWrites(h, b, previous, pointer))
      ensures o == Done && previous.Some? ==> Recorded(h, files, previous.value)
      ensures o == Done ==> ReportPath in files && NoLeftovers(files)
      ensures Calm(old(events)) ==> Calm(events) && (o == Done <==> CanPublish(h, old(files), b, previous, pointer))
    {
      hide BundleInPlace, WellSigned, Agrees, Written, Calm;
      o := WriteContent(h, b, previous, pointer);
      ghost var contents := files;
      assert Same(old(files), files, PointerPath) && Same(old(files), files, TemporaryPath(ReportPath)) &&
             Same(old(files), files, TemporaryPath(PointerPath));
      if o != Done { return; }
      o := WriteAtomic(ReportPath, ReportBlob(report), true);
      ghost var reported := files;
      assert Same(contents, files, PointerPath) && Same(contents, files, TemporaryPath(PointerPath));
      if o != Done { return; }
      o := WriteAtomic(PointerPath, PointerBlob(pointer), true);
      assert Same(reported, files, ReportPath) && Same(reported, files, TemporaryPath(ReportPath));
      if o != Done { return; }
      PublishWritesImmutable(h, b, previous, pointer);
      WrittenStays(old(files), contents, files, PublishWrites(h, b, previous, pointer));
      PublishedContent(h, old(files), files, b, previous, pointer);
    }

    /** Everything that is written once and for all. */
    method WriteContent(h: Digests, b: Bundle, previous: Option<Pointer>, pointer: Pointer) returns (o: Outcome)
      modifies this
      ensures Keeps(old(files), files) && OnlyImmutable(old(files), files)
      ensures o == Done ==> Written(old(files), files, PublishWrites(h, b, previous, pointer))
      ensures o == Done ==> Agrees(old(files), PublishWrites(h, b, previous, pointer))
      ensures Calm(old(events)) ==> Calm(events)
      ensures Calm(old(events)) ==>
              (o == Done <==>
               Described(b.manifest, b.shards) && Agrees(old(files), PublishWrites(h, b, previous, pointer)))
    {
      hide Agrees, Written, Calm, Described, BundleWrites, OnlyImmutable, Keeps;
      BundleWritesImmutable(b);
      if Agrees(files, PublishWrites(h, b, previous, pointer)) { ContentPrefixes(h, files, b, previous, pointer); }
      o := WriteBundle(b);
      if o != Done { return; }
      ghost var writes := BundleWrites(b);
      if previous.Some? {
        o := WriteNext(HistoryWrite(h, previous.value), old(files), writes);
        if o != Done { return; }
        writes := writes + [HistoryWrite(h, previous.value)];
      } else {
        assert writes + [] == writes;
      }
      o := WriteNext(HistoryWrite(h, pointer), old(files), writes);
    }

    // ---- Promotion ----

    /** `copyImmutableTree`: the wanted files in any order; an existing file must have the same content. */
    method CopyTree(source: Files, wanted: set<Path>) returns (o: Outcome)
      requires forall p :: p in wanted ==> p in source && Immutable(p)
      modifies this
      ensures Keeps(old(files), files)
      ensures forall p :: p !in wanted ==> Same(old(files), files, p)
      ensures o == Done ==> forall p :: p in wanted ==> p in files && files[p] == source[p]
      ensures o == Done ==> SameContent(old(files), source, wanted)
      ensures Calm(old(events)) ==> Calm(events) && (o == Done <==> SameContent(old(files), source, wanted))
    {
      var left := wanted;
      while left != {}
        invariant left <= wanted && Keeps(old(files), files)
        invariant forall p :: p !in wanted ==> Same(old(files), files, p)
        invariant forall p :: p in left ==> Same(old(files), files, p)
        invariant forall p :: p in wanted && p !in left ==>
                    p in files && files[p] == source[p] && (p in old(files) ==> old(files)[p] == source[p])
        invariant Calm(old(events)) ==> Calm(events)
      {
        var p :| p in left;
        if p in files {
          if files[p] != source[p] { return Failed; }
        } else {
          var e := Next();
          if e == Works {
            files := files[p := source[p]];
          } else {
            if e.part.Some? { files := files[p := Torn(e.part.value)]; }
            return EndOf(e);
          }
        }
        left := left - {p};
      }
      return Done;
    }

    /**
      `promoteDataChannelAtomically`: bundles, history, report, and the pointer last. Left alone it completes
      exactly when no bundle or history file is there with other content; which pointer is in force does not
      matter to it.
     */
    method Promote(h: Digests, candidate: Files, pointer: Pointer) returns (o: Outcome)
      requires Offers(h, candidate, pointer) && ReportPath in candidate
      modifies this
      ensures Keeps(old(files), files)
      ensures o != Done ==> Same(old(files), files, PointerPath)
      ensures o == Done ==> Offers(h, files, pointer) && Current(files) == Some(pointer)
      ensures o == Done ==> SameContent(old(files), candidate, ImmutableOf(candidate))
      ensures Calm(old(events)) ==>
              Calm(events) && (o == Done <==> SameContent(old(files), candidate, ImmutableOf(candidate)))
      ensures Serves(h, old(files)) && o != Done ==> Serves(h, files)
      ensures o == Done && ChainArrives(h, old(files), candidate, pointer) ==> Serves(h, files)
    {
      hide BundleInPlace, Chain, ValidPointer, SameContent, Calm, PredecessorComplete;
      o := PromoteSteps(h, candidate, pointer);
      if o != Done {
        if Serves(h, old(files)) { ServesKept(h, old(files), files); }
        return;
      }
      if ChainArrives(h, old(files), candidate, pointer) {
        if Predecessor(pointer).Some? {
          var q :| Extends(h, pointer, q) && Arriving(h, old(files), candidate, q);
          ArrivedChain(h, old(files), candidate, files, q);
          ChainGrows(h, files, pointer, q);
        } else {
          ChainStarts(h, files, pointer);
        }
      }
    }

    method PromoteSteps(h: Digests, candidate: Files, pointer: Pointer) returns (o: Outcome)
      requires Offers(h, candidate, pointer) && ReportPath in candidate
      modifies this
      ensures Keeps(old(files), files)
      ensures o != Done ==> Same(old(files), files, PointerPath)
      ensures o == Done ==>
              PointsAt(files, pointer) && BundleInPlace(h, files, pointer.bundleId) && Recorded(h, files, pointer)
      ensures o == Done ==> forall p :: p in ImmutableOf(candidate) ==> p in files && files[p] == candidate[p]
      ensures o == Done ==> SameContent(old(files), candidate, ImmutableOf(candidate))
      ensures Calm(old(events)) ==>
              Calm(events) && (o == Done <==> SameContent(old(files), candidate, ImmutableOf(candidate)))
    {
      hide ValidPointer, Calm;
      var bundles, history := set p | p in candidate.Keys && (p.ShardPath? || p.ManifestPath?),
                              set p | p in candidate.Keys && p.HistoryPath?;
      assert ImmutableOf(candidate) == bundles + history;
      o := CopyTree(candidate, bundles);
      assert Same(old(files), files, PointerPath);
      if o != Done { return; }
      CopiedBundle(h, candidate, files, pointer.bundleId);
      ghost var bundled := files;
      hide BundleInPlace;
      o := CopyTree(candidate, history);
      assert Same(bundled, files, PointerPath);
      if o != Done { return; }
      ghost var copied := files;
      o := WriteAtomic(ReportPath, candidate[ReportPath], false);
      assert Same(copied, files, PointerPath);
      if o != Done { return; }
      o := WriteAtomic(PointerPath, candidate[PointerPath], false);
      if o != Done { return; }
      BundleKept(h, bundled, files, pointer.bundleId);
    }

    // ---- Whole runs ----

    /**
      Any run of publications and promotions, each cut off anywhere. Whoever publishes first reads the pointer
      in force, and may use what was read after any number of other moves: to publish into the root, or to
      build a candidate in a root of its own, which may be promoted at any later time, more than once, or never.
      Immutable files never change; from the first move on the root always serves. Every move was built as the
      next link after a pointer that had been in force, and it is the next link after the one in force when it
      is made exactly when it was built on that one.
     */
    method Run(h: Digests, actions: seq<Action>) returns (ghost moves: seq<Move>)
      requires Stands(h, files)
      requires forall a :: a in actions && (a.Build? || a.Direct?) ==> WellSigned(h, a.bundle)
      modifies this
      ensures Stands(h, files) && Keeps(old(files), files)
      ensures moves != [] || Serves(h, old(files)) ==> Serves(h, files)
      ensures Current(files) == LastOf(Current(old(files)), moves)
      ensures forall i :: 0 <= i < |moves| ==> MoveSound(h, Current(old(files)), moves, i)
    {
      hide BundleInPlace, Chain, WellSigned, MoveSound, Agrees, Written, Calm, SameContent, ImmutableOf, CanPublish,
        Serves, Stands, Offers, Keeps, Ready, Readable, PredecessorComplete, ChainArrives, NextPointer, Current, LastOf,
        NoLeftovers;
      moves := [];
      ghost var start := Current(files);
      NoMoves(start);
      var readings: seq<Option<Pointer>> := [];
      var candidates: seq<Candidate> := [];
      KeepsAll(files);
      for i := 0 to |actions|
        invariant Stands(h, files) && Keeps(old(files), files)
        invariant moves != [] || Serves(h, old(files)) ==> Serves(h, files)
        invariant Current(files) == LastOf(start, moves)
        invariant forall k :: 0 <= k < |moves| ==> MoveSound(h, start, moves, k)
        invariant forall k :: 0 <= k < |readings| ==> Readable(h, files, start, moves, readings[k])
        invariant forall k :: 0 <= k < |candidates| ==> Ready(h, files, start, moves, candidates[k])
      {
        assert actions[i] in actions;
        ghost var before, made := files, moves;
        match actions[i] {
          case Read =>
            CurrentReadable(h, files, start, moves);
            readings := readings + [Current(files)];
          case Build(k, bundle, publishedAt, report, candidateEvents) =>
            if k < |readings| {
              var built := BuildCandidate(h, bundle, readings[k], publishedAt, report, candidateEvents, start, moves);
              if built.Some? { candidates := candidates + [built.value]; }
            }
          case Adopt(k) =>
            if k < |candidates| {
              var c := candidates[k];
              ReadyMeans(h, files, start, moves, c);
              var o := Promote(h, c.files, c.pointer);
              StandsAfter(h, before, files, o);
              moves := MovedTo(h, before, files, o, start, moves, Move(c.builtOn, c.pointer));
            }
          case Direct(k, bundle, publishedAt, report) =>
            if k < |readings| {
              var pointer := NextPointer(h, bundle.manifest.bundleId, readings[k], publishedAt);
              ReadableMeans(h, files, start, moves, readings[k], bundle.manifest.bundleId, publishedAt);
              var o := Publish(h, bundle, readings[k], publishedAt, report);
              if o == Done { OffersCurrent(h, files, pointer); }
              StandsAfter(h, before, files, o);
              moves := MovedTo(h, before, files, o, start, moves, Move(readings[k], pointer));
            }
        }
        KeepsAll(before);
        KeepsTransitive(old(files), before, files);
        forall k | 0 <= k < |readings| && Readable(h, before, start, made, readings[k])
          ensures Readable(h, files, start, moves, readings[k]) {
          ReadableKept(h, before, files, start, made, moves, readings[k]);
        }
        forall k | 0 <= k < |candidates| ensures Ready(h, files, start, moves, candidates[k]) {
          ReadyKept(h, before, files, start, made, moves, candidates[k]);
        }
      }
    }

    /** A candidate is published into a root of its own, on a pointer read here. */
    method BuildCandidate(h: Digests, b: Bundle, previous: Option<Pointer>, publishedAt: string, report: string,
                          candidateEvents: seq<Event>, ghost start: Option<Pointer>, ghost moves: seq<Move>)
      returns (built: Option<Candidate>)
      requires WellSigned(h, b) && Readable(h, files, start, moves, previous)
      ensures built.Some? ==> Ready(h, files, start, moves, built.value)
    {
      hide WellSigned, Serves, Offers, Chain, PredecessorComplete, BundleInPlace, Written, Agrees, CanPublish, Calm,
        LastOf;
      ReadableMeans(h, files, start, moves, previous, b.manifest.bundleId, publishedAt);
      var candidate := new Root(candidateEvents);
      var o := candidate.Publish(h, b, previous, publishedAt, report);
      if o != Done { return None; }
      return Some(Candidate(candidate.files, NextPointer(h, b.manifest.bundleId, previous, publishedAt), previous));
    }
  }

  /**
    What happens next: the pointer in force is read; a candidate is built on the k-th reading; the k-th candidate
    is promoted; or a bundle is published into the root on the k-th reading.
   */
  datatype Action =
    | Read
    | Build(reading: nat, bundle: Bundle, publishedAt: string, report: string, events: seq<Event>)
    | Adopt(candidate: nat)
    | Direct(reading: nat, bundle: Bundle, publishedAt: string, report: string)

  /** A finished candidate root: its files, the pointer it offers, and the pointer it was built on. */
  datatype Candidate = Candidate(files: Files, pointer: Pointer, builtOn: Option<Pointer>)

  /** A move of the channel pointer, and the pointer it was built on. */
  datatype Move = Move(builtOn: Option<Pointer>, pointer: Pointer)

  function Current(files: Files): Option<Pointer> {
    if PointerPath in files && files[PointerPath].PointerBlob? then Some(files[PointerPath].pointer) else None
  }

  function LastOf(start: Option<Pointer>, moves: seq<Move>): Option<Pointer> {
    if moves == [] then start else Some(moves[|moves| - 1].pointer)
  }

  /** The pointer had been in force at some point of the moves so far. */
  ghost predicate WasInForce(start: Option<Pointer>, moves: seq<Move>, p: Option<Pointer>) {
    exists j :: 0 <= j <= |moves| && LastOf(start, moves[..j]) == p
  }

  /**
    The i-th move goes to a valid pointer built as the next link after one that had been in force, and it is
    the next link after the one in force exactly when it was built on that one.
   */
  ghost predicate MoveSound(h: Digests, start: Option<Pointer>, moves: seq<Move>, i: nat)
    requires i < |moves|
  {
    var inForce, m := LastOf(start, moves[..i]), moves[i];
    && ValidPointer(m.pointer) && IsNext(h, m.pointer, m.builtOn) && WasInForce(start, moves[..i], m.builtOn)
    && (NoCollision(h, m.builtOn, inForce) ==> (IsNext(h, m.pointer, inForce) <==> m.builtOn == inForce))
  }

  /**
    A pointer that can be published on now or later: it had been in force, and what it extends has its whole
    history here.
   */
  ghost predicate Readable(h: Digests, files: Files, start: Option<Pointer>, moves: seq<Move>, p: Option<Pointer>) {
    WasInForce(start, moves, p) && (p.Some? ==> ValidPointer(p.value) && PredecessorComplete(h, files, p.value))
  }

  /** A candidate that can be promoted now or later: it brings the history entry of what it was built on. */
  ghost predicate Ready(h: Digests, files: Files, start: Option<Pointer>, moves: seq<Move>, c: Candidate) {
    && Offers(h, c.files, c.pointer) && ReportPath in c.files && IsNext(h, c.pointer, c.builtOn)
    && (c.builtOn.Some? ==> Recorded(h, c.files, c.builtOn.value))
    && Readable(h, files, start, moves, c.builtOn)
  }

  lemma OffersCurrent(h: Digests, files: Files, p: Pointer)
    requires Offers(h, files, p)
    ensures Current(files) == Some(p)
  {}

  lemma NoMoves(start: Option<Pointer>)
    ensures LastOf(start, []) == start
  {}

  lemma CurrentReadable(h: Digests, files: Files, start: Option<Pointer>, moves: seq<Move>)
    requires Stands(h, files) && Current(files) == LastOf(start, moves)
    ensures Readable(h, files, start, moves, Current(files))
  {
    hide BundleInPlace, PredecessorComplete, LastOf;
    assert moves[..|moves|] == moves;
  }

  lemma ReadableMeans(h: Digests, files: Files, start: Option<Pointer>, moves: seq<Move>, p: Option<Pointer>,
                      bundleId: string, publishedAt: string)
    requires Readable(h, files, start, moves, p)
    ensures p.Some? ==> ValidPointer(p.value) && PredecessorComplete(h, files, p.value)
    ensures WasInForce(start, moves, p)
    ensures var next := NextPointer(h, bundleId, p, publishedAt);
            ValidPointer(next) && IsNext(h, next, p) && next.bundleId == bundleId
  {
    NextPointerExtends(h, bundleId, p, publishedAt);
  }

  lemma ReadyMeans(h: Digests, files: Files, start: Option<Pointer>, moves: seq<Move>, c: Candidate)
    requires Ready(h, files, start, moves, c)
    ensures Offers(h, c.files, c.pointer) && ReportPath in c.files && ChainArrives(h, files, c.files, c.pointer)
    ensures ValidPointer(c.pointer) && IsNext(h, c.pointer, c.builtOn) && WasInForce(start, moves, c.builtOn)
  {
    hide Chain, BundleInPlace, PredecessorComplete;
    if c.builtOn.Some? { assert Arriving(h, files, c.files, c.builtOn.value); }
  }

  lemma StandsAfter(h: Digests, before: Files, files: Files, o: Outcome)
    requires Stands(h, before) && Keeps(before, files)
    requires if o == Done then Serves(h, files) else Same(before, files, PointerPath)
    ensures Stands(h, files)
  {
    hide Stands, Serves, Keeps;
    if o == Done { ServesStands(h, files); } else { StandsKept(h, before, files); }
  }

  /** The moves after an attempt: one more when it completed. */
  ghost method MovedTo(h: Digests, before: Files, files: Files, o: Outcome, start: Option<Pointer>, made: seq<Move>,
                       m: Move)
    returns (moves: seq<Move>)
    requires forall k :: 0 <= k < |made| ==> MoveSound(h, start, made, k)
    requires Current(before) == LastOf(start, made) && if o == Done then Current(files) == Some(m.pointer)
                                                       else Same(before, files, PointerPath)
    requires ValidPointer(m.pointer) && IsNext(h, m.pointer, m.builtOn) && WasInForce(start, made, m.builtOn)
    ensures made <= moves && (o != Done ==> moves == made) && Current(files) == LastOf(start, moves)
    ensures forall k :: 0 <= k < |moves| ==> MoveSound(h, start, moves, k)
  {
    if o != Done { return made; }
    moves := made + [m];
    forall k | 0 <= k < |moves| ensures MoveSound(h, start, moves, k) {
      if k < |made| {
        assert moves[..k] == made[..k] && MoveSound(h, start, made, k);
      } else {
        assert moves[..k] == made;
        if NoCollision(h, m.builtOn, LastOf(start, made)) { NextLinkIff(h, m.pointer, m.builtOn, LastOf(start, made)); }
      }
    }
  }

  lemma ReadableKept(h: Digests, before: Files, files: Files, start: Option<Pointer>, made: seq<Move>, moves: seq<Move>,
                     p: Option<Pointer>)
    requires Readable(h, before, start, made, p) && Keeps(before, files) && made <= moves
    ensures Readable(h, files, start, moves, p)
  {
    hide PredecessorComplete, Keeps, LastOf;
    if p.Some? { PredecessorKept(h, before, files, p.value); }
    var j :| 0 <= j <= |made| && LastOf(start, made[..j]) == p;
    assert moves[..j] == made[..j];
  }

  lemma ReadyKept(h: Digests, before: Files, files: Files, start: Option<Pointer>, made: seq<Move>, moves: seq<Move>,
                  c: Candidate)
    requires Ready(h, before, start, made, c) && Keeps(before, files) && made <= moves
    ensures Ready(h, files, start, moves, c)
  {
    hide Readable, Offers, Keeps;
    ReadableKept(h, before, files, start, made, moves, c.builtOn);
  }

  /** When every move was built on the pointer in force, revisions count the moves without a gap. */
  lemma {:induction false} FreshRunCounts(h: Digests, start: Option<Pointer>, moves: seq<Move>)
    requires forall i :: 0 <= i < |moves| ==>
               MoveSound(h, start, moves, i) && moves[i].builtOn == LastOf(start, moves[..i])
    ensures forall i :: 0 <= i < |moves| ==> IsNext(h, moves[i].pointer, LastOf(start, moves[..i]))
    ensures moves != [] ==>
            Revision(moves[|moves| - 1].pointer) == |moves| + (if start.Some? then Revision(start.value) else -1)
  {
    hide ValidPointer, NoCollision, WasInForce;
    if moves != [] {
      var n := |moves| - 1;
      forall i | 0 <= i < n
        ensures MoveSound(h, start, moves[..n], i) && moves[..n][i].builtOn == LastOf(start, moves[..n][..i]) {
        assert moves[..n][..i] == moves[..i] && MoveSound(h, start, moves, i);
      }
      FreshRunCounts(h, start, moves[..n]);
      assert MoveSound(h, start, moves, n);
    }
  }

  // ---- Why promotion does not ask ----

  function EmptyBundle(bundleId: string): Bundle { Bundle(Manifest(bundleId, []), []) }

  /** The pointers of the run below: three publications one after the other, and a candidate built on the first. */
  function First(h: Digests): Pointer { NextPointer(h, "a", None, "") }

  function Second(h: Digests): Pointer { NextPointer(h, "b", Some(First(h)), "") }

  function Third(h: Digests): Pointer { NextPointer(h, "c", Some(Second(h)), "") }

  function Stale(h: Digests): Pointer { NextPointer(h, "d", Some(First(h)), "") }

  ghost function FourPointers(h: Digests): set<Pointer> { {First(h), Second(h), Third(h), Stale(h)} }

  /** The immutable files are manifests of empty bundles and recorded pointers, nothing else. */
  ghost predicate HoldsOnly(h: Digests, files: Files, pointers: set<Pointer>) {
    forall p :: p in files && Immutable(p) ==>
      || (p.ManifestPath? && files[p] == ManifestBlob(Manifest(p.bundleId, [])))
      || (p.HistoryPath? && exists q :: q in pointers && p == HistoryPath(h.ofPointer(q)) && files[p] == PointerBlob(q))
  }

  ghost predicate Distinguishes(h: Digests, pointers: set<Pointer>) {
    forall p, q :: p in pointers && q in pointers && h.ofPointer(p) == h.ofPointer(q) ==> p == q
  }

  lemma EmptyWrites(h: Digests, id: string, previous: Option<Pointer>, p: Pointer)
    ensures forall w :: w in PublishWrites(h, EmptyBundle(id), previous, p) <==>
              w == Write(ManifestPath(id), ManifestBlob(Manifest(id, []))) || w == HistoryWrite(h, p)
              || (previous.Some? && w == HistoryWrite(h, previous.value))
  {
    var w := Write(ManifestPath(id), ManifestBlob(Manifest(id, [])));
    assert BundleWrites(EmptyBundle(id)) == [w];
    if previous.Some? {
      assert PublishWrites(h, EmptyBundle(id), previous, p) == [w, HistoryWrite(h, previous.value), HistoryWrite(h, p)];
    } else {
      assert PublishWrites(h, EmptyBundle(id), previous, p) == [w, HistoryWrite(h, p)];
    }
  }

  lemma NothingClashes(h: Digests, files: Files, pointers: set<Pointer>, id: string, previous: Option<Pointer>,
                       p: Pointer)
    requires HoldsOnly(h, files, pointers) && Distinguishes(h, pointers) && p in pointers &&
             (previous.Some? ==> previous.value in pointers)
    ensures Agrees(files, PublishWrites(h, EmptyBundle(id), previous, p))
  {
    EmptyWrites(h, id, previous, p);
    hide PublishWrites;
    forall w | w in PublishWrites(h, EmptyBundle(id), previous, p) && w.path in files ensures files[w.path] == w.blob {}
  }

  lemma StillHoldsOnly(h: Digests, before: Files, files: Files, pointers: set<Pointer>, id: string,
                       previous: Option<Pointer>, p: Pointer)
    requires HoldsOnly(h, before, pointers) && p in pointers && (previous.Some? ==> previous.value in pointers)
    requires Written(before, files, PublishWrites(h, EmptyBundle(id), previous, p))
    ensures HoldsOnly(h, files, pointers)
  {
    EmptyWrites(h, id, previous, p);
    hide PublishWrites;
    var writes := PublishWrites(h, EmptyBundle(id), previous, p);
    forall q | q in files && Immutable(q)
      ensures (q.ManifestPath? && files[q] == ManifestBlob(Manifest(q.bundleId, [])))
           || (q.HistoryPath? &&
               exists r :: r in pointers && q == HistoryPath(h.ofPointer(r)) && files[q] == PointerBlob(r))
    {
      if q !in before { var w :| w in writes && w.path == q; }
    }
  }

  method PublishEmpty(h: Digests, root: Root, ghost pointers: set<Pointer>, id: string, previous: Option<Pointer>)
    requires Distinguishes(h, pointers) && HoldsOnly(h, root.files, pointers) && Calm(root.events) &&
             NoLeftovers(root.files)
    requires NextPointer(h, id, previous, "") in pointers &&
             (previous.Some? ==> previous.value in pointers && ValidPointer(previous.value))
    requires previous == Current(root.files) || root.files == map[]
    requires Serves(h, root.files)
    modifies root
    ensures HoldsOnly(h, root.files, pointers) && Calm(root.events) && NoLeftovers(root.files)
    ensures Offers(h, root.files, NextPointer(h, id, previous, "")) && ReportPath in root.files &&
            Keeps(old(root.files), root.files)
    ensures previous == Current(old(root.files)) ==> Serves(h, root.files)
  {
    var p := NextPointer(h, id, previous, "");
    NothingClashes(h, root.files, pointers, id, previous, p);
    if previous == Current(root.files) { CurrentValid(h, root.files); }
    hide Chain, HoldsOnly, Distinguishes, Serves, NextPointer, Written, Offers;
    var o := root.Publish(h, EmptyBundle(id), previous, "", "");
    StillHoldsOnly(h, old(root.files), root.files, pointers, id, previous, p);
  }

  /** Three publications one after the other, and a candidate built after the first of them. */
  method ThreeAndACandidate(h: Digests) returns (root: Root, candidate: Root)
    requires Distinguishes(h, FourPointers(h))
    ensures fresh(root) && fresh(candidate) && root != candidate && Calm(root.events)
    ensures Serves(h, root.files) && Current(root.files) == Some(Third(h)) &&
            PredecessorComplete(h, root.files, Stale(h))
    ensures Offers(h, candidate.files, Stale(h)) && ReportPath in candidate.files
    ensures SameContent(root.files, candidate.files, ImmutableOf(candidate.files))
  {
    ghost var pointers := FourPointers(h);
    var first, second := First(h), Second(h);
    root := new Root([]);
    PublishEmpty(h, root, pointers, "a", None);
    OffersCurrent(h, root.files, first);
    ghost var one := root.files;
    candidate := new Root([]);
    PublishEmpty(h, candidate, pointers, "d", Some(first));
    PublishEmpty(h, root, pointers, "b", Some(first));
    OffersCurrent(h, root.files, second);
    ghost var two := root.files;
    PublishEmpty(h, root, pointers, "c", Some(second));
    OffersCurrent(h, root.files, Third(h));
    hide *;
    CandidateFits(h, root.files, candidate.files, pointers);
    KeepsTransitive(one, two, root.files);
    StaleIsComplete(h, one, root.files);
  }

  /**
    Promotion does not ask what is in force. A candidate is built on the first pointer, two more publications
    follow, and promoting the candidate then completes: the channel goes from revision 2 back to revision 1,
    to a pointer that is not the next link, and still serves.
   */
  method StaleCandidateMovesBack(h: Digests) returns (root: Root, ghost before: Files)
    requires Distinguishes(h, FourPointers(h))
    ensures Serves(h, before) && Current(before) == Some(Third(h)) && Revision(Third(h)) == 2
    ensures Serves(h, root.files) && Current(root.files) == Some(Stale(h)) && Revision(Stale(h)) == 1 &&
            Keeps(before, root.files)
    ensures !IsNext(h, Stale(h), Some(Third(h)))
  {
    hide Chain, HoldsOnly, Distinguishes, Serves, SameContent, PredecessorComplete, Offers, Calm, ImmutableOf, Current,
      Keeps;
    var candidate;
    root, candidate := ThreeAndACandidate(h);
    before := root.files;
    CompleteArrives(h, before, candidate.files, Stale(h));
    var o := root.Promote(h, candidate.files, Stale(h));
  }

  lemma CandidateFits(h: Digests, files: Files, candidate: Files, pointers: set<Pointer>)
    requires HoldsOnly(h, files, pointers) && HoldsOnly(h, candidate, pointers) && Distinguishes(h, pointers)
    ensures SameContent(files, candidate, ImmutableOf(candidate))
  {}

  /** The first pointer's history is still there below the pointer in force. */
  lemma StaleIsComplete(h: Digests, before: Files, files: Files)
    requires Serves(h, before) && Current(before) == Some(First(h)) && Keeps(before, files)
    ensures PredecessorComplete(h, files, Stale(h))
  {
    CurrentValid(h, before);
    ChainKept(h, before, files, First(h));
    NextPointerExtends(h, "d", Some(First(h)), "");
  }

  /** `q` is valid, has or brings its history entry, and what it extends has its whole history here. */
  ghost predicate Arriving(h: Digests, files: Files, candidate: Files, q: Pointer) {
    ValidPointer(q) && (Recorded(h, files, q) || Recorded(h, candidate, q)) && PredecessorComplete(h, files, q)
  }

  /** After the promotion the candidate's pointer has its whole chain here. */
  ghost predicate ChainArrives(h: Digests, files: Files, candidate: Files, p: Pointer) {
    Predecessor(p).Some? ==> exists q :: Extends(h, p, q) && Arriving(h, files, candidate, q)
  }

  lemma ArrivedChain(h: Digests, before: Files, candidate: Files, after: Files, q: Pointer)
    requires Arriving(h, before, candidate, q) && Keeps(before, after)
    requires forall p :: p in ImmutableOf(candidate) ==> p in after && after[p] == candidate[p]
    ensures Chain(h, after, q)
  {
    hide Chain, PredecessorComplete, ValidPointer;
    assert Recorded(h, after, q);
    RecordedChain(h, before, after, q);
  }

  lemma CompleteArrives(h: Digests, files: Files, candidate: Files, p: Pointer)
    requires PredecessorComplete(h, files, p)
    ensures ChainArrives(h, files, candidate, p)
  {
    if Predecessor(p).Some? {
      var q :| Extends(h, p, q) && Chain(h, files, q);
      assert PredecessorComplete(h, files, q);
    }
  }

  ghost predicate NoLeftovers(files: Files) {
    TemporaryPath(ReportPath) !in files && TemporaryPath(PointerPath) !in files
  }

  /** When an undisturbed publication completes. */
  ghost predicate CanPublish(h: Digests, files: Files, b: Bundle, previous: Option<Pointer>, pointer: Pointer) {
    Described(b.manifest, b.shards) && Agrees(files, PublishWrites(h, b, previous, pointer)) && NoLeftovers(files)
  }

  ghost predicate SameContent(files: Files, source: Files, wanted: set<Path>) {
    forall p :: p in wanted && p in files && p in source ==> files[p] == source[p]
  }

  function ImmutableOf(files: Files): set<Path> { set p | p in files.Keys && Immutable(p) }

  lemma NothingWritten(files: Files)
    ensures Written(files, files, []) && OnlyImmutable(files, files)
  {}

  lemma WrittenKeeps(before: Files, after: Files, writes: seq<Write>)
    requires Written(before, after, writes)
    ensures Keeps(before, after)
  {}

  lemma WrittenStays(before: Files, now: Files, after: Files, writes: seq<Write>)
    requires Written(before, now, writes) && Keeps(now, after) && forall p :: p in after && Immutable(p) ==> p in now
    requires forall w :: w in writes ==> Immutable(w.path)
    ensures Written(before, after, writes)
  {}

  lemma CurrentValid(h: Digests, files: Files)
    requires Serves(h, files)
    ensures Current(files).Some? ==> ValidPointer(Current(files).value) && Chain(h, files, Current(files).value)
    ensures Current(files).Some? <==> PointerPath in files
  {}

  lemma KeepsAll(files: Files)
    ensures Keeps(files, files)
  {}

  lemma KeepsTransitive(a: Files, b: Files, c: Files)
    requires Keeps(a, b) && Keeps(b, c)
    ensures Keeps(a, c)
  {}

  lemma ChainStarts(h: Digests, files: Files, p: Pointer)
    requires ValidPointer(p) && Recorded(h, files, p) && Predecessor(p).None?
    ensures Chain(h, files, p)
  {}

  lemma CopiedBundle(h: Digests, source: Files, files: Files, bundleId: string)
    requires BundleInPlace(h, source, bundleId)
    requires forall p :: p in source && (p.ShardPath? || p.ManifestPath?) ==> p in files && files[p] == source[p]
    ensures BundleInPlace(h, files, bundleId)
  {
    var p := ManifestPath(bundleId);
    forall d | d in files[p].manifest.shards ensures ShardInPlace(h, files, bundleId, d) {
      assert ShardInPlace(h, source, bundleId, d);
    }
  }


}
