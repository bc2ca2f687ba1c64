/**
  scripts/prepare-data-update.ts:296-304, 412-474, 492-565: `writePublishJournal`,
  `recoverInterruptedDataUpdateUnlocked` and `publishFilesAtomically`, with power loss and failed
  calls possible at every file-system operation. The environment's decisions are a list of events,
  one per operation; a theorem about every list is a theorem about every crash point.

  One process works at a time: the lock is not modelled. Making directories is not an operation of
  its own, because nothing below depends on an empty directory.
 */
module CrashSafePublish {
  import opened Sequences
  import opened Wrappers
  import opened PublishState

  /** One file-system call: it works, it throws, or the machine stops; a copy may then be torn. */
  datatype Event = Works | Throws(torn: bool) | PowerLoss(torn: bool)

  /** How a piece of the program ended. */
  datatype Outcome = Done | Failed | Lost

  class Disk {
    var fs: Fs
    var events: seq<Event>
    /** The committed journals that reached the disk, in order. */
    ghost var commits: seq<Journal>

    ghost predicate Ready()
      reads this
    {
      Sound(fs)
    }

    constructor (dest: Files, events: seq<Event>)
      ensures Ready() && Logical(fs) == dest && fs.dest == dest && this.events == events && commits == []
    {
      fs, this.events, commits := Fs(dest, None), events, [];
    }

    /** What the environment does with the next operation. */
    method Next() returns (e: Event)
      modifies this`events
      ensures old(events) == [] ==> e == Works && events == []
      ensures old(events) != [] ==> e == old(events)[0] && events == old(events)[1..]
    {
      if events == [] { return Works; }
      e, events := events[0], events[1..];
    }

    // ---- Removing the transaction directory ----

    /** One file of the transaction directory is removed. */
    method RemoveEntry(entry: Entry) returns (o: Outcome)
      requires Ready() && Settled(fs) && fs.tx.Some? && Present(fs.tx.value, entry)
      modifies this`fs, this`events
      ensures Ready() && Settled(fs) && Logical(fs) == old(Logical(fs)) && fs.tx.Some?
      ensures fs == if o == Done then old(fs).(tx := Some(Remove(old(fs).tx.value, entry))) else old(fs)
      ensures old(events) == [] ==> o == Done && events == []
    {
      hide Restored, Logical;
      var e := Next();
      if e != Works { return if e.Throws? then Failed else Lost; }
      RemoveKeepsSettled(fs, entry);
      fs := fs.(tx := Some(Remove(fs.tx.value, entry)));
      return Done;
    }

    /** `rmSync(transactionRoot, { recursive: true })`: one file at a time, in no particular order. */
    method RemoveTransaction() returns (o: Outcome)
      requires Ready() && Settled(fs)
      modifies this`fs, this`events
      ensures Ready() && Settled(fs) && Logical(fs) == old(Logical(fs))
      ensures o == Done ==> fs.tx.None?
      ensures old(events) == [] ==> o == Done && events == []
    {
      hide Restored;
      if fs.tx.None? { return Done; }
      while Size(fs.tx.value) > 0
        invariant Ready() && Settled(fs) && Logical(fs) == old(Logical(fs)) && fs.tx.Some?
        invariant old(events) == [] ==> events == []
        decreases Size(fs.tx.value)
      {
        SomethingPresent(fs.tx.value);
        var entry :| Present(fs.tx.value, entry);
        RemoveShrinks(fs.tx.value, entry);
        o := RemoveEntry(entry);
        if o != Done { return; }
      }
      var e := Next();
      if e.Throws? { return Failed; }
      if e.PowerLoss? { return Lost; }
      fs := fs.(tx := None);
      return Done;
    }

    // ---- Recovery ----

    /** `copyFileSync(backup, replacement)` and `renameSync(replacement, destination)`. */
    method RestoreFromBackup(r: Rel) returns (o: Outcome)
      requires Ready() && IsPublishing(fs) && HasBackup(r, fs.tx.value.journal.value, fs.tx.value.backup)
      modifies this`fs, this`events
      ensures Ready() && IsPublishing(fs) && Logical(fs) == old(Logical(fs))
      ensures fs.tx.value.journal == old(fs.tx.value.journal) && fs.tx.value.backup == old(fs.tx.value.backup)
      ensures o == Done ==> fs.dest == old(fs.dest)[r := fs.tx.value.backup[r].content]
      ensures o != Done ==> fs.dest == old(fs.dest)
      ensures old(events) == [] ==> o == Done && events == []
    {
      hide Restored;
      var tx := fs.tx.value;
      var e := Next();
      if e != Works {
        if e.torn { fs := fs.(tx := Some(tx.(recovery := tx.recovery[r := Torn]))); }
        return if e.Throws? then Failed else Lost;
      }
      fs := fs.(tx := Some(tx.(recovery := tx.recovery[r := tx.backup[r]])));
      e := Next();
      if e != Works { return if e.Throws? then Failed else Lost; }
      RestoreKeepsLogical(fs.dest, tx.journal.value, tx.backup, r);
      tx := fs.tx.value;
      fs := Fs(fs.dest[r := tx.recovery[r].content], Some(tx.(recovery := tx.recovery - {r})));
      return Done;
    }

    /** The body of recovery for a journal in phase `publishing`. */
    method RestoreAll() returns (o: Outcome)
      requires Ready() && IsPublishing(fs)
      modifies this`fs, this`events
      ensures Ready() && IsPublishing(fs) && Logical(fs) == old(Logical(fs))
      ensures fs.tx.value.journal == old(fs.tx.value.journal) && fs.tx.value.backup == old(fs.tx.value.backup)
      ensures o == Done ==> Settled(fs) && old(Recoverable(fs))
      ensures Recoverable(fs) <==> old(Recoverable(fs))
      ensures old(events) == [] ==> events == [] && (o == Done <==> old(Recoverable(fs)))
    {
      hide Restored;
      var j := fs.tx.value.journal.value;
      ghost var backup := fs.tx.value.backup;
      for i := 0 to |j.relativePaths|
        invariant Ready() && IsPublishing(fs) && Logical(fs) == old(Logical(fs))
        invariant fs.tx.value.journal == Some(j) && fs.tx.value.backup == backup
        invariant forall k :: 0 <= k < i ==> Back(fs.dest, j, backup, j.relativePaths[k])
        invariant forall k :: 0 <= k < i && j.relativePaths[k] in j.existedPaths ==> j.relativePaths[k] in backup
        invariant old(events) == [] ==> events == []
      {
        var r := j.relativePaths[i];
        if r !in j.existedPaths {
          var e := Next();
          if e != Works { return if e.Throws? then Failed else Lost; }
          DeleteKeepsLogical(fs.dest, j, backup, r);
          fs := fs.(dest := fs.dest - {r});
          continue;
        }
        if r !in fs.tx.value.backup { return Failed; }
        var step := RestoreFromBackup(r);
        if step != Done { return step; }
      }
      AllBack(fs.dest, j, backup);
      return Done;
    }

    /**
      `recoverInterruptedDataUpdateUnlocked`. Whatever is interrupted, the logical content stays;
      a recovery that completes leaves exactly that content and no transaction. Left alone, it
      completes exactly when no backup is missing; once one is, no recovery completes or brings it back.
     */
    method Recover() returns (o: Outcome)
      requires Ready()
      modifies this`fs, this`events
      ensures Ready() && Logical(fs) == old(Logical(fs))
      ensures o == Done ==> fs == Fs(old(Logical(fs)), None)
      ensures !old(Recoverable(fs)) ==> o != Done && !Recoverable(fs)
      ensures old(events) == [] ==> events == [] && (o == Done <==> old(Recoverable(fs)))
      ensures old(fs.tx.None?) ==> o == Done && fs == old(fs) && events == old(events)
    {
      hide Restored;
      if fs.tx.None? { return Done; }
      var journal := fs.tx.value.journal;
      if journal.Some? && journal.value.phase == Publishing {
        var restored := RestoreAll();
        if restored != Done { return restored; }
      }
      o := RemoveTransaction();
    }

    // ---- Publication ----

    /** `writePublishJournal`: write beside, then rename over. */
    method WriteJournal(j: Journal) returns (o: Outcome)
      requires fs.tx.Some?
      modifies this
      ensures fs.dest == old(fs.dest) && fs.tx.Some?
      ensures fs.tx.value.backup == old(fs.tx.value.backup) && fs.tx.value.incoming == old(fs.tx.value.incoming)
      ensures fs.tx.value.journal == (if o == Done then Some(j) else old(fs.tx.value.journal))
      ensures commits == old(commits) + (if o == Done && j.phase == Committed then [j] else [])
      ensures old(events) == [] ==> o == Done && events == []
    {
      hide Restored;
      var tx := fs.tx.value;
      var e := Next();
      if e != Works {
        if e.torn { fs := fs.(tx := Some(tx.(next := Some(TornJournal)))); }
        return if e.Throws? then Failed else Lost;
      }
      fs := fs.(tx := Some(tx.(next := Some(Complete(j)))));
      e := Next();
      if e != Works { return if e.Throws? then Failed else Lost; }
      fs := fs.(tx := Some(fs.tx.value.(journal := Some(j), next := None)));
      if j.phase == Committed { commits := commits + [j]; }
      return Done;
    }

    /** One file into the transaction directory; an interrupted copy may be torn. */
    method CopyInto(r: Rel, content: Content, toBackup: bool) returns (o: Outcome)
      requires fs.tx.Some?
      modifies this`fs, this`events
      ensures fs.dest == old(fs.dest) && fs.tx.Some? && fs.tx.value.journal == old(fs.tx.value.journal)
      ensures o == Done ==>
        && fs.tx.value.backup ==
           (if toBackup then old(fs.tx.value.backup)[r := Whole(content)] else old(fs.tx.value.backup))
        && fs.tx.value.incoming ==
           (if toBackup then old(fs.tx.value.incoming) else old(fs.tx.value.incoming)[r := Whole(content)])
      ensures old(events) == [] ==> o == Done && events == []
    {
      var tx := fs.tx.value;
      var e := Next();
      var copy := if e == Works then Whole(content) else Torn;
      if e == Works || e.torn {
        fs := fs.(tx := Some(if toBackup then tx.(backup := tx.backup[r := copy])
                             else tx.(incoming := tx.incoming[r := copy])));
      }
      return if e == Works then Done else if e.Throws? then Failed else Lost;
    }

    /** The first loop: stage every file and back up every file it will replace. */
    method PrepareCopies(staging: Files, j: Journal) returns (o: Outcome)
      requires fs.tx.Some? && fs.tx.value.journal == Some(j) && j.phase == Preparing
      requires fs.tx.value.incoming == map[] && fs.tx.value.backup == map[]
      requires forall r :: r in j.existedPaths <==> r in j.relativePaths && r in fs.dest
      modifies this`fs, this`events
      ensures fs.dest == old(fs.dest) && fs.tx.Some? && fs.tx.value.journal == Some(j)
      ensures o == Done ==>
        && Covered(fs.dest, j, fs.tx.value.backup)
        && (forall r :: r in j.relativePaths ==> r in staging && r in fs.tx.value.incoming)
        && (forall r :: r in fs.tx.value.incoming ==> r in staging && fs.tx.value.incoming[r] == Whole(staging[r]))
      ensures old(events) == [] && (forall r :: r in j.relativePaths ==> r in staging) ==> o == Done && events == []
    {
      for i := 0 to |j.relativePaths|
        invariant fs.dest == old(fs.dest) && fs.tx.Some? && fs.tx.value.journal == Some(j)
        invariant forall k :: 0 <= k < i ==> j.relativePaths[k] in staging && j.relativePaths[k] in fs.tx.value.incoming
        invariant forall k :: 0 <= k < i && j.relativePaths[k] in fs.dest ==> j.relativePaths[k] in fs.tx.value.backup
        invariant forall r :: r in fs.tx.value.incoming ==> r in staging && fs.tx.value.incoming[r] == Whole(staging[r])
        invariant forall r :: r in fs.tx.value.backup ==> r in fs.dest && fs.tx.value.backup[r] == Whole(fs.dest[r])
        invariant old(events) == [] ==> events == []
      {
        var r := j.relativePaths[i];
        if r !in staging { return Failed; }
        var step := CopyInto(r, staging[r], false);
        if step != Done { return step; }
        if r in fs.dest {
          step := CopyInto(r, fs.dest[r], true);
          if step != Done { return step; }
        }
      }
      return Done;
    }

    /** The caller's hook, then one rename. A path listed twice has nothing left to rename. */
    method ReplaceOne(staging: Files, j: Journal, r: Rel) returns (o: Outcome)
      requires IsPublishing(fs) && fs.tx.value.journal == Some(j)
      requires HasBackup(r, j, fs.tx.value.backup) || WasNew(r, j)
      requires forall x :: x in fs.tx.value.incoming ==> x in staging && fs.tx.value.incoming[x] == Whole(staging[x])
      modifies this`fs, this`events
      ensures IsPublishing(fs) && fs.tx.value.journal == Some(j) && fs.tx.value.backup == old(fs.tx.value.backup)
      ensures Logical(fs) == old(Logical(fs))
      ensures o == Done ==>
        && r in old(fs.tx.value.incoming) && fs.dest == old(fs.dest)[r := staging[r]]
        && fs.tx.value.incoming == old(fs.tx.value.incoming) - {r}
      ensures old(events) == [] ==> events == [] && (o == Done <==> r in old(fs.tx.value.incoming))
    {
      hide Restored;
      var hook := Next();
      if hook != Works { return if hook.Throws? then Failed else Lost; }
      var tx := fs.tx.value;
      if r !in tx.incoming { return Failed; }
      var e := Next();
      if e != Works { return if e.Throws? then Failed else Lost; }
      ReplaceKeepsLogical(fs.dest, j, tx.backup, r, tx.incoming[r].content);
      fs := Fs(fs.dest[r := tx.incoming[r].content], Some(tx.(incoming := tx.incoming - {r})));
      return Done;
    }

    /** The second loop: every staged file over its destination. */
    method ReplaceAll(ghost files: Files, staging: Files, j: Journal) returns (o: Outcome)
      requires IsPublishing(fs) && fs.tx.value.journal == Some(j)
      requires fs.dest == files && Covered(files, j, fs.tx.value.backup)
      requires forall r :: r in j.relativePaths ==> r in staging && r in fs.tx.value.incoming
      requires forall r :: r in fs.tx.value.incoming ==> r in staging && fs.tx.value.incoming[r] == Whole(staging[r])
      modifies this`fs, this`events
      ensures Ready() && IsPublishing(fs) && fs.tx.value.journal == Some(j) && Recoverable(fs) && Logical(fs) == files
      ensures o == Done ==> fs.dest == Updated(files, staging, j.relativePaths)
      ensures old(events) == [] && NoRepeats(j.relativePaths) ==> o == Done && events == []
    {
      ghost var backup := fs.tx.value.backup;
      hide Restored, Logical, Covered, Sound, Settled, Replacing, NoRepeats, Recoverable, HasBackup, WasNew;
      ReplacingStarts(files, staging, j, backup, fs);
      for i := 0 to |j.relativePaths|
        invariant Replacing(files, staging, j, backup, fs, i)
        invariant old(events) == [] ==> events == []
      {
        ReplacingMeans(files, staging, j, backup, fs, i);
        ghost var before := fs;
        o := ReplaceOne(staging, j, j.relativePaths[i]);
        if o != Done {
          PublishingSound(fs, j, backup);
          return;
        }
        ReplacedOne(files, staging, j, backup, before, fs, i);
      }
      ReplacedEvery(files, staging, j, backup, fs);
      PublishingSound(fs, j, backup);
      o := Done;
    }

    /** The `try` block, from the first copy to the committed journal. */
    method PublishBody(staging: Files, j: Journal) returns (o: Outcome)
      requires fs.tx.Some? && fs.tx.value.journal == Some(j) && j.phase == Preparing
      requires fs.tx.value.incoming == map[] && fs.tx.value.backup == map[]
      requires forall r :: r in j.existedPaths <==> r in j.relativePaths && r in fs.dest
      modifies this
      ensures Ready() && fs.tx.Some?
      ensures o == Done ==>
        && commits == old(commits) + [j.(phase := Committed)] && Settled(fs)
        && Logical(fs) == Updated(old(fs.dest), staging, j.relativePaths)
        && forall r :: r in j.relativePaths ==> r in staging
      ensures o != Done ==> commits == old(commits) && Recoverable(fs) && Logical(fs) == old(fs.dest)
      ensures old(events) == [] && Publishable(staging, j.relativePaths) ==> o == Done && events == []
    {
      hide Restored;
      ghost var files := fs.dest;
      o := PrepareCopies(staging, j);
      if o != Done { return; }
      CoveredIsRestored(files, j.(phase := Publishing), fs.tx.value.backup);
      o := WriteJournal(j.(phase := Publishing));
      if o != Done { return; }
      o := ReplaceAll(files, staging, j.(phase := Publishing));
      if o != Done { return; }
      o := WriteJournal(j.(phase := Committed));
    }

    /**
      `publishFilesAtomically`, from an unlocked disk. Publication is one step: the logical content
      changes exactly when the committed journal reaches the disk, and then it is the old content
      with every listed path replaced and nothing else touched.
     */
    method Publish(staging: Files, paths: seq<Rel>) returns (o: Outcome)
      requires Ready()
      modifies this
      ensures Ready()
      ensures old(commits) <= commits && |commits| <= |old(commits)| + 1
      ensures commits == old(commits) ==> Logical(fs) == old(Logical(fs))
      ensures commits != old(commits) ==>
        && Logical(fs) == Updated(old(Logical(fs)), staging, paths)
        && commits[|old(commits)|].relativePaths == paths
        && forall r :: r in paths ==> r in staging
      ensures o == Done ==>
              fs.tx.None? && fs.dest == Updated(old(Logical(fs)), staging, paths) && |commits| == |old(commits)| + 1
      ensures !old(Recoverable(fs)) ==> o != Done && !Recoverable(fs) && commits == old(commits)
      ensures old(events) == [] && old(Recoverable(fs)) && Publishable(staging, paths) ==> o == Done
    {
      var recovered := Recover();
      if recovered != Done { return recovered; }
      ghost var files := fs.dest;
      var e := Next();
      if e != Works { return if e.Throws? then Failed else Lost; }
      fs := fs.(tx := Some(EMPTY_TX));
      var journal := Journal(Preparing, paths, Existing(paths, fs.dest));
      ExistingExact(paths, fs.dest);
      o := WriteJournal(journal);
      if o != Done { return; }
      o := PublishBody(staging, journal);
      if o == Lost { return; }
      if o == Failed {
        var undone := Recover();
        return if undone == Done then Failed else undone;
      }
      o := RemoveTransaction();
    }

    // ---- Whole runs ----

    /**
      Any run: operations follow each other, each cut off wherever the environment decides. The
      logical content at the end is the initial one with exactly the landed publications applied,
      in order; a publication lands when its committed journal reaches the disk. From a disk that lost a
      backup it needs, nothing completes and nothing lands, for good.
     */
    method Run(operations: seq<Operation>) returns (outcomes: seq<Outcome>, ghost landed: seq<bool>)
      requires Ready()
      modifies this
      ensures Ready() && |outcomes| == |operations| && |landed| == |operations|
      ensures Logical(fs) == ApplyLanded(old(Logical(fs)), operations, landed)
      ensures |commits| == |old(commits)| + Count(landed)
      ensures forall i :: 0 <= i < |operations| && operations[i].PublishFiles? && outcomes[i] == Done ==> landed[i]
      ensures !old(Recoverable(fs)) ==> !Recoverable(fs) && NothingDone(outcomes, landed)
      ensures operations != [] && outcomes[|operations| - 1] == Done ==>
              fs == Fs(ApplyLanded(old(Logical(fs)), operations, landed), None)
    {
      hide Logical, Updated, Sound, Recoverable, NothingDone, ApplyLanded, Count;
      outcomes, landed := [], [];
      NothingDoneYet();
      NothingLanded(Logical(fs), operations);
      for i := 0 to |operations|
        invariant Ready() && |outcomes| == i && |landed| == i
        invariant Logical(fs) == ApplyLanded(old(Logical(fs)), operations[..i], landed)
        invariant |commits| == |old(commits)| + Count(landed)
        invariant forall k :: 0 <= k < i && operations[k].PublishFiles? && outcomes[k] == Done ==> landed[k]
        invariant i > 0 && outcomes[i - 1] == Done ==> fs.tx.None?
        invariant !old(Recoverable(fs)) ==> !Recoverable(fs) && NothingDone(outcomes, landed)
      {
        ghost var before := commits;
        var o;
        match operations[i] {
          case RecoverOnly => o := Recover();
          case PublishFiles(staging, paths) => o := Publish(staging, paths);
        }
        NextLanded(old(Logical(fs)), operations, i, landed, |commits| > |before|);
        if !old(Recoverable(fs)) { NothingDoneStill(outcomes, landed, o); }
        outcomes, landed := outcomes + [o], landed + [|commits| > |before|];
      }
      assert operations[..|operations|] == operations;
      NoTransaction(fs);
    }
  }

  /**
    The stuck disk is reached: a publication is cut off before its first rename, the recovery takes the file
    back and is cut off after its cleanup removed the backup but not the journal. The content is all-old, and
    no recovery completes any more.
   */
  method CleanupStrands() returns (disk: Disk, again: Outcome)
    ensures fresh(disk) && disk.Ready() && Logical(disk.fs) == map["a" := "old"]
    ensures !Recoverable(disk.fs) && again != Done
  {
    var files, staging, j := map["a" := "old"], map["a" := "new"], Journal(Preparing, ["a"], ["a"]);
    disk := new Disk(files, []);
    disk.fs := disk.fs.(tx := Some(EMPTY_TX));
    var o := disk.WriteJournal(j);
    o := disk.PrepareCopies(staging, j);
    var publishing := j.(phase := Publishing);
    CoveredIsRestored(files, publishing, disk.fs.tx.value.backup);
    o := disk.WriteJournal(publishing);
    o := disk.RestoreAll();
    assert "a" in publishing.relativePaths && "a" in publishing.existedPaths;
    o := disk.RemoveEntry(BackupEntry("a"));
    assert "a" !in disk.fs.tx.value.backup;
    again := disk.Recover();
  }

  predicate NothingDone(outcomes: seq<Outcome>, landed: seq<bool>) { Done !in outcomes && true !in landed }

  /** The disk while files are replaced: the first `n` listed ones are, and nothing unlisted changed. */
  ghost predicate Replacing(files: Files, staging: Files, j: Journal, backup: map<Rel, Copy>, fs: Fs, n: nat) {
    && n <= |j.relativePaths|
    && IsPublishing(fs) && fs.tx.value.journal == Some(j) && fs.tx.value.backup == backup && Logical(fs) == files
    && (forall r :: r in fs.tx.value.incoming ==> r in staging && fs.tx.value.incoming[r] == Whole(staging[r]))
    && (forall k :: 0 <= k < n ==> j.relativePaths[k] in staging && j.relativePaths[k] in fs.dest
                                   && fs.dest[j.relativePaths[k]] == staging[j.relativePaths[k]])
    && (forall r :: r !in j.relativePaths ==>
          (r in fs.dest <==> r in files) && (r in fs.dest ==> fs.dest[r] == files[r]))
    && (NoRepeats(j.relativePaths) ==>
        forall k :: n <= k < |j.relativePaths| ==> j.relativePaths[k] in fs.tx.value.incoming)
  }

  lemma ReplacingStarts(files: Files, staging: Files, j: Journal, backup: map<Rel, Copy>, fs: Fs)
    requires IsPublishing(fs) && fs.tx.value.journal == Some(j) && fs.tx.value.backup == backup
    requires fs.dest == files && Covered(files, j, backup)
    requires forall r :: r in j.relativePaths ==> r in staging && r in fs.tx.value.incoming
    requires forall r :: r in fs.tx.value.incoming ==> r in staging && fs.tx.value.incoming[r] == Whole(staging[r])
    ensures Replacing(files, staging, j, backup, fs, 0)
    ensures (forall r :: r in j.relativePaths ==> HasBackup(r, j, backup) || WasNew(r, j)) &&
            forall r :: r in backup ==> backup[r].Whole?
  {
    CoveredIsRestored(files, j, backup);
    CoveredKeeps(files, j, backup);
    hide Restored, Covered, HasBackup, WasNew;
  }

  lemma ReplacingMeans(files: Files, staging: Files, j: Journal, backup: map<Rel, Copy>, fs: Fs, n: nat)
    requires Replacing(files, staging, j, backup, fs, n)
    ensures IsPublishing(fs) && fs.tx.value.journal == Some(j) && fs.tx.value.backup == backup && Logical(fs) == files
    ensures forall r :: r in fs.tx.value.incoming ==> r in staging && fs.tx.value.incoming[r] == Whole(staging[r])
    ensures NoRepeats(j.relativePaths) && n < |j.relativePaths| ==> j.relativePaths[n] in fs.tx.value.incoming
  {
    hide Logical;
  }

  lemma ReplacedOne(files: Files, staging: Files, j: Journal, backup: map<Rel, Copy>, before: Fs, after: Fs, n: nat)
    requires n < |j.relativePaths| && Replacing(files, staging, j, backup, before, n)
    requires IsPublishing(after) && after.tx.value.journal == Some(j) && after.tx.value.backup == backup &&
             Logical(after) == Logical(before)
    requires j.relativePaths[n] in before.tx.value.incoming
    requires after.dest == before.dest[j.relativePaths[n] := staging[j.relativePaths[n]]]
    requires after.tx.value.incoming == before.tx.value.incoming - {j.relativePaths[n]}
    ensures Replacing(files, staging, j, backup, after, n + 1)
  {
    hide Logical;
    assert forall r :: r in after.tx.value.incoming ==> r in before.tx.value.incoming;
    assert j.relativePaths[n] in j.relativePaths;
  }

  lemma ReplacedEvery(files: Files, staging: Files, j: Journal, backup: map<Rel, Copy>, fs: Fs)
    requires Replacing(files, staging, j, backup, fs, |j.relativePaths|)
    ensures IsPublishing(fs) && fs.tx.value.journal == Some(j) && fs.tx.value.backup == backup && Logical(fs) == files
    ensures fs.dest == Updated(files, staging, j.relativePaths)
  {
    hide Logical;
    AllReplaced(files, fs.dest, staging, j.relativePaths);
  }

  /** A covered path can be taken back, or was new. */
  lemma CoveredKeeps(files: Files, j: Journal, backup: map<Rel, Copy>)
    requires Covered(files, j, backup)
    ensures forall r :: r in j.relativePaths ==> HasBackup(r, j, backup) || WasNew(r, j)
    ensures forall r :: r in backup ==> backup[r].Whole?
  {}

  lemma PublishingSound(fs: Fs, j: Journal, backup: map<Rel, Copy>)
    requires IsPublishing(fs) && fs.tx.value.journal == Some(j) && fs.tx.value.backup == backup
    requires (forall r :: r in j.relativePaths ==> HasBackup(r, j, backup) || WasNew(r, j)) &&
             forall r :: r in backup ==> backup[r].Whole?
    ensures Sound(fs) && Recoverable(fs)
  {}

  lemma NothingLanded(files: Files, operations: seq<Operation>)
    ensures ApplyLanded(files, operations[..0], []) == files && Count([]) == 0
  {}

  lemma NothingDoneYet()
    ensures NothingDone([], [])
  {}

  lemma NothingDoneStill(outcomes: seq<Outcome>, landed: seq<bool>, o: Outcome)
    requires NothingDone(outcomes, landed) && o != Done
    ensures NothingDone(outcomes + [o], landed + [false])
  {}

  lemma NoTransaction(fs: Fs)
    ensures fs.tx.None? ==> Logical(fs) == fs.dest
  {}

  lemma NextLanded(files: Files, operations: seq<Operation>, i: nat, landed: seq<bool>, now: bool)
    requires i < |operations| && |landed| == i
    ensures var before := ApplyLanded(files, operations[..i], landed);
            ApplyLanded(files, operations[..i + 1], landed + [now]) ==
            if now && operations[i].PublishFiles? then Updated(before, operations[i].staging, operations[i].paths)
            else before
    ensures Count(landed + [now]) == Count(landed) + (if now then 1 else 0)
  {
    assert operations[..i + 1][..i] == operations[..i] && (landed + [now])[..i] == landed;
  }

  datatype Operation = RecoverOnly | PublishFiles(staging: Files, paths: seq<Rel>)

  /** The contents after the landed publications, as if each were one step. */
  function ApplyLanded(files: Files, operations: seq<Operation>, landed: seq<bool>): Files
    requires |operations| == |landed|
  {
    if operations == [] then files
    else
      var n := |operations| - 1;
      var before := ApplyLanded(files, operations[..n], landed[..n]);
      if landed[n] && operations[n].PublishFiles? then Updated(before, operations[n].staging, operations[n].paths)
      else before
  }

  function Count(landed: seq<bool>): nat {
    if landed == [] then 0 else Count(landed[..|landed| - 1]) + (if landed[|landed| - 1] then 1 else 0)
  }

  /** Paths listed once, every one staged. */
  ghost predicate Publishable(staging: Files, paths: seq<Rel>) {
    (forall r :: r in paths ==> r in staging) && NoRepeats(paths)
  }

  /** `relativePaths.filter(existsSync)`. */
  function Existing(paths: seq<Rel>, files: Files): seq<Rel> {
    if paths == [] then [] else (if paths[0] in files then [paths[0]] else []) + Existing(paths[1..], files)
  }

  lemma {:induction false} ExistingExact(paths: seq<Rel>, files: Files)
    ensures forall r :: r in Existing(paths, files) <==> r in paths && r in files
  {
    if paths != [] {
      ExistingExact(paths[1..], files);
      assert paths == [paths[0]] + paths[1..];
    }
  }
}
