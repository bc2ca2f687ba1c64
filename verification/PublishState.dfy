/**
  scripts/prepare-data-update.ts:296-304, 412-474, 492-565: what is on disk while a set of files is
  published, and what a reader may rely on.

  `Logical` is the content of the project once recovery has done its work: the destination, except
  that a journal in phase `publishing` takes every listed path back to its backup.
 */
module PublishState {
  import opened Wrappers

  type Rel = string
  type Content = string
  type Files = map<Rel, Content>

  /** A file of the transaction directory; a copy that was interrupted is torn. */
  datatype Copy = Whole(content: Content) | Torn

  datatype Phase = Preparing | Publishing | Committed

  datatype Journal = Journal(phase: Phase, relativePaths: seq<Rel>, existedPaths: seq<Rel>)

  datatype NextJournal = Complete(journal: Journal) | TornJournal

  /** The transaction directory. */
  datatype Tx = Tx(
    journal: Option<Journal>,
    next: Option<NextJournal>,
    incoming: map<Rel, Copy>,
    backup: map<Rel, Copy>,
    recovery: map<Rel, Copy>)

  datatype Fs = Fs(dest: Files, tx: Option<Tx>)

  const EMPTY_TX := Tx(None, None, map[], map[], map[])

  predicate IsPublishing(fs: Fs) {
    fs.tx.Some? && fs.tx.value.journal.Some? && fs.tx.value.journal.value.phase == Publishing
  }

  /** The path is taken back from a backup. */
  predicate HasBackup(r: Rel, j: Journal, backup: map<Rel, Copy>) {
    r in j.relativePaths && r in j.existedPaths && r in backup && backup[r].Whole?
  }

  /** The path is listed and was new, so it is removed. */
  predicate WasNew(r: Rel, j: Journal) { r in j.relativePaths && r !in j.existedPaths }

  function Restored(dest: Files, j: Journal, backup: map<Rel, Copy>): Files {
    map r | r in dest.Keys + backup.Keys && (HasBackup(r, j, backup) || (r in dest && !WasNew(r, j))) ::
      if HasBackup(r, j, backup) then backup[r].content else dest[r]
  }

  function Logical(fs: Fs): Files {
    if IsPublishing(fs) then Restored(fs.dest, fs.tx.value.journal.value, fs.tx.value.backup) else fs.dest
  }

  /** The destination needs no recovery: it already is what recovery would produce. */
  predicate Settled(fs: Fs) { Logical(fs) == fs.dest }

  /** Every path that recovery has to take back still has its backup. */
  predicate Recoverable(fs: Fs) {
    IsPublishing(fs) ==>
      forall r :: r in fs.tx.value.journal.value.relativePaths && r in fs.tx.value.journal.value.existedPaths ==>
        r in fs.tx.value.backup
  }

  /** What holds of the disk whenever no process runs, whatever was interrupted before. */
  ghost predicate Sound(fs: Fs) {
    && (IsPublishing(fs) ==> forall r :: r in fs.tx.value.backup ==> fs.tx.value.backup[r].Whole?)
    && (Recoverable(fs) || Settled(fs))
  }

  /** The project with the listed paths replaced by their staged content. */
  function Updated(files: Files, staging: Files, paths: seq<Rel>): Files {
    files + (map r | r in paths && r in staging :: staging[r])
  }

  // ---- Removing the transaction directory, file by file ----

  datatype Entry = JournalEntry | NextEntry | IncomingEntry(r: Rel) | BackupEntry(r: Rel) | RecoveryEntry(r: Rel)

  predicate Present(tx: Tx, e: Entry) {
    match e
    case JournalEntry => tx.journal.Some?
    case NextEntry => tx.next.Some?
    case IncomingEntry(r) => r in tx.incoming
    case BackupEntry(r) => r in tx.backup
    case RecoveryEntry(r) => r in tx.recovery
  }

  function Remove(tx: Tx, e: Entry): Tx {
    match e
    case JournalEntry => tx.(journal := None)
    case NextEntry => tx.(next := None)
    case IncomingEntry(r) => tx.(incoming := tx.incoming - {r})
    case BackupEntry(r) => tx.(backup := tx.backup - {r})
    case RecoveryEntry(r) => tx.(recovery := tx.recovery - {r})
  }

  /** How many files are left. */
  function Size(tx: Tx): nat {
    (if tx.journal.Some? then 1 else 0) + (if tx.next.Some? then 1 else 0) + |tx.incoming| + |tx.backup| + |tx.recovery|
  }

  lemma RemoveKey<V>(m: map<Rel, V>, r: Rel)
    requires r in m
    ensures |m - {r}| == |m| - 1
  {
    assert (m - {r}).Keys == m.Keys - {r};
    assert |m.Keys - {r}| == |m.Keys| - 1;
  }

  lemma RemoveShrinks(tx: Tx, e: Entry)
    requires Present(tx, e)
    ensures Size(Remove(tx, e)) == Size(tx) - 1
  {
    match e
    case JournalEntry =>
    case NextEntry =>
    case IncomingEntry(r) => RemoveKey(tx.incoming, r);
    case BackupEntry(r) => RemoveKey(tx.backup, r);
    case RecoveryEntry(r) => RemoveKey(tx.recovery, r);
  }

  lemma SomethingPresent(tx: Tx)
    requires Size(tx) > 0
    ensures exists e :: Present(tx, e)
  {
    if tx.journal.Some? { assert Present(tx, JournalEntry); }
    else if tx.next.Some? { assert Present(tx, NextEntry); }
    else if |tx.incoming| > 0 { var r :| r in tx.incoming.Keys; assert Present(tx, IncomingEntry(r)); }
    else if |tx.backup| > 0 { var r :| r in tx.backup.Keys; assert Present(tx, BackupEntry(r)); }
    else { var r :| r in tx.recovery.Keys; assert Present(tx, RecoveryEntry(r)); }
  }

  /** Once the destination is settled, files may go in any order: nothing a reader sees changes. */
  lemma RemoveKeepsSettled(fs: Fs, e: Entry)
    requires fs.tx.Some? && Settled(fs) && Sound(fs)
    ensures var after := fs.(tx := Some(Remove(fs.tx.value, e)));
            Settled(after) && Sound(after) && Logical(after) == Logical(fs)
  {
    var after := fs.(tx := Some(Remove(fs.tx.value, e)));
    if IsPublishing(fs) && e.BackupEntry? {
      var j, b, b' := fs.tx.value.journal.value, fs.tx.value.backup, after.tx.value.backup;
      forall r ensures r in Restored(fs.dest, j, b') <==> r in fs.dest {
        assert r in Restored(fs.dest, j, b) <==> r in fs.dest;
      }
      forall r | r in fs.dest ensures Restored(fs.dest, j, b')[r] == fs.dest[r] {
        assert Restored(fs.dest, j, b)[r] == fs.dest[r];
      }
      assert Restored(fs.dest, j, b') == fs.dest;
    }
  }

  // ---- Steps of recovery ----

  /** Taking one listed path back to its backup is no change to the logical content. */
  lemma RestoreKeepsLogical(dest: Files, j: Journal, backup: map<Rel, Copy>, r: Rel)
    requires HasBackup(r, j, backup)
    ensures Restored(dest[r := backup[r].content], j, backup) == Restored(dest, j, backup)
    ensures Restored(dest, j, backup) == dest ==> dest[r := backup[r].content] == dest
  {
    assert r in Restored(dest, j, backup) && Restored(dest, j, backup)[r] == backup[r].content;
  }

  lemma DeleteKeepsLogical(dest: Files, j: Journal, backup: map<Rel, Copy>, r: Rel)
    requires WasNew(r, j)
    ensures Restored(dest - {r}, j, backup) == Restored(dest, j, backup)
    ensures Restored(dest, j, backup) == dest ==> dest - {r} == dest
  {
    assert r !in Restored(dest, j, backup);
  }

  predicate Back(dest: Files, j: Journal, backup: map<Rel, Copy>, r: Rel) {
    (HasBackup(r, j, backup) ==> r in dest && dest[r] == backup[r].content) && (WasNew(r, j) ==> r !in dest)
  }

  /** When every listed path is back, the destination is settled. */
  lemma AllBack(dest: Files, j: Journal, backup: map<Rel, Copy>)
    requires forall r :: r in j.relativePaths ==> Back(dest, j, backup, r)
    ensures Restored(dest, j, backup) == dest
  {
    forall r ensures r in Restored(dest, j, backup) <==> r in dest {
      assert HasBackup(r, j, backup) ==> Back(dest, j, backup, r);
      assert WasNew(r, j) ==> Back(dest, j, backup, r);
    }
  }

  // ---- Steps of publication ----

  /** Replacing a listed path does not change what recovery would restore. */
  lemma ReplaceKeepsLogical(dest: Files, j: Journal, backup: map<Rel, Copy>, r: Rel, c: Content)
    requires HasBackup(r, j, backup) || WasNew(r, j)
    ensures Restored(dest[r := c], j, backup) == Restored(dest, j, backup)
  {}

  /** Every listed path is covered: backed up with the content it has, or new. */
  predicate Covered(files: Files, j: Journal, backup: map<Rel, Copy>) {
    && (forall r :: r in backup ==> r in files && backup[r] == Whole(files[r]))
    && (forall r :: r in j.relativePaths ==> (r in j.existedPaths <==> r in files) && (r in files ==> r in backup))
  }

  /** Entering phase `publishing` with every path covered changes nothing. */
  lemma CoveredIsRestored(files: Files, j: Journal, backup: map<Rel, Copy>)
    requires Covered(files, j, backup)
    ensures Restored(files, j, backup) == files
  {}

  /** A destination where every listed path is replaced is the update of the old one. */
  lemma AllReplaced(files: Files, dest: Files, staging: Files, paths: seq<Rel>)
    requires forall r :: r in paths ==> r in staging && r in dest && dest[r] == staging[r]
    requires forall r :: r !in paths ==> (r in dest <==> r in files) && (r in dest ==> dest[r] == files[r])
    ensures dest == Updated(files, staging, paths)
  {}
}
