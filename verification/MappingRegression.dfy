/**
  scripts/prepare-data-update.ts:200-279: when a new catalogue mapping counts as worse than the one in
  use, and why a run of accepted updates never ends worse than it began.
 */
module MappingRegression {
  import opened Wrappers

  datatype FactionCoverage = FactionCoverage(configurationAvailable: bool, mappedUnits: int, mappedDetachments: int)

  datatype Catalogue = Catalogue(factionCount: int, exportCapableFactions: int, conflicts: int, blockingConflicts: int,
                                 uniqueConflicts: Option<int>, uniqueBlockingConflicts: Option<int>,
                                 factionIds: seq<string>, factions: map<string, FactionCoverage>)

  datatype Reason = FactionCountChanged | ExportFell | ConflictsRose | BlockingRose | UniqueGone | UniqueRose
                  | UniqueBlockingGone | UniqueBlockingRose | ExportLost(factionId: string)

  /** `factionIds` lists the keys of `factions`. */
  predicate Listed(c: Catalogue) { forall f :: f in c.factions ==> f in c.factionIds }

  predicate ExportAvailable(c: Catalogue, f: string) {
    f in c.factions && c.factions[f].configurationAvailable && c.factions[f].mappedUnits > 0 &&
    c.factions[f].mappedDetachments > 0
  }

  /** A faction whose configuration, units and detachments are all mapped. */
  ghost predicate CanExport(c: Catalogue, f: string) {
    f in c.factions && match c.factions[f] case FactionCoverage(configured, units, detachments) =>
      configured && units >= 1 && detachments >= 1
  }

  predicate NotRisen(before: Option<int>, after: Option<int>) {
    before.Some? ==> after.Some? && after.value <= before.value
  }

  /** The next catalogue is at least as good as the previous one. */
  ghost predicate NoRegression(previous: Catalogue, next: Catalogue) {
    && next.factionCount == previous.factionCount && next.exportCapableFactions >= previous.exportCapableFactions
    && next.conflicts <= previous.conflicts && next.blockingConflicts <= previous.blockingConflicts
    && NotRisen(previous.uniqueConflicts, next.uniqueConflicts)
    && NotRisen(previous.uniqueBlockingConflicts, next.uniqueBlockingConflicts)
    && forall f :: CanExport(previous, f) ==> CanExport(next, f)
  }

  /** The reason applies to the two catalogues. */
  ghost predicate Applies(previous: Catalogue, next: Catalogue, reason: Reason) {
    match reason
    case FactionCountChanged => next.factionCount != previous.factionCount
    case ExportFell => next.exportCapableFactions < previous.exportCapableFactions
    case ConflictsRose => next.conflicts > previous.conflicts
    case BlockingRose => next.blockingConflicts > previous.blockingConflicts
    case UniqueGone => previous.uniqueConflicts.Some? && next.uniqueConflicts.None?
    case UniqueRose => Rose(previous.uniqueConflicts, next.uniqueConflicts)
    case UniqueBlockingGone => previous.uniqueBlockingConflicts.Some? && next.uniqueBlockingConflicts.None?
    case UniqueBlockingRose => Rose(previous.uniqueBlockingConflicts, next.uniqueBlockingConflicts)
    case ExportLost(f) => CanExport(previous, f) && !CanExport(next, f)
  }

  ghost predicate Rose(before: Option<int>, after: Option<int>) {
    before.Some? && after.Some? && after.value > before.value
  }

  /** The reasons that compare the totals of the catalogues. */
  method TotalsReasons(previous: Catalogue, next: Catalogue) returns (reasons: seq<Reason>)
    ensures forall x :: x in reasons <==> !x.ExportLost? && Applies(previous, next, x)
  {
    reasons := [];
    if next.factionCount != previous.factionCount { reasons := reasons + [FactionCountChanged]; }
    if next.exportCapableFactions < previous.exportCapableFactions { reasons := reasons + [ExportFell]; }
    if next.conflicts > previous.conflicts { reasons := reasons + [ConflictsRose]; }
    if next.blockingConflicts > previous.blockingConflicts { reasons := reasons + [BlockingRose]; }
    assert forall x :: x in reasons <==>
      (x.FactionCountChanged? || x.ExportFell? || x.ConflictsRose? || x.BlockingRose?) && Applies(previous, next, x);
    reasons := reasons + Risen(previous.uniqueConflicts, next.uniqueConflicts, UniqueGone, UniqueRose)
                       + Risen(previous.uniqueBlockingConflicts, next.uniqueBlockingConflicts, UniqueBlockingGone,
                               UniqueBlockingRose);
  }

  /** `mappingRegressionReasons`, before the final sort: exactly the reasons that apply. */
  method MappingRegressionReasons(previous: Catalogue, next: Catalogue) returns (reasons: seq<Reason>)
    requires Listed(previous)
    ensures forall x :: x in reasons <==> Applies(previous, next, x)
    ensures reasons == [] <==> NoRegression(previous, next)
  {
    reasons := TotalsReasons(previous, next);
    for i := 0 to |previous.factionIds|
      invariant forall x :: x in reasons && !x.ExportLost? <==> !x.ExportLost? && Applies(previous, next, x)
      invariant forall f :: ExportLost(f) in reasons <==> f in previous.factionIds[..i] && !Kept(previous, next, f)
    {
      var factionId := previous.factionIds[i];
      assert previous.factionIds[..i + 1] == previous.factionIds[..i] + [factionId];
      if ExportAvailable(previous, factionId) && !ExportAvailable(next, factionId) {
        reasons := reasons + [ExportLost(factionId)];
      }
    }
    assert previous.factionIds[..|previous.factionIds|] == previous.factionIds;
    LostIff(previous, next);
    NoneAppliesIff(previous, next);
    hide Applies, NoRegression;
    forall x ensures x in reasons <==> Applies(previous, next, x) {}
    if reasons != [] { assert reasons[0] in reasons; }
  }

  predicate Kept(previous: Catalogue, next: Catalogue, f: string) {
    ExportAvailable(previous, f) ==> ExportAvailable(next, f)
  }

  lemma LostIff(previous: Catalogue, next: Catalogue)
    requires Listed(previous)
    ensures forall f :: Applies(previous, next, ExportLost(f)) <==> f in previous.factionIds && !Kept(previous, next, f)
  {}

  lemma NoneAppliesIff(previous: Catalogue, next: Catalogue)
    ensures NoRegression(previous, next) <==> forall x :: !Applies(previous, next, x)
  {
    if forall x :: !Applies(previous, next, x) {
      assert !Applies(previous, next, FactionCountChanged) && !Applies(previous, next, ExportFell) &&
             !Applies(previous, next, ConflictsRose) && !Applies(previous, next, BlockingRose);
      assert !Applies(previous, next, UniqueGone) && !Applies(previous, next, UniqueRose) &&
             !Applies(previous, next, UniqueBlockingGone) && !Applies(previous, next, UniqueBlockingRose);
      forall f | CanExport(previous, f) ensures CanExport(next, f) {
        assert !Applies(previous, next, ExportLost(f));
      }
    }
  }

  function Risen(before: Option<int>, after: Option<int>, gone: Reason, rose: Reason): (r: seq<Reason>)
    ensures forall x :: x in r <==> (x == gone && before.Some? && after.None?) || (x == rose && Rose(before, after))
  {
    if before.Some? && after.None? then [gone]
    else if before.Some? && after.Some? && after.value > before.value then [rose]
    else []
  }

  /** A run of updates, each accepted against the one before it. */
  ghost predicate Accepted(releases: seq<Catalogue>) {
    forall i, j :: 0 <= i && j == i + 1 && j < |releases| ==> NoRegression(releases[i], releases[j])
  }

  /** However many updates are accepted one after the other, the last is no worse than any before it. */
  lemma {:induction false} AcceptedRunNeverWorse(releases: seq<Catalogue>, i: nat, j: nat)
    requires Accepted(releases) && i <= j < |releases|
    ensures NoRegression(releases[i], releases[j])
    decreases j - i
  {
    hide CanExport;
    if i < j {
      AcceptedRunNeverWorse(releases, i, j - 1);
      assert NoRegression(releases[j - 1], releases[j]);
    }
  }
}
