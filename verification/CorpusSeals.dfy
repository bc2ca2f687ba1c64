/**
  What the three digests of a corpus report stand for (lib/rosterpilot/combat-corpus-conformance.ts:1010-1140 and
  1582-1640): everything in the inventory, the overlay and the report, except the order things are listed in and how
  often a phase or an id is repeated.
 */
module CorpusSeals {
  import opened Sequences
  import opened Wrappers
  import opened Ordering
  import opened SourceInventory
  import opened InventoryTraversal
  import opened InventoryValidity
  import opened InventoryBuilder
  import opened CorpusReport
  import opened CorpusAdmission
  import opened CorpusCreation

  // ---- Inventories ----

  ghost predicate SameInventory(a: Inventory, b: Inventory) {
    && (forall s :: s in a.sources <==> s in b.sources) && (forall f :: f in a.fragments <==> f in b.fragments)
    && (forall l :: l in a.leaves <==> l in b.leaves) && (forall i :: i in a.issues <==> i in b.issues)
  }

  /** Valid inventories have the same normal form exactly when they list the same things. */
  lemma InventoryIff(a: Inventory, b: Inventory)
    requires ValidInventory(a) && ValidInventory(b)
    ensures Normalize(a) == Normalize(b) <==> SameInventory(a, b)
  {
    NormalMembers(a);
    NormalMembers(b);
    if SameInventory(a, b) {
      SameSorted(a, b);
    } else {
      hide Normalize, ValidInventory;
    }
  }

  lemma SameSorted(a: Inventory, b: Inventory)
    requires ValidInventory(a) && ValidInventory(b) && SameInventory(a, b)
    ensures Normalize(a) == Normalize(b)
  {
    hide LeafSound, RootSound, FragmentSound, IssueSound, SortBy, ByKey, DistinctKeys;
    ByKeySameSorted(SourceKey(), a.sources, b.sources);
    ByKeySameSorted(FragmentKey(), a.fragments, b.fragments);
    ByKeySameSorted(LeafKey(), a.leaves, b.leaves);
    IssuesSameSorted(a, b);
  }

  // ---- Accounts ----

  ghost predicate SameEvidence(a: Evidence, b: Evidence) {
    match a
    case InSource(grounds, phases, pointer, sha) =>
      b.InSource? && b.grounds == grounds && SamePhases(phases, b.phases) && b.jsonPointer == pointer &&
      b.fragmentSha256 == sha
    case Reviewed(phases, id) => b.Reviewed? && SamePhases(phases, b.phases) && b.overlayEntryId == id
    case NotRequired(_) => a == b
    case Unresolved(_) => a == b
  }

  ghost predicate SameDisposition(a: Disposition, b: Disposition) {
    match a
    case Calculated(ids) => b.Calculated? && SameMembers(ids, b.mechanicIds)
    case StateRequired(ids, reason) => b.StateRequired? && SameMembers(ids, b.mechanicIds) && b.reason == reason
    case OutOfCalculator(_, _) => a == b
    case NotRelevant(_, _) => a == b
    case Unsupported(_) => a == b
  }

  ghost predicate SameAccount(a: LeafAccount, b: LeafAccount) {
    && a.leafId == b.leafId && SameEvidence(a.evidence, b.evidence) && SameMembers(a.stateKeys, b.stateKeys)
    && SameDisposition(a.disposition, b.disposition)
  }

  lemma EvidenceIff(a: Evidence, b: Evidence)
    ensures NormalEvidence(a) == NormalEvidence(b) <==> SameEvidence(a, b)
  {
    hide NormalPhases, SamePhases;
    if HasPhases(a) && HasPhases(b) { PhasesEqualIff(a.phases, b.phases); }
  }

  lemma DispositionIff(a: Disposition, b: Disposition)
    ensures NormalDisposition(a) == NormalDisposition(b) <==> SameDisposition(a, b)
  {
    hide SortedUnique, SameMembers;
    if Combat(a) && Combat(b) { SortedUniqueEqualIff(a.mechanicIds, b.mechanicIds); }
  }

  lemma AccountIff(a: LeafAccount, b: LeafAccount)
    ensures NormalAccount(a) == NormalAccount(b) <==> SameAccount(a, b)
  {
    EvidenceIff(a.evidence, b.evidence);
    DispositionIff(a.disposition, b.disposition);
    SortedUniqueEqualIff(a.stateKeys, b.stateKeys);
    hide NormalEvidence, NormalDisposition, SortedUnique, SameEvidence, SameDisposition, SameMembers;
  }

  /** Every account of the one list is the same as some account of the other. */
  ghost predicate AccountsWithin(s: seq<LeafAccount>, t: seq<LeafAccount>) {
    forall a :: a in s ==> exists b :: b in t && SameAccount(a, b)
  }

  lemma AccountsIff(s: seq<LeafAccount>, t: seq<LeafAccount>)
    requires DistinctKeys(AccountKey(), s) && DistinctKeys(AccountKey(), t)
    ensures SortedAccounts(s) == SortedAccounts(t) <==> AccountsWithin(s, t) && AccountsWithin(t, s)
  {
    SortedAccountsMembers(s);
    SortedAccountsMembers(t);
    forall a, b ensures NormalAccount(a) == NormalAccount(b) <==> SameAccount(a, b) { AccountIff(a, b); }
    hide SortedAccounts, NormalAccount, SameAccount, DistinctKeys;
    if SortedAccounts(s) == SortedAccounts(t) {
      forall a | a in s ensures exists b :: b in t && SameAccount(a, b) {
        assert NormalAccount(a) in SortedAccounts(t);
      }
      forall a | a in t ensures exists b :: b in s && SameAccount(a, b) {
        assert NormalAccount(a) in SortedAccounts(s);
      }
    }
    if AccountsWithin(s, t) && AccountsWithin(t, s) {
      SortedWithin(s, t);
      SortedWithin(t, s);
      AccountsSorted(s, t);
    }
  }

  lemma SortedWithin(s: seq<LeafAccount>, t: seq<LeafAccount>)
    requires AccountsWithin(s, t)
    ensures forall x :: x in SortedAccounts(s) ==> x in SortedAccounts(t)
  {
    SortedAccountsMembers(s);
    SortedAccountsMembers(t);
    hide SortedAccounts, NormalAccount, SameAccount;
    forall x | x in SortedAccounts(s) ensures x in SortedAccounts(t) {
      var a :| a in s && x == NormalAccount(a);
      var b :| b in t && SameAccount(a, b);
      AccountIff(a, b);
    }
  }

  /** Sorted lists of accounts with the same members are equal. */
  lemma AccountsSorted(s: seq<LeafAccount>, t: seq<LeafAccount>)
    requires DistinctKeys(AccountKey(), s) && DistinctKeys(AccountKey(), t)
    requires forall x :: x in SortedAccounts(s) <==> x in SortedAccounts(t)
    ensures SortedAccounts(s) == SortedAccounts(t)
  {
    SortedAccountsDistinct(s);
    SortedAccountsDistinct(t);
    SortedAccountsAscend(s);
    SortedAccountsAscend(t);
    hide SortedAccounts, DistinctKeys, SortBy;
    ByKeySameSorted(AccountKey(), SortedAccounts(s), SortedAccounts(t));
    SortedStays(SortedAccounts(s));
    SortedStays(SortedAccounts(t));
  }

  lemma SortedAccountsAscend(s: seq<LeafAccount>)
    ensures SortedBy(ByKey(AccountKey()), SortedAccounts(s))
  {
    ByKeySorted(AccountKey(), NormalAccounts(s));
  }

  // ---- Reports ----

  /** Two reports that differ in nothing but order, repetitions and their own digest. */
  ghost predicate SameReport(r: Report, s: Report) {
    && r.runtime == s.runtime && r.sourceInventorySha256 == s.sourceInventorySha256
    && r.overlaySha256 == s.overlaySha256 && r.summary == s.summary
    && r.inventory.bundle == s.inventory.bundle && r.inventory.inventorySha256 == s.inventory.inventorySha256
    && SameInventory(r.inventory.body, s.inventory.body)
    && SameMembers(r.supportedStateKeys, s.supportedStateKeys)
    && AccountsWithin(r.accounts, s.accounts) && AccountsWithin(s.accounts, r.accounts)
  }

  lemma DraftIff(r: Report, s: Report)
    requires ReportSchema(r) && ReportSchema(s)
    ensures ReportDraft(r) == ReportDraft(s) <==> SameReport(r, s)
  {
    hide NoRepeats, AccountFits, DistinctKeys, IdsDistinct, FragmentSound, LeafSound, IssueSound, RootSound;
    InventoryIff(r.inventory.body, s.inventory.body);
    SortedUniqueEqualIff(r.supportedStateKeys, s.supportedStateKeys);
    AccountsIff(r.accounts, s.accounts);
    DraftParts(r, s);
    hide *;
  }

  /** Which parts of a draft are compared. */
  lemma DraftParts(r: Report, s: Report)
    ensures ReportDraft(r) == ReportDraft(s) <==>
            && r.runtime == s.runtime && r.sourceInventorySha256 == s.sourceInventorySha256
            && r.overlaySha256 == s.overlaySha256 && r.summary == s.summary
            && r.inventory.bundle == s.inventory.bundle && r.inventory.inventorySha256 == s.inventory.inventorySha256
            && Normalize(r.inventory.body) == Normalize(s.inventory.body)
            && SortedUnique(r.supportedStateKeys) == SortedUnique(s.supportedStateKeys)
            && SortedAccounts(r.accounts) == SortedAccounts(s.accounts)
  {
    hide Normalize, SortedUnique, SortBy, NormalAccounts;
  }

  /** Two sealed reports carry the same digest exactly when they say the same, unless their drafts collide. */
  lemma SealIff(h: Seals, r: Report, s: Report)
    requires ReportSchema(r) && ReportSchema(s) && ReportSealed(h, r) && ReportSealed(h, s)
    requires h.report(ReportDraft(r)) == h.report(ReportDraft(s)) ==> ReportDraft(r) == ReportDraft(s)
    ensures r.reportSha256 == s.reportSha256 <==> SameReport(r, s)
  {
    DraftIff(r, s);
    hide ReportSchema, ReportDraft, SameReport;
  }

  // ---- Inventories and overlays ----

  /** The digest of an inventory covers its bundle and everything it lists, in any order. */
  lemma InventorySealIff(h: Seals, a: CorpusInventory, b: CorpusInventory)
    requires InventorySchema(a) && InventorySchema(b) && InventorySealed(h, a) && InventorySealed(h, b)
    requires h.inventory(InventoryDraft(a)) == h.inventory(InventoryDraft(b)) ==> InventoryDraft(a) == InventoryDraft(b)
    ensures a.inventorySha256 == b.inventorySha256 <==> a.bundle == b.bundle && SameInventory(a.body, b.body)
  {
    InventoryIff(a.body, b.body);
    hide Normalize, SameInventory, ValidInventory;
  }

  ghost predicate SameEntry(a: OverlayEntry, b: OverlayEntry) {
    && a.entryId == b.entryId && a.source == b.source && a.evidence == b.evidence
    && match a {
         case PhaseMapping(_, _, _, phases) => b.PhaseMapping? && SamePhases(phases, b.phases)
         case AbilityBinding(_, _, _, subject, ids) =>
           b.AbilityBinding? && b.subject == subject && SameMembers(ids, b.abilityIds)
         case CalculatorScope(_, _, _, scope) => b.CalculatorScope? && b.scope == scope
       }
  }

  lemma EntryIff(a: OverlayEntry, b: OverlayEntry)
    ensures NormalEntry(a) == NormalEntry(b) <==> SameEntry(a, b)
  {
    hide NormalPhases, SamePhases, SortedUnique, SameMembers;
    if a.PhaseMapping? && b.PhaseMapping? { PhasesEqualIff(a.phases, b.phases); }
    if a.AbilityBinding? && b.AbilityBinding? { SortedUniqueEqualIff(a.abilityIds, b.abilityIds); }
  }

  lemma {:induction false} NormalEntriesAt(entries: seq<OverlayEntry>)
    ensures |NormalEntries(entries)| == |entries|
    ensures forall i :: 0 <= i < |entries| ==> NormalEntries(entries)[i] == NormalEntry(entries[i])
  {
    hide NormalEntry;
    if entries != [] { NormalEntriesAt(entries[1..]); }
  }

  lemma NormalEntriesMembers(entries: seq<OverlayEntry>)
    ensures forall b :: b in NormalEntries(entries) <==> exists a :: a in entries && b == NormalEntry(a)
  {
    var normal := NormalEntries(entries);
    NormalEntriesAt(entries);
    hide NormalEntry, NormalEntries;
    forall b ensures b in normal <==> exists a :: a in entries && b == NormalEntry(a) {
      if b in normal {
        var i :| 0 <= i < |normal| && normal[i] == b;
        assert entries[i] in entries;
      }
      if a :| a in entries && b == NormalEntry(a) {
        var i :| 0 <= i < |entries| && entries[i] == a;
        assert normal[i] in normal;
      }
    }
  }

  lemma NormalEntriesDistinct(entries: seq<OverlayEntry>)
    requires DistinctKeys(EntryKey(), entries)
    ensures DistinctKeys(EntryKey(), NormalEntries(entries))
  {
    NormalEntriesAt(entries);
    hide NormalEntries;
    var normal := NormalEntries(entries);
    forall i, j | 0 <= i < j < |normal| ensures EntryKey()(normal[i]) != EntryKey()(normal[j]) {
      assert EntryKey()(entries[i]) != EntryKey()(entries[j]);
    }
  }

  ghost predicate EntriesWithin(s: seq<OverlayEntry>, t: seq<OverlayEntry>) {
    forall a :: a in s ==> exists b :: b in t && SameEntry(a, b)
  }

  lemma EntriesWithinIff(s: seq<OverlayEntry>, t: seq<OverlayEntry>)
    ensures EntriesWithin(s, t) <==> forall x :: x in NormalEntries(s) ==> x in NormalEntries(t)
  {
    NormalEntriesMembers(s);
    NormalEntriesMembers(t);
    hide NormalEntries, NormalEntry, SameEntry;
    if EntriesWithin(s, t) {
      forall x | x in NormalEntries(s) ensures x in NormalEntries(t) {
        var a :| a in s && x == NormalEntry(a);
        var b :| b in t && SameEntry(a, b);
        EntryIff(a, b);
      }
    }
    if forall x :: x in NormalEntries(s) ==> x in NormalEntries(t) {
      forall a | a in s ensures exists b :: b in t && SameEntry(a, b) {
        assert NormalEntry(a) in NormalEntries(t);
        var b :| b in t && NormalEntry(a) == NormalEntry(b);
        EntryIff(a, b);
      }
    }
  }

  lemma EntriesIff(s: seq<OverlayEntry>, t: seq<OverlayEntry>)
    requires DistinctKeys(EntryKey(), s) && DistinctKeys(EntryKey(), t)
    ensures SortBy(ByKey(EntryKey()), NormalEntries(s)) == SortBy(ByKey(EntryKey()), NormalEntries(t)) <==>
            EntriesWithin(s, t) && EntriesWithin(t, s)
  {
    EntriesWithinIff(s, t);
    EntriesWithinIff(t, s);
    NormalEntriesDistinct(s);
    NormalEntriesDistinct(t);
    SortByMembers(ByKey(EntryKey()), NormalEntries(s));
    SortByMembers(ByKey(EntryKey()), NormalEntries(t));
    hide NormalEntries, EntriesWithin, DistinctKeys, SortBy, EntryKey, ByKey;
    if EntriesWithin(s, t) && EntriesWithin(t, s) {
      ByKeySameSorted(EntryKey(), NormalEntries(s), NormalEntries(t));
    }
  }

  /** The digest of an overlay covers its bundle, its inventory and all its entries, in any order. */
  lemma OverlaySealIff(h: Seals, o: Overlay, p: Overlay)
    requires OverlaySchema(o) && OverlaySchema(p) && OverlaySealed(h, o) && OverlaySealed(h, p)
    requires h.overlay(OverlayDraft(o)) == h.overlay(OverlayDraft(p)) ==> OverlayDraft(o) == OverlayDraft(p)
    ensures o.overlaySha256 == p.overlaySha256 <==>
            && o.bundle == p.bundle && o.sourceInventorySha256 == p.sourceInventorySha256
            && EntriesWithin(o.entries, p.entries) && EntriesWithin(p.entries, o.entries)
  {
    EntriesIff(o.entries, p.entries);
    hide SortBy, NormalEntries, EntriesWithin, OverlaySchema;
  }
}
