/**
  lib/rosterpilot/combat-corpus-conformance.ts:1644-1694: making a corpus report. What is made passes its own
  schema and digest, so that strict admission has only the leaves, the traversal and the caller left to ask.
 */
module CorpusCreation {
  import opened Sequences
  import opened Wrappers
  import opened Ordering
  import opened SourceInventory
  import opened InventoryTraversal
  import opened InventoryValidity
  import opened InventoryValidator
  import opened InventoryBuilder
  import opened CorpusReport
  import opened CorpusAdmission

  /** `CreateCombatCorpusConformanceReportV1Input`. */
  datatype ReportInput = ReportInput(inventory: CorpusInventory, overlay: Overlay, community: Component,
                                     compiler: Component, adapter: Component, engine: Component,
                                     supportedStateKeys: seq<string>, accounts: seq<LeafAccount>)

  datatype CreateError = SchemaInvalid | InventoryUnsealed | OverlayStale

  function RuntimeOf(q: ReportInput): Runtime {
    Runtime(q.inventory.bundle, q.community, q.compiler, q.adapter, q.engine)
  }

  /** `reportWithoutSummary` and its summary. */
  function DraftReport(q: ReportInput): Report {
    var bare := Report(RuntimeOf(q), q.inventory.inventorySha256, q.overlay.overlaySha256, q.inventory,
                       q.supportedStateKeys, q.accounts, Summary(0, 0, 0, 0, 0, 0, 0, 0, 0, 0), "");
    bare.(summary := ExpectedSummary(bare))
  }

  function Seal(h: Seals, draft: Report): Report { draft.(reportSha256 := h.report(ReportDraft(draft))) }

  ghost function Created(h: Seals, q: ReportInput): Result<Report, CreateError> {
    if !InventorySchema(q.inventory) || !OverlaySchema(q.overlay) then Err(SchemaInvalid)
    else if !InventorySealed(h, q.inventory) then Err(InventoryUnsealed)
    else if !BindingsValid(h, q.overlay, q.inventory) then Err(OverlayStale)
    else if !ReportSchema(DraftReport(q)) then Err(SchemaInvalid)
    else Ok(Seal(h, ReportDraft(DraftReport(q))))
  }

  /** `createCombatCorpusConformanceReportV1`; its last schema check never fails. */
  method CreateReport(h: Seals, q: ReportInput) returns (r: Result<Report, CreateError>)
    ensures r == Created(h, q)
  {
    hide InventorySchema, OverlaySchema, InventorySealed, BindingsValid, ReportSchema, ReportDraft, DraftReport;
    var fine := CheckInventory(q.inventory);
    var known := CheckOverlay(q.overlay);
    if !fine || !known { return Err(SchemaInvalid); }
    if !InventorySealed(h, q.inventory) { return Err(InventoryUnsealed); }
    IsValidInventory(q.inventory);
    var issues := ValidateBindings(h, q.overlay, q.inventory);
    if issues != [] { return Err(OverlayStale); }
    var draft := MakeDraft(q);
    fine := CheckReport(draft);
    if !fine { return Err(SchemaInvalid); }
    var report := Seal(h, ReportDraft(draft));
    DraftKeepsSchema(draft);
    SealKeepsSchema(h, ReportDraft(draft));
    fine := CheckReport(report);
    r := if fine then Ok(report) else Err(SchemaInvalid);
  }

  lemma IsValidInventory(i: CorpusInventory)
    requires InventorySchema(i)
    ensures ValidInventory(i.body)
  {}

  method MakeDraft(q: ReportInput) returns (draft: Report)
    ensures draft == DraftReport(q)
  {
    hide ExpectedSummary;
    var bare := Report(RuntimeOf(q), q.inventory.inventorySha256, q.overlay.overlaySha256, q.inventory,
                       q.supportedStateKeys, q.accounts, Summary(0, 0, 0, 0, 0, 0, 0, 0, 0, 0), "");
    var summary := MakeSummary(bare);
    draft := bare.(summary := summary);
  }

  lemma SealKeepsSchema(h: Seals, draft: Report)
    requires ReportSchema(draft)
    ensures ReportSchema(Seal(h, draft))
  {
    hide InventorySchema, AccountsExact, AccountFits, CountKind, NoRepeats, ReportDraft;
  }

  // ---- Normal forms keep the schema ----

  lemma SortedUniqueOnce(values: seq<string>)
    ensures NoRepeats(SortedUnique(values)) && SameMembers(SortedUnique(values), values)
    ensures SortedUnique(values) == [] <==> values == []
    ensures SortedUnique(SortedUnique(values)) == SortedUnique(values)
  {
    SortedUniqueAscending(values);
    var sorted := SortedUnique(values);
    hide SortedUnique;
    forall i, j | 0 <= i < j < |sorted| ensures sorted[i] != sorted[j] { StringLessIrreflexive(sorted[i]); }
    SortedUniqueIdentity(sorted);
    assert values != [] ==> values[0] in sorted;
    assert sorted != [] ==> sorted[0] in values;
  }

  lemma {:induction false} OccurringOnce(order: seq<RulesPhase>, phases: seq<RulesPhase>)
    requires NoRepeats(order)
    ensures NoRepeats(Occurring(order, phases))
  {
    if order != [] {
      var rest := order[1..];
      forall i, j | 0 <= i < j < |rest| ensures rest[i] != rest[j] { assert order[i + 1] != order[j + 1]; }
      forall i | 0 <= i < |rest| ensures rest[i] != order[0] { assert order[i + 1] != order[0]; }
      OccurringOnce(rest, phases);
      OccurringMembers(rest, phases, order[0]);
    }
  }

  lemma NormalPhasesMembers(phases: seq<RulesPhase>)
    ensures SamePhases(NormalPhases(phases), phases)
  {
    hide Occurring;
    forall p: RulesPhase ensures p in NormalPhases(phases) <==> p in phases {
      OccurringMembers(GAME_ORDER, phases, p);
      InGameOrder(p);
    }
  }

  lemma NormalPhasesOnce(phases: seq<RulesPhase>)
    ensures NoRepeats(NormalPhases(phases)) && SamePhases(NormalPhases(phases), phases)
    ensures NormalPhases(phases) == [] <==> phases == []
    ensures NormalPhases(NormalPhases(phases)) == NormalPhases(phases)
  {
    hide Occurring;
    assert NoRepeats(NormalPhases(phases)) by {
      assert NoRepeats(GAME_ORDER);
      OccurringOnce(GAME_ORDER, phases);
    }
    hide NormalPhases, NoRepeats;
    NormalPhasesMembers(phases);
    PhasesEqualIff(NormalPhases(phases), phases);
    assert phases != [] ==> phases[0] in NormalPhases(phases);
    assert NormalPhases(phases) != [] ==> NormalPhases(phases)[0] in phases;
  }

  /** The normal form of an account is sound when the account is, and is its own normal form. */
  lemma NormalAccountFits(a: LeafAccount, supported: seq<string>)
    requires AccountFits(a, supported)
    ensures AccountFits(NormalAccount(a), SortedUnique(supported))
  {
    hide NormalPhases, SortedUnique, NoRepeats;
    SortedUniqueOnce(a.stateKeys);
    SortedUniqueOnce(supported);
    if HasPhases(a.evidence) { NormalPhasesOnce(a.evidence.phases); }
    if Combat(a.disposition) { SortedUniqueOnce(a.disposition.mechanicIds); }
  }

  lemma NormalAccountOnce(a: LeafAccount)
    ensures NormalAccount(NormalAccount(a)) == NormalAccount(a)
  {
    hide NormalPhases, SortedUnique, NoRepeats;
    SortedUniqueOnce(a.stateKeys);
    if HasPhases(a.evidence) { NormalPhasesOnce(a.evidence.phases); }
    if Combat(a.disposition) { SortedUniqueOnce(a.disposition.mechanicIds); }
  }

  lemma {:induction false} NormalAccountsAt(accounts: seq<LeafAccount>)
    ensures |NormalAccounts(accounts)| == |accounts|
    ensures forall i :: 0 <= i < |accounts| ==> NormalAccounts(accounts)[i] == NormalAccount(accounts[i])
  {
    hide NormalAccount;
    if accounts != [] { NormalAccountsAt(accounts[1..]); }
  }

  /** The accounts of the sealed report: each in normal form, by leaf. */
  function SortedAccounts(accounts: seq<LeafAccount>): seq<LeafAccount> {
    SortBy(ByKey(AccountKey()), NormalAccounts(accounts))
  }

  lemma SortedAccountsMembers(accounts: seq<LeafAccount>)
    ensures forall b :: b in SortedAccounts(accounts) <==> exists a :: a in accounts && b == NormalAccount(a)
    ensures |SortedAccounts(accounts)| == |accounts|
  {
    var normal := NormalAccounts(accounts);
    NormalAccountsAt(accounts);
    SortByMembers(ByKey(AccountKey()), normal);
    hide NormalAccount, NormalAccounts, SortBy;
    forall b ensures b in normal <==> exists a :: a in accounts && b == NormalAccount(a) {
      if b in normal {
        var i :| 0 <= i < |normal| && normal[i] == b;
        assert accounts[i] in accounts;
      }
      if a :| a in accounts && b == NormalAccount(a) {
        var i :| 0 <= i < |accounts| && accounts[i] == a;
        assert normal[i] in normal;
      }
    }
  }

  lemma SortedAccountsDistinct(accounts: seq<LeafAccount>)
    requires DistinctKeys(AccountKey(), accounts)
    ensures DistinctKeys(AccountKey(), SortedAccounts(accounts))
  {
    NormalAccountsAt(accounts);
    hide NormalAccounts, SortBy;
    var normal := NormalAccounts(accounts);
    assert DistinctKeys(AccountKey(), normal) by {
      forall i, j | 0 <= i < j < |normal| ensures AccountKey()(normal[i]) != AccountKey()(normal[j]) {
        assert AccountKey()(accounts[i]) != AccountKey()(accounts[j]);
      }
    }
    SortRepeats(ByKey(AccountKey()), AccountKey(), normal);
  }

  /** Accounts in normal form and in order stay as they are. */
  lemma SortedAccountsOnce(accounts: seq<LeafAccount>)
    requires DistinctKeys(AccountKey(), accounts)
    ensures SortedAccounts(SortedAccounts(accounts)) == SortedAccounts(accounts)
  {
    var sorted := SortedAccounts(accounts);
    SortedAccountsMembers(accounts);
    SortedAccountsDistinct(accounts);
    ByKeySorted(AccountKey(), NormalAccounts(accounts));
    NormalAccountsAt(sorted);
    hide NormalAccount, NormalAccounts, DistinctKeys;
    forall i | 0 <= i < |sorted| ensures NormalAccounts(sorted)[i] == sorted[i] {
      assert sorted[i] in sorted;
      var a :| a in accounts && sorted[i] == NormalAccount(a);
      NormalAccountOnce(a);
    }
    assert NormalAccounts(sorted) == sorted;
    SortedStays(sorted);
  }

  lemma SortedStays(sorted: seq<LeafAccount>)
    requires DistinctKeys(AccountKey(), sorted) && SortedBy(ByKey(AccountKey()), sorted)
    ensures SortBy(ByKey(AccountKey()), sorted) == sorted
  {
    hide SortBy;
    var again := SortBy(ByKey(AccountKey()), sorted);
    SortByMembers(ByKey(AccountKey()), sorted);
    ByKeySorted(AccountKey(), sorted);
    SortRepeats(ByKey(AccountKey()), AccountKey(), sorted);
    DistinctKeysNoRepeats(AccountKey(), sorted);
    DistinctKeysNoRepeats(AccountKey(), again);
    forall x, y | x in again && y in again && x != y
      ensures ByKey(AccountKey())(x, y) || ByKey(AccountKey())(y, x) {
      StringLessTotal(x.leafId, y.leafId);
      if x.leafId == y.leafId { SameKeySame(AccountKey(), again, x, y); }
    }
    SortedMembersUnique(ByKey(AccountKey()), again, sorted);
  }

  // ---- Counting by disposition ----

  lemma {:induction false} CountKindFront(accounts: seq<LeafAccount>, kind: Kind)
    requires accounts != []
    ensures CountKind(accounts, kind) ==
            (if KindOf(accounts[0].disposition) == kind then 1 else 0) + CountKind(accounts[1..], kind)
    decreases |accounts|
  {
    hide KindOf;
    var n := |accounts| - 1;
    if n > 0 {
      CountKindFront(accounts[..n], kind);
      assert accounts[..n][1..] == accounts[1..][..n - 1];
    }
  }

  lemma {:induction false} CountKindInsert(before: (LeafAccount, LeafAccount) -> bool, x: LeafAccount,
                                           s: seq<LeafAccount>, kind: Kind)
    ensures CountKind(InsertBy(before, x, s), kind) ==
            (if KindOf(x.disposition) == kind then 1 else 0) + CountKind(s, kind)
  {
    var r := InsertBy(before, x, s);
    hide KindOf;
    CountKindFront(r, kind);
    if s != [] {
      CountKindFront(s, kind);
      if before(s[0], x) {
        CountKindInsert(before, x, s[1..], kind);
        assert r[1..] == InsertBy(before, x, s[1..]);
      } else {
        assert r[1..] == s;
      }
    } else {
      assert r[1..] == s;
    }
  }

  lemma {:induction false} CountKindSorted(before: (LeafAccount, LeafAccount) -> bool, s: seq<LeafAccount>, kind: Kind)
    ensures CountKind(SortBy(before, s), kind) == CountKind(s, kind)
  {
    hide KindOf;
    if s != [] {
      CountKindFront(s, kind);
      CountKindSorted(before, s[1..], kind);
      CountKindInsert(before, s[0], SortBy(before, s[1..]), kind);
    }
  }

  lemma {:induction false} CountKindNormal(accounts: seq<LeafAccount>, kind: Kind)
    ensures CountKind(NormalAccounts(accounts), kind) == CountKind(accounts, kind)
  {
    if accounts != [] {
      CountKindNormal(accounts[1..], kind);
      hide NormalAccount, KindOf, CountKind;
      CountKindFront(accounts, kind);
      CountKindFront(NormalAccounts(accounts), kind);
      SameKind(accounts[0]);
    }
  }

  lemma SameKind(a: LeafAccount)
    ensures KindOf(NormalAccount(a).disposition) == KindOf(a.disposition)
  {
    hide SortedUnique, NormalPhases;
  }

  lemma SameSummary(r: Report)
    ensures ExpectedSummary(ReportDraft(r)) == ExpectedSummary(r)
  {
    var inv := r.inventory.body;
    SortByMembers(ByKey(SourceKey()), inv.sources);
    SortByMembers(ByKey(FragmentKey()), inv.fragments);
    SortByMembers(ByKey(LeafKey()), inv.leaves);
    SortByMembers(IssueBefore, inv.issues);
    SortedAccountsMembers(r.accounts);
    hide SortBy, NormalAccounts, CountKind;
    forall kind ensures CountKind(SortedAccounts(r.accounts), kind) == CountKind(r.accounts, kind) {
      CountKindNormal(r.accounts, kind);
      CountKindSorted(ByKey(AccountKey()), NormalAccounts(r.accounts), kind);
    }
  }

  // ---- The draft in normal form ----

  lemma InventoryStays(i: CorpusInventory)
    requires InventorySchema(i)
    ensures InventorySchema(i.(body := Normalize(i.body))) && Normalize(Normalize(i.body)) == Normalize(i.body)
  {
    hide ValidInventory, SortBy;
    SameBag(i.body);
    SortByMembers(ByKey(SourceKey()), i.body.sources);
    SortByMembers(ByKey(FragmentKey()), i.body.fragments);
    SortByMembers(ByKey(LeafKey()), i.body.leaves);
    NormalizeKeepsValid(i.body);
    ValidSameNormal(Normalize(i.body), i.body);
  }

  lemma SameBag(inv: Inventory)
    ensures BagOf(Normalize(inv)) == BagOf(inv)
  {
    hide SortBy;
    SortByMultiset(ByKey(SourceKey()), inv.sources);
    SortByMultiset(ByKey(FragmentKey()), inv.fragments);
    SortByMultiset(ByKey(LeafKey()), inv.leaves);
    SortByMultiset(IssueBefore, inv.issues);
  }

  lemma NormalMembers(inv: Inventory)
    ensures var n := Normalize(inv);
            && (forall s :: s in n.sources <==> s in inv.sources)
            && (forall f :: f in n.fragments <==> f in inv.fragments)
            && (forall l :: l in n.leaves <==> l in inv.leaves)
            && (forall i :: i in n.issues <==> i in inv.issues)
  {
    SameBag(inv);
    hide Normalize, BagOf;
    SameBagSameMembers(Normalize(inv), inv);
  }

  lemma ExactStays(inv: Inventory, accounts: seq<LeafAccount>)
    requires AccountsExact(inv, accounts)
    ensures AccountsExact(Normalize(inv), SortedAccounts(accounts))
  {
    SortedAccountsDistinct(accounts);
    hide Normalize, SortedAccounts, DistinctKeys;
    LeavesStayAccounted(inv, accounts);
    AccountsStayLeaves(inv, accounts);
  }

  lemma LeavesStayAccounted(inv: Inventory, accounts: seq<LeafAccount>)
    requires forall l :: l in inv.leaves ==> exists a :: a in accounts && a.leafId == l.leafId
    ensures forall l :: l in Normalize(inv).leaves ==> exists b :: b in SortedAccounts(accounts) && b.leafId == l.leafId
  {
    NormalMembers(inv);
    SortedAccountsMembers(accounts);
    hide Normalize, SortedAccounts, NormalEvidence, NormalDisposition, SortedUnique;
    forall l | l in Normalize(inv).leaves ensures exists b :: b in SortedAccounts(accounts) && b.leafId == l.leafId {
      var a :| a in accounts && a.leafId == l.leafId;
      assert NormalAccount(a) in SortedAccounts(accounts);
    }
  }

  lemma AccountsStayLeaves(inv: Inventory, accounts: seq<LeafAccount>)
    requires forall a :: a in accounts ==> exists l :: l in inv.leaves && l.leafId == a.leafId
    ensures forall b :: b in SortedAccounts(accounts) ==> exists l :: l in Normalize(inv).leaves && l.leafId == b.leafId
  {
    NormalMembers(inv);
    SortedAccountsMembers(accounts);
    hide Normalize, SortedAccounts, NormalEvidence, NormalDisposition, SortedUnique;
    forall b | b in SortedAccounts(accounts) ensures exists l :: l in Normalize(inv).leaves && l.leafId == b.leafId {
      var a :| a in accounts && b == NormalAccount(a);
      var l :| l in inv.leaves && l.leafId == a.leafId;
      assert l in Normalize(inv).leaves;
    }
  }

  lemma FitsStay(accounts: seq<LeafAccount>, supported: seq<string>)
    requires forall a :: a in accounts ==> AccountFits(a, supported)
    ensures forall b :: b in SortedAccounts(accounts) ==> AccountFits(b, SortedUnique(supported))
  {
    SortedAccountsMembers(accounts);
    hide SortedAccounts, AccountFits, NormalAccount, SortedUnique;
    forall b | b in SortedAccounts(accounts) ensures AccountFits(b, SortedUnique(supported)) {
      var a :| a in accounts && b == NormalAccount(a);
      NormalAccountFits(a, supported);
    }
  }

  lemma DraftKeepsSchema(r: Report)
    requires ReportSchema(r)
    ensures ReportSchema(ReportDraft(r))
  {
    InventoryStays(r.inventory);
    ExactStays(r.inventory.body, r.accounts);
    FitsStay(r.accounts, r.supportedStateKeys);
    SortedUniqueOnce(r.supportedStateKeys);
    SameSummary(r);
    assert ReportDraft(r).accounts == SortedAccounts(r.accounts);
    hide InventorySchema, AccountsExact, AccountFits, ExpectedSummary, NoRepeats, SortedUnique, SortedAccounts,
      Normalize, SortBy, NormalAccounts;
  }

  /** What the digest of a sealed report covers is the report itself, without the digest. */
  lemma SealedIsNormal(h: Seals, draft: Report)
    requires ReportSchema(draft)
    ensures ReportDraft(Seal(h, ReportDraft(draft))) == ReportDraft(ReportDraft(draft)) == ReportDraft(draft)
  {
    InventoryStays(draft.inventory);
    SortedUniqueOnce(draft.supportedStateKeys);
    SortedAccountsOnce(draft.accounts);
    assert ReportDraft(draft).accounts == SortedAccounts(draft.accounts);
    hide Normalize, SortedUnique, SortBy, NormalAccounts;
  }

  // ---- What is left to ask ----

  lemma SameEntity(inv: Inventory, b: SourceBinding)
    ensures EntityCurrent(Normalize(inv), b) <==> EntityCurrent(inv, b)
  {
    NormalMembers(inv);
    hide Normalize;
  }

  lemma SamePath(inv: Inventory, leafId: Digest, f: Fragment)
    ensures OnPath(Normalize(inv), leafId, f) <==> OnPath(inv, leafId, f)
  {
    NormalMembers(inv);
    hide Normalize, PathIds;
  }

  lemma SameBindsPath(inv: Inventory, b: SourceBinding, leafId: Digest)
    ensures BindsPath(Normalize(inv), b, leafId) <==> BindsPath(inv, b, leafId)
  {
    SameEntity(inv, b);
    forall f ensures OnPath(Normalize(inv), leafId, f) <==> OnPath(inv, leafId, f) { SamePath(inv, leafId, f); }
    hide Normalize, OnPath, EntityCurrent;
  }

  lemma SameCurrent(inv: Inventory, b: SourceBinding)
    ensures BindingCurrent(Normalize(inv), b) <==> BindingCurrent(inv, b)
  {
    SameEntity(inv, b);
    NormalMembers(inv);
    hide Normalize, EntityCurrent, BindingKey;
  }

  lemma SameReviews(inv: Inventory, o: Overlay, leafId: Digest)
    ensures forall id, scope :: ScopeReviewed(Normalize(inv), o, leafId, id, scope) <==>
              ScopeReviewed(inv, o, leafId, id, scope)
    ensures forall e: Evidence :: e.Reviewed? ==>
              (PhasesReviewed(Normalize(inv), o, leafId, NormalEvidence(e)) <==> PhasesReviewed(inv, o, leafId, e))
  {
    forall b ensures BindsPath(Normalize(inv), b, leafId) <==> BindsPath(inv, b, leafId) {
      SameBindsPath(inv, b, leafId);
    }
    hide Normalize, BindsPath, NormalPhases;
    forall e: Evidence | e.Reviewed?
      ensures PhasesReviewed(Normalize(inv), o, leafId, NormalEvidence(e)) <==> PhasesReviewed(inv, o, leafId, e)
    {
      NormalPhasesOnce(e.phases);
      forall phases ensures SamePhases(phases, NormalPhases(e.phases)) <==> SamePhases(phases, e.phases) {}
      hide SamePhases;
    }
  }

  lemma SameGrounds(inv: Inventory, leafId: Digest, e: Evidence)
    requires e.InSource?
    ensures Grounded(Normalize(inv), leafId, NormalEvidence(e)) <==> Grounded(inv, leafId, e)
  {
    forall f ensures OnPath(Normalize(inv), leafId, f) <==> OnPath(inv, leafId, f) { SamePath(inv, leafId, f); }
    hide Normalize, OnPath, NormalPhases;
  }

  /** Sorting and normalizing change nothing strict admission asks of an account. */
  lemma SameAdmitted(inv: Inventory, o: Overlay, a: LeafAccount)
    ensures AccountAdmitted(Normalize(inv), o, NormalAccount(a)) <==> AccountAdmitted(inv, o, a)
  {
    SameReviews(inv, o, a.leafId);
    if a.evidence.InSource? { SameGrounds(inv, a.leafId, a.evidence); }
    if HasPhases(a.evidence) { NormalPhasesOnce(a.evidence.phases); }
    hide Normalize, NormalPhases, Grounded, PhasesReviewed, ScopeReviewed, CombatPhase, SortedUnique;
  }

  lemma AllAdmitted(inv: Inventory, o: Overlay, accounts: seq<LeafAccount>)
    ensures (forall b :: b in SortedAccounts(accounts) ==> AccountAdmitted(Normalize(inv), o, b))
       <==> forall a :: a in accounts ==> AccountAdmitted(inv, o, a)
  {
    SortedAccountsMembers(accounts);
    hide Normalize, SortedAccounts, AccountAdmitted, NormalAccount;
    forall a ensures AccountAdmitted(Normalize(inv), o, NormalAccount(a)) <==> AccountAdmitted(inv, o, a) {
      SameAdmitted(inv, o, a);
    }
    if forall b :: b in SortedAccounts(accounts) ==> AccountAdmitted(Normalize(inv), o, b) {
      forall a | a in accounts ensures AccountAdmitted(inv, o, a) {
        assert NormalAccount(a) in SortedAccounts(accounts);
      }
    }
  }

  lemma SameTraversable(inv: Inventory)
    ensures Traversable(Normalize(inv)) <==> Traversable(inv)
  {
    NormalMembers(inv);
    hide Normalize;
    assert inv.issues != [] ==> inv.issues[0] in Normalize(inv).issues;
    assert Normalize(inv).issues != [] ==> Normalize(inv).issues[0] in inv.issues;
  }

  lemma SameBindings(h: Seals, o: Overlay, i: CorpusInventory)
    requires InventorySchema(i)
    ensures InventorySealed(h, i.(body := Normalize(i.body))) <==> InventorySealed(h, i)
    ensures BindingsValid(h, o, i.(body := Normalize(i.body))) <==> BindingsValid(h, o, i)
  {
    InventoryStays(i);
    forall b ensures BindingCurrent(Normalize(i.body), b) <==> BindingCurrent(i.body, b) { SameCurrent(i.body, b); }
    hide Normalize, BindingCurrent, OverlaySealed;
  }

  /**
    A report that was made passes its own schema, digest and overlay checks, and those of the inventory in it.
    Strict admission then asks exactly this: that the caller runs what the report was made with and supports
    the same state keys, that everything was traversed, and that every account as given is admitted.
   */
  lemma CreatedAdmittedIff(h: Seals, q: ReportInput, expected: Expectation)
    requires Created(h, q).Ok?
    ensures Admissible(h, Created(h, q).value, q.overlay, expected)
       <==> && expected.runtime == RuntimeOf(q) && NoRepeats(expected.supportedStateKeys)
            && SameMembers(q.supportedStateKeys, expected.supportedStateKeys)
            && Traversable(q.inventory.body)
            && forall a :: a in q.accounts ==> AccountAdmitted(q.inventory.body, q.overlay, a)
  {
    hide *;
    CreatedParts(h, q);
    CreatedPasses(h, q);
    SameBindings(h, q.overlay, q.inventory);
    SameTraversable(q.inventory.body);
    AllAdmitted(q.inventory.body, q.overlay, q.accounts);
    SortedUniqueOnce(q.supportedStateKeys);
    SameMembersStep(SortedUnique(q.supportedStateKeys), q.supportedStateKeys, expected.supportedStateKeys);
    AdmissibleParts(h, Created(h, q).value, q.overlay, expected);
  }

  lemma SameMembersStep(a: seq<string>, b: seq<string>, c: seq<string>)
    requires SameMembers(a, b)
    ensures SameMembers(a, c) <==> SameMembers(b, c)
  {}

  lemma AdmissibleParts(h: Seals, r: Report, o: Overlay, expected: Expectation)
    requires ReportSchema(r) && ReportSealed(h, r) && OverlaySchema(o) && r.overlaySha256 == o.overlaySha256
    requires InventorySealed(h, r.inventory) && BindingsValid(h, o, r.inventory)
    ensures Admissible(h, r, o, expected)
       <==> && r.runtime == expected.runtime && NoRepeats(expected.supportedStateKeys)
            && SameMembers(r.supportedStateKeys, expected.supportedStateKeys) && Traversable(r.inventory.body)
            && forall a :: a in r.accounts ==> AccountAdmitted(r.inventory.body, o, a)
  {
    hide ReportSchema, OverlaySchema, ReportSealed, InventorySealed, BindingsValid, Traversable, AccountAdmitted,
      NoRepeats, SameMembers;
  }

  lemma CreatedParts(h: Seals, q: ReportInput)
    requires Created(h, q).Ok?
    ensures InventorySchema(q.inventory) && OverlaySchema(q.overlay)
    ensures InventorySealed(h, q.inventory) && BindingsValid(h, q.overlay, q.inventory)
    ensures var r := Created(h, q).value;
            && r.runtime == RuntimeOf(q) && r.overlaySha256 == q.overlay.overlaySha256
            && r.inventory == q.inventory.(body := Normalize(q.inventory.body))
            && r.supportedStateKeys == SortedUnique(q.supportedStateKeys)
            && r.accounts == SortedAccounts(q.accounts)
  {
    hide InventorySchema, OverlaySchema, InventorySealed, BindingsValid, ReportSchema, Normalize, SortedUnique,
      NormalAccounts, SortBy, ExpectedSummary;
  }

  lemma CreatedPasses(h: Seals, q: ReportInput)
    requires Created(h, q).Ok?
    ensures ReportSchema(Created(h, q).value) && ReportSealed(h, Created(h, q).value)
  {
    var draft := DraftReport(q);
    hide InventorySchema, OverlaySchema, InventorySealed, BindingsValid, ReportSchema, ReportDraft, DraftReport;
    DraftKeepsSchema(draft);
    SealKeepsSchema(h, ReportDraft(draft));
    SealedIsNormal(h, draft);
  }
}
