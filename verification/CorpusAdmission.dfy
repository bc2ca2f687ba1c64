/**
  lib/rosterpilot/combat-corpus-conformance.ts:1010-1180 and 1582-2066: strict admission of a corpus report,
  and what an admitted report is worth.
 */
module CorpusAdmission {
  import opened Sequences
  import opened Wrappers
  import opened Ordering
  import opened SourceInventory
  import opened InventoryTraversal
  import opened InventoryValidity
  import opened InventoryValidator
  import opened InventoryBuilder
  import opened CorpusReport

  // ---- Canonical forms ----

  const GAME_ORDER := [Command, Movement, Shooting, Charge, Fight]

  function Occurring(order: seq<RulesPhase>, phases: seq<RulesPhase>): seq<RulesPhase> {
    if order == [] then []
    else (if order[0] in phases then [order[0]] else []) + Occurring(order[1..], phases)
  }

  /** `normalizedPhases`: the distinct phases in game order. */
  function NormalPhases(phases: seq<RulesPhase>): seq<RulesPhase> { Occurring(GAME_ORDER, phases) }

  predicate SamePhases(a: seq<RulesPhase>, b: seq<RulesPhase>) { forall p: RulesPhase :: p in a <==> p in b }

  lemma {:induction false} OccurringMembers(order: seq<RulesPhase>, phases: seq<RulesPhase>, p: RulesPhase)
    ensures p in Occurring(order, phases) <==> p in order && p in phases
  {
    if order != [] { OccurringMembers(order[1..], phases, p); }
  }

  lemma {:induction false} OccurringSame(order: seq<RulesPhase>, a: seq<RulesPhase>, b: seq<RulesPhase>)
    requires SamePhases(a, b)
    ensures Occurring(order, a) == Occurring(order, b)
  {
    if order != [] { OccurringSame(order[1..], a, b); }
  }

  /** Comparing normal forms compares the sets of phases. */
  lemma PhasesEqualIff(a: seq<RulesPhase>, b: seq<RulesPhase>)
    ensures NormalPhases(a) == NormalPhases(b) <==> SamePhases(a, b)
  {
    if SamePhases(a, b) { OccurringSame(GAME_ORDER, a, b); }
    forall p: RulesPhase ensures p in NormalPhases(a) <==> p in a {
      OccurringMembers(GAME_ORDER, a, p);
      InGameOrder(p);
    }
    forall p: RulesPhase ensures p in NormalPhases(b) <==> p in b {
      OccurringMembers(GAME_ORDER, b, p);
      InGameOrder(p);
    }
  }

  lemma InGameOrder(p: RulesPhase)
    ensures p in GAME_ORDER
  {
    assert GAME_ORDER[0] == Command && GAME_ORDER[1] == Movement && GAME_ORDER[2] == Shooting;
    assert GAME_ORDER[3] == Charge && GAME_ORDER[4] == Fight;
  }

  ghost predicate SameMembers(a: seq<string>, b: seq<string>) { forall k :: k in a <==> k in b }

  /** `sortedUnique` forms are equal exactly when the members are. */
  lemma SortedUniqueEqualIff(a: seq<string>, b: seq<string>)
    ensures SortedUnique(a) == SortedUnique(b) <==> SameMembers(a, b)
  {
    hide SortedUnique, Ascending;
    SortedUniqueAscending(a);
    SortedUniqueAscending(b);
    if SameMembers(a, b) { AscendingUnique(SortedUnique(a), SortedUnique(b)); }
    if SortedUnique(a) == SortedUnique(b) {
      forall x ensures x in a <==> x in b { assert x in SortedUnique(a) <==> x in a; }
    }
  }

  function NormalEntry(e: OverlayEntry): OverlayEntry {
    match e
    case PhaseMapping(_, _, _, phases) => e.(phases := NormalPhases(phases))
    case AbilityBinding(_, _, _, _, abilityIds) => e.(abilityIds := SortedUnique(abilityIds))
    case CalculatorScope(_, _, _, _) => e
  }

  function NormalEvidence(e: Evidence): Evidence {
    if HasPhases(e) then e.(phases := NormalPhases(e.phases)) else e
  }

  function NormalDisposition(d: Disposition): Disposition {
    if Combat(d) then d.(mechanicIds := SortedUnique(d.mechanicIds)) else d
  }

  function NormalAccount(a: LeafAccount): LeafAccount {
    LeafAccount(a.leafId, NormalEvidence(a.evidence), SortedUnique(a.stateKeys), NormalDisposition(a.disposition))
  }

  function NormalEntries(entries: seq<OverlayEntry>): seq<OverlayEntry> {
    if entries == [] then [] else [NormalEntry(entries[0])] + NormalEntries(entries[1..])
  }

  function NormalAccounts(accounts: seq<LeafAccount>): seq<LeafAccount> {
    if accounts == [] then [] else [NormalAccount(accounts[0])] + NormalAccounts(accounts[1..])
  }

  /** What the three digests cover: the normal form, without the digest itself. */
  function InventoryDraft(i: CorpusInventory): CorpusInventory {
    CorpusInventory(i.bundle, Normalize(i.body), "")
  }

  function OverlayDraft(o: Overlay): Overlay {
    o.(entries := SortBy(ByKey(EntryKey()), NormalEntries(o.entries)), overlaySha256 := "")
  }

  function ReportDraft(r: Report): Report {
    r.(inventory := r.inventory.(body := Normalize(r.inventory.body)),
       supportedStateKeys := SortedUnique(r.supportedStateKeys),
       accounts := SortBy(ByKey(AccountKey()), NormalAccounts(r.accounts)), reportSha256 := "")
  }

  datatype Seals = Seals(inventory: CorpusInventory -> Digest, overlay: Overlay -> Digest, report: Report -> Digest)

  predicate InventorySealed(h: Seals, i: CorpusInventory) { i.inventorySha256 == h.inventory(InventoryDraft(i)) }

  predicate OverlaySealed(h: Seals, o: Overlay) { o.overlaySha256 == h.overlay(OverlayDraft(o)) }

  predicate ReportSealed(h: Seals, r: Report) { r.reportSha256 == h.report(ReportDraft(r)) }

  // ---- Maps by key ----

  ghost predicate Indexed<T>(index: map<string, T>, key: T -> string, s: seq<T>) {
    && (forall x :: x in s ==> key(x) in index)
    && (forall k :: k in index ==> index[k] in s && key(index[k]) == k)
  }

  /** `new Map(list.map(x => [key(x), x]))`: the last entry with a key wins. */
  function MapBy<T>(key: T -> string, s: seq<T>): map<string, T> {
    if s == [] then map[] else MapBy(key, s[..|s| - 1])[key(s[|s| - 1]) := s[|s| - 1]]
  }

  lemma {:induction false} MapByIndexed<T>(key: T -> string, s: seq<T>)
    ensures Indexed(MapBy(key, s), key, s)
  {
    if s != [] {
      MapByIndexed(key, s[..|s| - 1]);
      assert s == s[..|s| - 1] + [s[|s| - 1]];
    }
  }

  /** Where keys are distinct, a lookup finds the one entry with the key. */
  lemma IndexedExactlyOne<T>(index: map<string, T>, key: T -> string, s: seq<T>, x: T)
    requires Indexed(index, key, s) && DistinctKeys(key, s) && x in s
    ensures key(x) in index && index[key(x)] == x
  {
    SameKeySame(key, s, index[key(x)], x);
  }

  /** `list.find(x => key(x) === wanted)`. */
  method Find<T>(key: T -> string, s: seq<T>, wanted: string) returns (found: Option<T>)
    ensures found.None? ==> forall x :: x in s ==> key(x) != wanted
    ensures found.Some? ==> found.value in s && key(found.value) == wanted
  {
    for i := 0 to |s|
      invariant forall x :: x in s[..i] ==> key(x) != wanted
    {
      assert s[..i + 1] == s[..i] + [s[i]];
      if key(s[i]) == wanted { return Some(s[i]); }
    }
    assert s[..|s|] == s;
    found := None;
  }

  // ---- Overlay bindings ----

  function BindingKey(b: SourceBinding): string { b.sourceId + "\0" + b.jsonPointer }

  ghost predicate EntityCurrent(inv: Inventory, b: SourceBinding) {
    exists s :: s in inv.sources && s.sourceId == b.sourceId && s.entitySha256 == b.entitySha256
  }

  /** The bound source is in the inventory with the bound entity, and the bound fragment with its digest. */
  ghost predicate BindingCurrent(inv: Inventory, b: SourceBinding) {
    && EntityCurrent(inv, b)
    && exists f :: f in inv.fragments && JoinedKey()(f) == BindingKey(b) && f.fragmentSha256 == b.fragmentSha256
  }

  ghost predicate BindingsValid(h: Seals, o: Overlay, i: CorpusInventory) {
    && OverlaySealed(h, o) && InventorySealed(h, i)
    && o.sourceInventorySha256 == i.inventorySha256 && o.bundle == i.bundle
    && forall e :: e in o.entries ==> BindingCurrent(i.body, e.source)
  }

  datatype BindingIssue = OverlayHash | InventoryHash | OtherInventory | OtherBundle | SourceMissing | EntityStale
    | FragmentMissing | FragmentStale

  method EntryIssues(inv: Inventory, sources: map<string, Source>, fragments: map<string, Fragment>, b: SourceBinding)
    returns (issues: seq<BindingIssue>)
    requires ValidInventory(inv)
    requires Indexed(sources, SourceKey(), inv.sources) && Indexed(fragments, JoinedKey(), inv.fragments)
    ensures issues == [] <==> BindingCurrent(inv, b)
  {
    hide FragmentSound, LeafSound, IssueSound, RootSound, Indexed, DistinctKeys, BindingCurrent;
    LookupEntity(inv, sources, b);
    LookupFragment(inv, fragments, b);
    BindingMeans(inv, b);
    issues := [];
    if b.sourceId !in sources { return [SourceMissing]; }
    if sources[b.sourceId].entitySha256 != b.entitySha256 { issues := issues + [EntityStale]; }
    var key := b.sourceId + "\0" + b.jsonPointer;
    if key !in fragments {
      issues := issues + [FragmentMissing];
    } else if fragments[key].fragmentSha256 != b.fragmentSha256 {
      issues := issues + [FragmentStale];
    }
  }

  ghost predicate FragmentCurrent(inv: Inventory, b: SourceBinding) {
    exists f :: f in inv.fragments && JoinedKey()(f) == BindingKey(b) && f.fragmentSha256 == b.fragmentSha256
  }

  lemma BindingMeans(inv: Inventory, b: SourceBinding)
    ensures BindingCurrent(inv, b) <==> EntityCurrent(inv, b) && FragmentCurrent(inv, b)
  {}

  lemma LookupEntity(inv: Inventory, sources: map<string, Source>, b: SourceBinding)
    requires DistinctKeys(SourceKey(), inv.sources) && Indexed(sources, SourceKey(), inv.sources)
    ensures EntityCurrent(inv, b) <==> b.sourceId in sources && sources[b.sourceId].entitySha256 == b.entitySha256
  {
    forall s | s in inv.sources ensures s.sourceId in sources && sources[s.sourceId] == s {
      IndexedExactlyOne(sources, SourceKey(), inv.sources, s);
    }
  }

  lemma LookupFragment(inv: Inventory, fragments: map<string, Fragment>, b: SourceBinding)
    requires DistinctKeys(JoinedKey(), inv.fragments) && Indexed(fragments, JoinedKey(), inv.fragments)
    ensures FragmentCurrent(inv, b)
       <==> BindingKey(b) in fragments && fragments[BindingKey(b)].fragmentSha256 == b.fragmentSha256
  {
    hide BindingKey;
    forall f | f in inv.fragments ensures JoinedKey()(f) in fragments && fragments[JoinedKey()(f)] == f {
      IndexedExactlyOne(fragments, JoinedKey(), inv.fragments, f);
    }
  }

  /** `validateCombatSemanticsOverlayBindingsV1`. */
  method ValidateBindings(h: Seals, o: Overlay, i: CorpusInventory) returns (issues: seq<BindingIssue>)
    requires ValidInventory(i.body)
    ensures issues == [] <==> BindingsValid(h, o, i)
  {
    hide ValidInventory, BindingCurrent, Indexed, MapBy, OverlayDraft, InventoryDraft;
    issues := [];
    if o.overlaySha256 != h.overlay(OverlayDraft(o)) { issues := issues + [OverlayHash]; }
    if i.inventorySha256 != h.inventory(InventoryDraft(i)) { issues := issues + [InventoryHash]; }
    if o.sourceInventorySha256 != i.inventorySha256 { issues := issues + [OtherInventory]; }
    if o.bundle != i.bundle { issues := issues + [OtherBundle]; }
    var sources, fragments := MapBy(SourceKey(), i.body.sources), MapBy(JoinedKey(), i.body.fragments);
    MapByIndexed(SourceKey(), i.body.sources);
    MapByIndexed(JoinedKey(), i.body.fragments);
    ghost var headed := issues == [];
    for k := 0 to |o.entries|
      invariant issues == [] <==> headed && forall e :: e in o.entries[..k] ==> BindingCurrent(i.body, e.source)
    {
      assert o.entries[..k + 1] == o.entries[..k] + [o.entries[k]];
      var more := EntryIssues(i.body, sources, fragments, o.entries[k].source);
      issues := issues + more;
    }
    assert o.entries[..|o.entries|] == o.entries;
  }

  // ---- The path of a leaf ----

  function PathIds(l: SourceLeaf): seq<Digest> { l.ancestorFragmentIds + [l.fragmentId] }

  /** A fragment on the way from the root of an effect to a leaf, the leaf's own included. */
  ghost predicate OnPath(inv: Inventory, leafId: Digest, f: Fragment) {
    f in inv.fragments && exists l :: l in inv.leaves && l.leafId == leafId && f.fragmentId in PathIds(l)
  }

  /** `flatMap` over the ids that resolve. */
  function Resolve(index: Index, ids: seq<Digest>): seq<Fragment> {
    if ids == [] then []
    else
      var n := |ids| - 1;
      Resolve(index, ids[..n]) + if ids[n] in index then [index[ids[n]]] else []
  }

  lemma {:induction false} ResolveMembers(index: Index, fragments: seq<Fragment>, ids: seq<Digest>, f: Fragment)
    requires ById(index, fragments) && DistinctKeys(FragmentKey(), fragments)
    ensures f in Resolve(index, ids) <==> f in fragments && f.fragmentId in ids
  {
    if ids != [] {
      var n := |ids| - 1;
      ResolveMembers(index, fragments, ids[..n], f);
      assert ids == ids[..n] + [ids[n]];
      if f in fragments { IndexedExactly(index, fragments, f); }
    }
  }

  /** `leafFragmentPath`. */
  method LeafFragmentPath(inv: Inventory, leafId: Digest) returns (path: seq<Fragment>)
    requires ValidInventory(inv)
    ensures forall f :: f in path <==> OnPath(inv, leafId, f)
  {
    hide FragmentSound, LeafSound, IssueSound, RootSound, ById, DistinctKeys, PathIds, Resolve;
    var index := IndexFragments(inv.fragments);
    var leaf := Find(LeafKey(), inv.leaves, leafId);
    if leaf.None? { return []; }
    path := Resolve(index, leaf.value.ancestorFragmentIds + [leaf.value.fragmentId]);
    PathIdsOf(leaf.value);
    forall f ensures f in path <==> OnPath(inv, leafId, f) {
      ResolveMembers(index, inv.fragments, PathIds(leaf.value), f);
      PathOfOne(inv, leaf.value, f);
    }
  }

  lemma PathIdsOf(l: SourceLeaf)
    ensures PathIds(l) == l.ancestorFragmentIds + [l.fragmentId]
  {}

  lemma PathOfOne(inv: Inventory, leaf: SourceLeaf, f: Fragment)
    requires DistinctKeys(LeafKey(), inv.leaves) && leaf in inv.leaves
    ensures OnPath(inv, leaf.leafId, f) <==> f in inv.fragments && f.fragmentId in PathIds(leaf)
  {
    hide DistinctKeys, PathIds;
    forall l | l in inv.leaves && l.leafId == leaf.leafId ensures l == leaf {
      SameKeySame(LeafKey(), inv.leaves, l, leaf);
    }
  }

  /** The binding names the current entity and a fragment on the leaf's path. */
  ghost predicate BindsPath(inv: Inventory, b: SourceBinding, leafId: Digest) {
    && EntityCurrent(inv, b)
    && exists f :: OnPath(inv, leafId, f) && f.sourceId == b.sourceId && f.jsonPointer == b.jsonPointer
                   && f.fragmentSha256 == b.fragmentSha256
  }

  /** `sourceBindingMatchesLeafPath`. */
  method BindingMatches(inv: Inventory, b: SourceBinding, leafId: Digest, path: seq<Fragment>) returns (ok: bool)
    requires ValidInventory(inv) && forall f :: f in path <==> OnPath(inv, leafId, f)
    ensures ok <==> BindsPath(inv, b, leafId)
  {
    hide FragmentSound, LeafSound, IssueSound, RootSound, DistinctKeys, OnPath;
    var source := Find(SourceKey(), inv.sources, b.sourceId);
    forall s | source.Some? && s in inv.sources && s.sourceId == b.sourceId ensures s == source.value {
      SameKeySame(SourceKey(), inv.sources, s, source.value);
    }
    ok := source.Some? && source.value.entitySha256 == b.entitySha256 &&
          exists f :: f in path && f.sourceId == b.sourceId && f.jsonPointer == b.jsonPointer
                      && f.fragmentSha256 == b.fragmentSha256;
  }

  // ---- One account ----

  datatype Code = ReportSchemaInvalid | OverlaySchemaInvalid | ReportHashMismatch | InventoryHashMismatch
    | ReportOverlayMismatch | RuntimeIdentityMismatch | StateContractMismatch | OverlayBindingInvalid
    | TraversalIncomplete | UnsupportedLeaf | UnresolvedPhase | NonCombatModeledPhase | PhaseEvidenceStale
    | PhaseOverlayInvalid | ScopeOverlayInvalid

  predicate CombatPhase(p: RulesPhase) { p == Shooting || p == Fight }

  /** The evidence names a fragment on the leaf's path by pointer and digest. */
  ghost predicate Grounded(inv: Inventory, leafId: Digest, e: Evidence)
    requires e.InSource?
  {
    exists f :: OnPath(inv, leafId, f) && f.jsonPointer == e.jsonPointer && f.fragmentSha256 == e.fragmentSha256
  }

  /** The evidence names a reviewed mapping to the same phases, bound to the leaf's path. */
  ghost predicate PhasesReviewed(inv: Inventory, o: Overlay, leafId: Digest, e: Evidence)
    requires e.Reviewed?
  {
    exists n :: n in o.entries && n.entryId == e.overlayEntryId && n.PhaseMapping?
                && SamePhases(n.phases, e.phases) && BindsPath(inv, n.source, leafId)
  }

  ghost predicate ScopeReviewed(inv: Inventory, o: Overlay, leafId: Digest, entryId: string, scope: Scope) {
    exists n :: n in o.entries && n.entryId == entryId && n.CalculatorScope? && n.scope == scope
                && BindsPath(inv, n.source, leafId)
  }

  /** What the account's own branches object to. */
  ghost predicate Wrong(inv: Inventory, o: Overlay, a: LeafAccount, c: Code) {
    match c
    case UnsupportedLeaf => a.disposition.Unsupported?
    case UnresolvedPhase => a.evidence.Unresolved?
    case NonCombatModeledPhase =>
      Combat(a.disposition) && HasPhases(a.evidence) && forall p :: p in a.evidence.phases ==> !CombatPhase(p)
    case PhaseEvidenceStale => a.evidence.InSource? && !Grounded(inv, a.leafId, a.evidence)
    case PhaseOverlayInvalid => a.evidence.Reviewed? && !PhasesReviewed(inv, o, a.leafId, a.evidence)
    case ScopeOverlayInvalid =>
      || (a.disposition.OutOfCalculator? &&
          !ScopeReviewed(inv, o, a.leafId, a.disposition.overlayEntryId, OutOfScope))
      || (a.disposition.NotRelevant? && a.disposition.reviewEntryId.Some? &&
          !ScopeReviewed(inv, o, a.leafId, a.disposition.reviewEntryId.value, NotInQuestion))
    case _ => false
  }

  method CheckPhaseReview(inv: Inventory, o: Overlay, entries: map<string, OverlayEntry>, a: LeafAccount,
                          path: seq<Fragment>)
    returns (ok: bool)
    requires ValidInventory(inv) && DistinctKeys(EntryKey(), o.entries) && Indexed(entries, EntryKey(), o.entries)
    requires (forall f :: f in path <==> OnPath(inv, a.leafId, f)) && a.evidence.Reviewed?
    ensures ok <==> PhasesReviewed(inv, o, a.leafId, a.evidence)
  {
    hide ValidInventory, DistinctKeys, Indexed, BindsPath, OnPath, NormalPhases, SamePhases;
    OneEntry(o, entries);
    if a.evidence.overlayEntryId !in entries { return false; }
    var entry := entries[a.evidence.overlayEntryId];
    if !entry.PhaseMapping? { return false; }
    PhasesEqualIff(entry.phases, a.evidence.phases);
    var bound := BindingMatches(inv, entry.source, a.leafId, path);
    ok := NormalPhases(entry.phases) == NormalPhases(a.evidence.phases) && bound;
  }

  method CheckScopeReview(inv: Inventory, o: Overlay, entries: map<string, OverlayEntry>, leafId: Digest,
                          path: seq<Fragment>, entryId: string, scope: Scope)
    returns (ok: bool)
    requires ValidInventory(inv) && DistinctKeys(EntryKey(), o.entries) && Indexed(entries, EntryKey(), o.entries)
    requires forall f :: f in path <==> OnPath(inv, leafId, f)
    ensures ok <==> ScopeReviewed(inv, o, leafId, entryId, scope)
  {
    hide ValidInventory, DistinctKeys, Indexed, BindsPath, OnPath;
    OneEntry(o, entries);
    if entryId !in entries { return false; }
    var entry := entries[entryId];
    if !entry.CalculatorScope? || entry.scope != scope { return false; }
    ok := BindingMatches(inv, entry.source, leafId, path);
  }

  lemma OneEntry(o: Overlay, entries: map<string, OverlayEntry>)
    requires DistinctKeys(EntryKey(), o.entries) && Indexed(entries, EntryKey(), o.entries)
    ensures forall n :: n in o.entries ==> n.entryId in entries && entries[n.entryId] == n
    ensures forall id :: id in entries ==> entries[id] in o.entries && entries[id].entryId == id
  {
    forall n | n in o.entries ensures n.entryId in entries && entries[n.entryId] == n {
      IndexedExactlyOne(entries, EntryKey(), o.entries, n);
    }
  }

  /** The body of the loop over accounts. */
  method AccountIssues(inv: Inventory, o: Overlay, entries: map<string, OverlayEntry>, a: LeafAccount)
    returns (codes: seq<Code>)
    requires ValidInventory(inv) && DistinctKeys(EntryKey(), o.entries) && Indexed(entries, EntryKey(), o.entries)
    ensures forall c :: c in codes <==> Wrong(inv, o, a, c)
  {
    hide ValidInventory, DistinctKeys, Indexed, OnPath, Grounded, PhasesReviewed, ScopeReviewed;
    var path := LeafFragmentPath(inv, a.leafId);
    codes := [];
    if a.disposition.Unsupported? { codes := codes + [UnsupportedLeaf]; }
    if a.evidence.Unresolved? { codes := codes + [UnresolvedPhase]; }
    var calculated := a.disposition.Calculated? || a.disposition.StateRequired?;
    if calculated && (a.evidence.InSource? || a.evidence.Reviewed?) &&
       Shooting !in a.evidence.phases && Fight !in a.evidence.phases {
      codes := codes + [NonCombatModeledPhase];
    }
    if a.evidence.InSource? {
      var grounded := exists f :: f in path && f.jsonPointer == a.evidence.jsonPointer
                                  && f.fragmentSha256 == a.evidence.fragmentSha256;
      GroundedOnPath(inv, a, path);
      if !grounded { codes := codes + [PhaseEvidenceStale]; }
    } else if a.evidence.Reviewed? {
      var reviewed := CheckPhaseReview(inv, o, entries, a, path);
      if !reviewed { codes := codes + [PhaseOverlayInvalid]; }
    }
    if a.disposition.OutOfCalculator? {
      var reviewed := CheckScopeReview(inv, o, entries, a.leafId, path, a.disposition.overlayEntryId, OutOfScope);
      if !reviewed { codes := codes + [ScopeOverlayInvalid]; }
    }
    if a.disposition.NotRelevant? && a.disposition.reviewEntryId.Some? {
      var id := a.disposition.reviewEntryId.value;
      var reviewed := CheckScopeReview(inv, o, entries, a.leafId, path, id, NotInQuestion);
      if !reviewed { codes := codes + [ScopeOverlayInvalid]; }
    }
  }

  lemma GroundedOnPath(inv: Inventory, a: LeafAccount, path: seq<Fragment>)
    requires a.evidence.InSource? && forall f :: f in path <==> OnPath(inv, a.leafId, f)
    ensures Grounded(inv, a.leafId, a.evidence)
       <==> exists f :: f in path && f.jsonPointer == a.evidence.jsonPointer
                        && f.fragmentSha256 == a.evidence.fragmentSha256
  {
    hide OnPath;
  }

  // ---- The whole evaluation ----

  datatype Expectation = Expectation(runtime: Runtime, supportedStateKeys: seq<string>)

  datatype AdmissionIssue = AdmissionIssue(code: Code, leafId: Option<Digest>)

  ghost predicate Traversable(inv: Inventory) {
    inv.issues == [] && forall f :: f in inv.fragments ==> f.role != UntraversableRole
  }

  /** What the checks before the loop object to, once both schemas are met. */
  ghost predicate WrongAsAWhole(h: Seals, r: Report, o: Overlay, expected: Expectation, c: Code) {
    match c
    case ReportHashMismatch => !ReportSealed(h, r)
    case InventoryHashMismatch => !InventorySealed(h, r.inventory)
    case ReportOverlayMismatch => r.overlaySha256 != o.overlaySha256
    case RuntimeIdentityMismatch => r.runtime != expected.runtime
    case StateContractMismatch => !SameMembers(r.supportedStateKeys, expected.supportedStateKeys)
    case OverlayBindingInvalid => !BindingsValid(h, o, r.inventory)
    case TraversalIncomplete => !Traversable(r.inventory.body)
    case _ => false
  }

  /** Exactly the issues the evaluation returns. */
  ghost predicate Raised(h: Seals, r: Report, o: Overlay, expected: Expectation, i: AdmissionIssue) {
    if !ReportSchema(r) then i == AdmissionIssue(ReportSchemaInvalid, None)
    else if !OverlaySchema(o) then i == AdmissionIssue(OverlaySchemaInvalid, None)
    else
      || (i.leafId.None? && WrongAsAWhole(h, r, o, expected, i.code))
      || (i.leafId.Some? && RaisedFor(r, o, r.accounts, i.leafId.value, i.code))
  }

  ghost predicate RaisedFor(r: Report, o: Overlay, accounts: seq<LeafAccount>, leafId: Digest, c: Code) {
    exists a :: a in accounts && a.leafId == leafId && Wrong(r.inventory.body, o, a, c)
  }

  /** The evaluation throws when both schemas are met and the expectation repeats a state key. */
  ghost predicate Throws(r: Report, o: Overlay, expected: Expectation) {
    ReportSchema(r) && OverlaySchema(o) && !NoRepeats(expected.supportedStateKeys)
  }

  function OnLeaf(codes: seq<Code>, leafId: Digest): (r: seq<AdmissionIssue>)
    ensures forall i :: i in r <==> i.leafId == Some(leafId) && i.code in codes
  {
    if codes == [] then []
    else
      var n := |codes| - 1;
      assert codes == codes[..n] + [codes[n]];
      OnLeaf(codes[..n], leafId) + [AdmissionIssue(codes[n], Some(leafId))]
  }

  /** The checks of digests and identities. */
  predicate OfIdentity(c: Code) { c != OverlayBindingInvalid && c != TraversalIncomplete }

  method IdentityIssues(h: Seals, r: Report, o: Overlay, expected: Expectation) returns (codes: seq<Code>)
    ensures forall c :: c in codes <==> OfIdentity(c) && WrongAsAWhole(h, r, o, expected, c)
  {
    hide ReportDraft, InventoryDraft, BindingsValid, Traversable, SameMembers, SortedUnique;
    codes := [];
    if r.reportSha256 != h.report(ReportDraft(r)) { codes := codes + [ReportHashMismatch]; }
    if r.inventory.inventorySha256 != h.inventory(InventoryDraft(r.inventory)) {
      codes := codes + [InventoryHashMismatch];
    }
    if r.overlaySha256 != o.overlaySha256 { codes := codes + [ReportOverlayMismatch]; }
    if r.runtime != expected.runtime { codes := codes + [RuntimeIdentityMismatch]; }
    SortedUniqueEqualIff(r.supportedStateKeys, expected.supportedStateKeys);
    if SortedUnique(r.supportedStateKeys) != SortedUnique(expected.supportedStateKeys) {
      codes := codes + [StateContractMismatch];
    }
  }

  method GeneralIssues(h: Seals, r: Report, o: Overlay, expected: Expectation) returns (codes: seq<Code>)
    requires ValidInventory(r.inventory.body)
    ensures forall c :: c in codes <==> WrongAsAWhole(h, r, o, expected, c)
  {
    hide ReportSealed, InventorySealed, BindingsValid, ValidInventory, SameMembers;
    codes := IdentityIssues(h, r, o, expected);
    var bindings := ValidateBindings(h, o, r.inventory);
    if bindings != [] { codes := codes + [OverlayBindingInvalid]; }
    var inv := r.inventory.body;
    if |inv.issues| > 0 || exists f :: f in inv.fragments && f.role == UntraversableRole {
      codes := codes + [TraversalIncomplete];
    }
  }

  function OnNoLeaf(codes: seq<Code>): (r: seq<AdmissionIssue>)
    ensures forall i :: i in r <==> i.leafId == None && i.code in codes
  {
    if codes == [] then []
    else
      var n := |codes| - 1;
      assert codes == codes[..n] + [codes[n]];
      OnNoLeaf(codes[..n]) + [AdmissionIssue(codes[n], None)]
  }

  ghost predicate RaisedSoFar(h: Seals, r: Report, o: Overlay, expected: Expectation, raised: seq<AdmissionIssue>,
                              accounts: seq<LeafAccount>) {
    forall i :: i in raised <==>
      || (i.leafId.None? && WrongAsAWhole(h, r, o, expected, i.code))
      || (i.leafId.Some? && RaisedFor(r, o, accounts, i.leafId.value, i.code))
  }

  lemma RaisedFirst(h: Seals, r: Report, o: Overlay, expected: Expectation, codes: seq<Code>)
    requires forall c :: c in codes <==> WrongAsAWhole(h, r, o, expected, c)
    ensures RaisedSoFar(h, r, o, expected, OnNoLeaf(codes), [])
  {
    hide WrongAsAWhole, Wrong, OnNoLeaf;
    forall id, c ensures !RaisedFor(r, o, [], id, c) {}
  }

  lemma RaisedMore(h: Seals, r: Report, o: Overlay, expected: Expectation, raised: seq<AdmissionIssue>,
                   accounts: seq<LeafAccount>, a: LeafAccount, codes: seq<Code>)
    requires RaisedSoFar(h, r, o, expected, raised, accounts)
    requires forall c :: c in codes <==> Wrong(r.inventory.body, o, a, c)
    ensures RaisedSoFar(h, r, o, expected, raised + OnLeaf(codes, a.leafId), accounts + [a])
  {
    hide WrongAsAWhole, Wrong, OnLeaf;
    forall id, c
      ensures RaisedFor(r, o, accounts + [a], id, c) <==>
              RaisedFor(r, o, accounts, id, c) || (a.leafId == id && c in codes)
    {
      OneMoreRaised(r, o, accounts, a, id, c);
    }
    hide RaisedFor;
    assert forall i :: i in raised + OnLeaf(codes, a.leafId) <==> i in raised || i in OnLeaf(codes, a.leafId);
  }

  lemma OneMoreRaised(r: Report, o: Overlay, accounts: seq<LeafAccount>, a: LeafAccount, id: Digest, c: Code)
    ensures RaisedFor(r, o, accounts + [a], id, c)
       <==> RaisedFor(r, o, accounts, id, c) || (a.leafId == id && Wrong(r.inventory.body, o, a, c))
  {
    hide Wrong;
    assert forall b :: b in accounts + [a] <==> b in accounts || b == a;
  }

  lemma SchemasMean(r: Report, o: Overlay)
    requires ReportSchema(r) && OverlaySchema(o)
    ensures ValidInventory(r.inventory.body) && DistinctKeys(EntryKey(), o.entries)
  {}

  /** `evaluateCombatCorpusStrictAdmissionV1`; nothing is returned when it throws. */
  method EvaluateStrictAdmission(h: Seals, r: Report, o: Overlay, expected: Expectation)
    returns (issues: Option<seq<AdmissionIssue>>)
    ensures issues.None? <==> Throws(r, o, expected)
    ensures issues.Some? ==> forall i :: i in issues.value <==> Raised(h, r, o, expected, i)
    ensures issues == Some([]) <==> Admissible(h, r, o, expected)
  {
    hide ReportSchema, OverlaySchema, ValidInventory, DistinctKeys, Wrong, WrongAsAWhole, Admissible, RaisedSoFar,
      Indexed, MapBy, NoRepeats;
    AdmissibleIff(h, r, o, expected);
    var ok := CheckReport(r);
    if !ok {
      assert Raised(h, r, o, expected, AdmissionIssue(ReportSchemaInvalid, None));
      return Some([AdmissionIssue(ReportSchemaInvalid, None)]);
    }
    ok := CheckOverlay(o);
    if !ok {
      assert Raised(h, r, o, expected, AdmissionIssue(OverlaySchemaInvalid, None));
      return Some([AdmissionIssue(OverlaySchemaInvalid, None)]);
    }
    ok := Unique(expected.supportedStateKeys);
    if !ok { return None; }
    SchemasMean(r, o);
    var general := GeneralIssues(h, r, o, expected);
    var entries := MapBy(EntryKey(), o.entries);
    MapByIndexed(EntryKey(), o.entries);
    var raised := OnNoLeaf(general);
    RaisedFirst(h, r, o, expected, general);
    for k := 0 to |r.accounts|
      invariant RaisedSoFar(h, r, o, expected, raised, r.accounts[..k])
    {
      assert r.accounts[..k + 1] == r.accounts[..k] + [r.accounts[k]];
      var codes := AccountIssues(r.inventory.body, o, entries, r.accounts[k]);
      RaisedMore(h, r, o, expected, raised, r.accounts[..k], r.accounts[k], codes);
      raised := raised + OnLeaf(codes, r.accounts[k].leafId);
    }
    assert r.accounts[..|r.accounts|] == r.accounts;
    RaisedInTheEnd(h, r, o, expected, raised);
    issues := Some(raised);
    assert raised != [] ==> raised[0] in raised;
  }

  lemma RaisedInTheEnd(h: Seals, r: Report, o: Overlay, expected: Expectation, raised: seq<AdmissionIssue>)
    requires ReportSchema(r) && OverlaySchema(o) && RaisedSoFar(h, r, o, expected, raised, r.accounts)
    ensures forall i :: i in raised <==> Raised(h, r, o, expected, i)
  {
    hide ReportSchema, OverlaySchema, WrongAsAWhole, RaisedFor;
  }

  // ---- Admission ----

  ghost predicate AccountAdmitted(inv: Inventory, o: Overlay, a: LeafAccount) {
    && !a.disposition.Unsupported? && !a.evidence.Unresolved?
    && (Combat(a.disposition) && HasPhases(a.evidence) ==> exists p :: p in a.evidence.phases && CombatPhase(p))
    && (a.evidence.InSource? ==> Grounded(inv, a.leafId, a.evidence))
    && (a.evidence.Reviewed? ==> PhasesReviewed(inv, o, a.leafId, a.evidence))
    && (a.disposition.OutOfCalculator? ==>
          ScopeReviewed(inv, o, a.leafId, a.disposition.overlayEntryId, OutOfScope))
    && (a.disposition.NotRelevant? && a.disposition.reviewEntryId.Some? ==>
          ScopeReviewed(inv, o, a.leafId, a.disposition.reviewEntryId.value, NotInQuestion))
  }

  /** A report and overlay that strict admission lets through. */
  ghost predicate Admissible(h: Seals, r: Report, o: Overlay, expected: Expectation) {
    && ReportSchema(r) && OverlaySchema(o) && NoRepeats(expected.supportedStateKeys)
    && ReportSealed(h, r) && InventorySealed(h, r.inventory) && BindingsValid(h, o, r.inventory)
    && r.overlaySha256 == o.overlaySha256 && r.runtime == expected.runtime
    && SameMembers(r.supportedStateKeys, expected.supportedStateKeys)
    && Traversable(r.inventory.body)
    && forall a :: a in r.accounts ==> AccountAdmitted(r.inventory.body, o, a)
  }

  lemma AccountAdmittedIff(inv: Inventory, o: Overlay, a: LeafAccount)
    ensures AccountAdmitted(inv, o, a) <==> forall c :: !Wrong(inv, o, a, c)
  {
    hide Grounded, PhasesReviewed, ScopeReviewed;
    if forall c :: !Wrong(inv, o, a, c) {
      assert !Wrong(inv, o, a, UnsupportedLeaf) && !Wrong(inv, o, a, UnresolvedPhase);
      assert !Wrong(inv, o, a, NonCombatModeledPhase) && !Wrong(inv, o, a, PhaseEvidenceStale);
      assert !Wrong(inv, o, a, PhaseOverlayInvalid) && !Wrong(inv, o, a, ScopeOverlayInvalid);
    }
  }

  lemma WholeIff(h: Seals, r: Report, o: Overlay, expected: Expectation)
    ensures (forall c :: !WrongAsAWhole(h, r, o, expected, c))
       <==> && ReportSealed(h, r) && InventorySealed(h, r.inventory) && BindingsValid(h, o, r.inventory)
            && r.overlaySha256 == o.overlaySha256 && r.runtime == expected.runtime
            && SameMembers(r.supportedStateKeys, expected.supportedStateKeys) && Traversable(r.inventory.body)
  {
    hide ReportSealed, InventorySealed, BindingsValid, SameMembers, Traversable;
    if forall c :: !WrongAsAWhole(h, r, o, expected, c) {
      assert !WrongAsAWhole(h, r, o, expected, ReportHashMismatch);
      assert !WrongAsAWhole(h, r, o, expected, InventoryHashMismatch);
      assert !WrongAsAWhole(h, r, o, expected, ReportOverlayMismatch);
      assert !WrongAsAWhole(h, r, o, expected, RuntimeIdentityMismatch);
      assert !WrongAsAWhole(h, r, o, expected, StateContractMismatch);
      assert !WrongAsAWhole(h, r, o, expected, OverlayBindingInvalid);
      assert !WrongAsAWhole(h, r, o, expected, TraversalIncomplete);
    }
  }

  lemma AccountsIff(r: Report, o: Overlay)
    ensures (forall a :: a in r.accounts ==> AccountAdmitted(r.inventory.body, o, a))
       <==> forall id, c :: !RaisedFor(r, o, r.accounts, id, c)
  {
    hide AccountAdmitted, Wrong;
    forall a ensures AccountAdmitted(r.inventory.body, o, a) <==> forall c :: !Wrong(r.inventory.body, o, a, c) {
      AccountAdmittedIff(r.inventory.body, o, a);
    }
    if forall id, c :: !RaisedFor(r, o, r.accounts, id, c) {
      forall a, c | a in r.accounts ensures !Wrong(r.inventory.body, o, a, c) {
        assert !RaisedFor(r, o, r.accounts, a.leafId, c);
      }
    }
  }

  lemma AdmissibleIff(h: Seals, r: Report, o: Overlay, expected: Expectation)
    ensures Admissible(h, r, o, expected)
       <==> !Throws(r, o, expected) && forall i :: !Raised(h, r, o, expected, i)
  {
    hide ReportSchema, OverlaySchema, WrongAsAWhole, RaisedFor, AccountAdmitted, ReportSealed, InventorySealed,
      BindingsValid, SameMembers, Traversable, NoRepeats;
    WholeIff(h, r, o, expected);
    AccountsIff(r, o);
    if !ReportSchema(r) {
      assert Raised(h, r, o, expected, AdmissionIssue(ReportSchemaInvalid, None));
    } else if !OverlaySchema(o) {
      assert Raised(h, r, o, expected, AdmissionIssue(OverlaySchemaInvalid, None));
    } else if forall i :: !Raised(h, r, o, expected, i) {
      forall c ensures !WrongAsAWhole(h, r, o, expected, c) {
        assert !Raised(h, r, o, expected, AdmissionIssue(c, None));
      }
      forall id, c ensures !RaisedFor(r, o, r.accounts, id, c) {
        assert !Raised(h, r, o, expected, AdmissionIssue(c, Some(id)));
      }
    }
  }

  // ---- What an admitted report is worth ----

  /** A source binding that stands on a leaf: its own source, and a fragment of its path. */
  ghost predicate StandsOn(inv: Inventory, l: SourceLeaf, b: SourceBinding) {
    && b.sourceId == l.sourceId && EntityCurrent(inv, b)
    && exists f :: f in inv.fragments && f.fragmentId in PathIds(l) && f.jsonPointer == b.jsonPointer
                   && f.fragmentSha256 == b.fragmentSha256
  }

  /** Evidence that the leaf acts in one of the two combat phases: from its own effect or from a review of it. */
  ghost predicate CombatEvidence(inv: Inventory, o: Overlay, l: SourceLeaf, e: Evidence) {
    && HasPhases(e) && (exists p :: p in e.phases && CombatPhase(p))
    && match e {
         case InSource(_, _, pointer, sha) =>
           exists f :: f in inv.fragments && f.fragmentId in PathIds(l) && f.sourceId == l.sourceId
                       && f.jsonPointer == pointer && f.fragmentSha256 == sha
         case Reviewed(phases, id) =>
           exists n :: n in o.entries && n.entryId == id && n.PhaseMapping? && SamePhases(n.phases, phases)
                       && StandsOn(inv, l, n.source)
         case _ => false
       }
  }

  ghost predicate ScopeStands(inv: Inventory, o: Overlay, l: SourceLeaf, entryId: string, scope: Scope) {
    exists n :: n in o.entries && n.entryId == entryId && n.CalculatorScope? && n.scope == scope
                && StandsOn(inv, l, n.source)
  }

  /** What the account of a leaf comes to: calculated in a combat phase for a reason, or set aside by a review. */
  ghost predicate Settled(inv: Inventory, o: Overlay, expected: Expectation, l: SourceLeaf, a: LeafAccount) {
    match a.disposition
    case Calculated(_) => CombatEvidence(inv, o, l, a.evidence)
    case StateRequired(_, _) =>
      && CombatEvidence(inv, o, l, a.evidence)
      && a.stateKeys != [] && forall k :: k in a.stateKeys ==> k in expected.supportedStateKeys
    case OutOfCalculator(id, _) => ScopeStands(inv, o, l, id, OutOfScope)
    case NotRelevant(_, id) => id.Some? ==> ScopeStands(inv, o, l, id.value, NotInQuestion)
    case Unsupported(_) => false
  }

  /** The whole path of a leaf belongs to the leaf's source. */
  lemma PathOfSource(inv: Inventory, l: SourceLeaf, f: Fragment)
    requires ValidInventory(inv) && l in inv.leaves && OnPath(inv, l.leafId, f)
    ensures f.fragmentId in PathIds(l) && f.sourceId == l.sourceId
  {
    hide FragmentSound, IssueSound, RootSound, DistinctKeys, HasSource;
    PathOfOne(inv, l, f);
    assert LeafSound(inv, l);
    hide OnPath;
    if f.fragmentId == l.fragmentId {
      var g :| g in inv.fragments && g.fragmentId == l.fragmentId && g.sourceId == l.sourceId;
      SameKeySame(FragmentKey(), inv.fragments, f, g);
    } else {
      assert f.fragmentId in l.ancestorFragmentIds;
      assert AncestorSound(inv, f.fragmentId, l.sourceId);
      var g :| g in inv.fragments && g.fragmentId == f.fragmentId && g.sourceId == l.sourceId;
      SameKeySame(FragmentKey(), inv.fragments, f, g);
    }
  }

  lemma BindingStands(inv: Inventory, l: SourceLeaf, b: SourceBinding)
    requires ValidInventory(inv) && l in inv.leaves && BindsPath(inv, b, l.leafId)
    ensures StandsOn(inv, l, b)
  {
    hide ValidInventory, EntityCurrent, OnPath, PathIds;
    var f :| OnPath(inv, l.leafId, f) && f.sourceId == b.sourceId && f.jsonPointer == b.jsonPointer
             && f.fragmentSha256 == b.fragmentSha256;
    PathOfSource(inv, l, f);
    InPath(inv, l.leafId, f);
  }

  lemma InPath(inv: Inventory, leafId: Digest, f: Fragment)
    requires OnPath(inv, leafId, f)
    ensures f in inv.fragments
  {}

  lemma EvidenceStands(inv: Inventory, o: Overlay, l: SourceLeaf, a: LeafAccount)
    requires ValidInventory(inv) && l in inv.leaves && a.leafId == l.leafId
    requires AccountSchema(a) && AccountAdmitted(inv, o, a) && Combat(a.disposition)
    ensures CombatEvidence(inv, o, l, a.evidence)
  {
    hide ValidInventory, OnPath, PathIds, ScopeReviewed, NoRepeats, SamePhases, CombatPhase, BindsPath, StandsOn;
    if a.evidence.InSource? {
      assert Grounded(inv, l.leafId, a.evidence);
      var f :| OnPath(inv, l.leafId, f) && f.jsonPointer == a.evidence.jsonPointer
               && f.fragmentSha256 == a.evidence.fragmentSha256;
      PathOfSource(inv, l, f);
      InPath(inv, l.leafId, f);
    } else {
      assert PhasesReviewed(inv, o, l.leafId, a.evidence);
      var n :| n in o.entries && n.entryId == a.evidence.overlayEntryId && n.PhaseMapping?
               && SamePhases(n.phases, a.evidence.phases) && BindsPath(inv, n.source, l.leafId);
      BindingStands(inv, l, n.source);
    }
  }

  lemma ReviewStands(inv: Inventory, o: Overlay, l: SourceLeaf, entryId: string, scope: Scope)
    requires ValidInventory(inv) && l in inv.leaves && ScopeReviewed(inv, o, l.leafId, entryId, scope)
    ensures ScopeStands(inv, o, l, entryId, scope)
  {
    hide ValidInventory, BindsPath, StandsOn;
    var n :| n in o.entries && n.entryId == entryId && n.CalculatorScope? && n.scope == scope
             && BindsPath(inv, n.source, l.leafId);
    BindingStands(inv, l, n.source);
  }

  lemma AccountSettled(r: Report, o: Overlay, expected: Expectation, l: SourceLeaf, a: LeafAccount)
    requires ValidInventory(r.inventory.body) && l in r.inventory.body.leaves && a.leafId == l.leafId
    requires AccountFits(a, r.supportedStateKeys) && AccountAdmitted(r.inventory.body, o, a)
    requires SameMembers(r.supportedStateKeys, expected.supportedStateKeys)
    ensures Settled(r.inventory.body, o, expected, l, a)
  {
    hide ValidInventory, CombatEvidence, ScopeStands, ScopeReviewed, Grounded, PhasesReviewed, NoRepeats, CombatPhase;
    var inv := r.inventory.body;
    match a.disposition
    case Calculated(_) => EvidenceStands(inv, o, l, a);
    case StateRequired(_, _) => EvidenceStands(inv, o, l, a);
    case OutOfCalculator(id, _) => ReviewStands(inv, o, l, id, OutOfScope);
    case NotRelevant(_, id) => if id.Some? { ReviewStands(inv, o, l, id.value, NotInQuestion); }
    case Unsupported(_) =>
  }

  /**
    Every leaf of an admitted report has one account, and that account settles it: what is calculated acts in a
    combat phase on evidence from its own effect or a current review of it, within the states the caller
    supports; what is set aside was reviewed; nothing is unsupported or was not traversed.
   */
  lemma AdmittedLeafSettled(h: Seals, r: Report, o: Overlay, expected: Expectation, l: SourceLeaf)
    returns (account: LeafAccount)
    requires Admissible(h, r, o, expected) && l in r.inventory.body.leaves
    ensures account in r.accounts && account.leafId == l.leafId
    ensures forall a :: a in r.accounts && a.leafId == l.leafId ==> a == account
    ensures Settled(r.inventory.body, o, expected, l, account)
    ensures exists f :: f in r.inventory.body.fragments && f.fragmentId == l.fragmentId && f.role == LeafRole
  {
    hide ValidInventory, AccountFits, AccountAdmitted, DistinctKeys, OverlaySchema, ReportSealed, InventorySealed,
      BindingsValid, ExpectedSummary, Settled, NoRepeats;
    account :| account in r.accounts && account.leafId == l.leafId;
    forall a | a in r.accounts && a.leafId == l.leafId ensures a == account {
      SameKeySame(AccountKey(), r.accounts, a, account);
    }
    AccountSettled(r, o, expected, l, account);
    TerminalLeaf(r.inventory.body, l);
  }

  lemma TerminalLeaf(inv: Inventory, l: SourceLeaf)
    requires ValidInventory(inv) && Traversable(inv) && l in inv.leaves
    ensures exists f :: f in inv.fragments && f.fragmentId == l.fragmentId && f.role == LeafRole
  {
    hide FragmentSound, IssueSound, RootSound, DistinctKeys, HasSource, AncestorSound;
    assert LeafSound(inv, l);
    var f :| f in inv.fragments && f.fragmentId == l.fragmentId && f.role != ContainerRole;
    assert f.role == LeafRole;
  }
}
