/**
  lib/rosterpilot/combat-corpus-conformance.ts:686-836: collect the sources, sort the lists, validate.
 */
module InventoryBuilder {
  import opened Sequences
  import opened Wrappers
  import opened Ordering
  import opened JsonPointer
  import opened EffectTree
  import opened SourceInventory
  import opened InventoryTraversal
  import opened InventoryValidity
  import opened InventoryValidator

  function CodeName(code: IssueCode): string {
    match code
    case InvalidEffectNode => "INVALID_EFFECT_NODE"
    case UnknownEffectNodeType => "UNKNOWN_EFFECT_NODE_TYPE"
    case MalformedEffectContainer => "MALFORMED_EFFECT_CONTAINER"
    case EmptyEffectContainer => "EMPTY_EFFECT_CONTAINER"
  }

  predicate IssueBefore(a: Issue, b: Issue) {
    if a.sourceId != b.sourceId then StringLess(a.sourceId, b.sourceId)
    else if a.jsonPointer != b.jsonPointer then StringLess(a.jsonPointer, b.jsonPointer)
    else StringLess(CodeName(a.code), CodeName(b.code))
  }

  /** `normalizeInventoryDraft`. */
  function Normalize(inv: Inventory): Inventory {
    Inventory(SortBy(ByKey(SourceKey()), inv.sources), SortBy(ByKey(FragmentKey()), inv.fragments),
              SortBy(ByKey(LeafKey()), inv.leaves), SortBy(IssueBefore, inv.issues))
  }

  /** Two inventories with the same entries, as often. */
  ghost predicate SameEntries(a: Inventory, b: Inventory) {
    && (forall s :: s in a.sources <==> s in b.sources) && (forall f :: f in a.fragments <==> f in b.fragments)
    && (forall l :: l in a.leaves <==> l in b.leaves) && (forall i :: i in a.issues <==> i in b.issues)
    && (IdsDistinct(a) <==> IdsDistinct(b))
    && (forall id :: CountKey(LeafFragmentKey(), a.leaves, id) == CountKey(LeafFragmentKey(), b.leaves, id))
    && (forall id :: CountKey(IssueKey(), a.issues, id) == CountKey(IssueKey(), b.issues, id))
  }

  lemma NormalizeSameEntries(inv: Inventory)
    ensures SameEntries(inv, Normalize(inv))
  {
    hide SortBy, DistinctKeys, IssueBefore, KeysOf, Repeats, ByKey, SourceKey, FragmentKey, LeafKey, JoinedKey,
      LeafFragmentKey, IssueKey;
    SortByMembers(ByKey(SourceKey()), inv.sources);
    SortByMembers(ByKey(FragmentKey()), inv.fragments);
    SortByMembers(ByKey(LeafKey()), inv.leaves);
    SortByMembers(IssueBefore, inv.issues);
    SortRepeats(ByKey(SourceKey()), SourceKey(), inv.sources);
    SortRepeats(ByKey(FragmentKey()), FragmentKey(), inv.fragments);
    SortRepeats(ByKey(FragmentKey()), JoinedKey(), inv.fragments);
    SortRepeats(ByKey(LeafKey()), LeafKey(), inv.leaves);
    SortKeys(ByKey(LeafKey()), LeafFragmentKey(), inv.leaves);
    SortKeys(IssueBefore, IssueKey(), inv.issues);
  }

  lemma SameFragmentSound(a: Inventory, b: Inventory, f: Fragment)
    requires SameEntries(a, b) && FragmentSound(a, f)
    ensures FragmentSound(b, f)
  {
    hide IdsDistinct, CountKey;
    var s :| s in a.sources && s.sourceId == f.sourceId;
    assert s in b.sources;
    if f.role == ContainerRole {
      var l :| l in a.leaves && f.fragmentId in l.ancestorFragmentIds;
      assert l in b.leaves;
    }
  }

  lemma SameLeafSound(a: Inventory, b: Inventory, l: SourceLeaf)
    requires SameEntries(a, b) && LeafSound(a, l)
    ensures LeafSound(b, l)
  {
    hide IdsDistinct, CountKey, NoRepeats;
    var s :| s in a.sources && s.sourceId == l.sourceId;
    assert s in b.sources;
    var f :| f in a.fragments && f.fragmentId == l.fragmentId && f.role != ContainerRole && f.sourceId == l.sourceId;
    assert f in b.fragments;
    forall x | x in l.ancestorFragmentIds ensures AncestorSound(b, x, l.sourceId) {
      assert AncestorSound(a, x, l.sourceId);
      var g :| g in a.fragments && g.fragmentId == x && g.role == ContainerRole && g.sourceId == l.sourceId;
      assert g in b.fragments;
    }
  }

  lemma SameRestSound(a: Inventory, b: Inventory)
    requires SameEntries(a, b)
    ensures forall i :: IssueSound(a, i) ==> IssueSound(b, i)
    ensures forall s :: RootSound(a, s) ==> RootSound(b, s)
  {
    hide IdsDistinct, CountKey, IssueMatches, IsRoot;
  }

  lemma SameEntriesSound(a: Inventory, b: Inventory)
    requires SameEntries(a, b) && ValidInventory(a)
    ensures ValidInventory(b)
  {
    hide IdsDistinct, CountKey, FragmentSound, LeafSound, IssueSound, RootSound;
    SameRestSound(a, b);
    forall f | f in b.fragments ensures FragmentSound(b, f) { SameFragmentSound(a, b, f); }
    forall l | l in b.leaves ensures LeafSound(b, l) { SameLeafSound(a, b, l); }
  }

  /** Sorting changes nothing the validator asks about. */
  lemma NormalizeKeepsValid(inv: Inventory)
    ensures ValidInventory(Normalize(inv)) <==> ValidInventory(inv)
  {
    NormalizeSameEntries(inv);
    hide Normalize, ValidInventory, SameEntries;
    if ValidInventory(inv) { SameEntriesSound(inv, Normalize(inv)); }
    if ValidInventory(Normalize(inv)) { SameEntriesFlip(inv, Normalize(inv)); SameEntriesSound(Normalize(inv), inv); }
  }

  lemma SameEntriesFlip(a: Inventory, b: Inventory)
    requires SameEntries(a, b)
    ensures SameEntries(b, a)
  {}

  // ---- The builder ----

  datatype BuildError = NoSources | DuplicateSourceIds | InvalidDraft

  /** Every source of the list visited in turn. */
  method Collect(hash: Hash, inputs: seq<SourceInput>) returns (inv: Inventory)
    ensures inv == DraftOf(hash, inputs)
  {
    hide Visit, FoundIn;
    var sources: seq<Source> := [];
    var builder := new Builder();
    for n := 0 to |inputs|
      invariant Inventory(sources, builder.fragments, builder.leaves, builder.issues) == DraftOf(hash, inputs[..n])
    {
      var input := inputs[n];
      assert inputs[..n + 1][..n] == inputs[..n];
      assert FoundIn(hash, input) ==
             Visit(Context(hash, input.sourceId, input.entitySha256), input.effect, input.effectJsonPointer, []) by {
        FoundInIsVisit(hash, input);
      }
      sources := sources + [SourceOf(hash, input)];
      builder.VisitNode(Context(hash, input.sourceId, input.entitySha256), input.effect, input.effectJsonPointer, []);
    }
    assert inputs[..|inputs|] == inputs;
    inv := Inventory(sources, builder.fragments, builder.leaves, builder.issues);
  }

  lemma FoundInIsVisit(hash: Hash, input: SourceInput)
    ensures FoundIn(hash, input) ==
            Visit(Context(hash, input.sourceId, input.entitySha256), input.effect, input.effectJsonPointer, [])
  {}

  /** What the builder answers. */
  ghost function Built(hash: Hash, inputs: seq<SourceInput>): Result<Inventory, BuildError> {
    if inputs == [] then Err(NoSources)
    else if !DistinctKeys(InputKey(), inputs) then Err(DuplicateSourceIds)
    else if ValidInventory(DraftOf(hash, inputs)) then Ok(Normalize(DraftOf(hash, inputs)))
    else Err(InvalidDraft)
  }

  /** `buildCombatSourceLeafInventoryV1`: the sorted draft, when its validator accepts it. */
  method BuildInventory(hash: Hash, inputs: seq<SourceInput>) returns (r: Result<Inventory, BuildError>)
    ensures r == Built(hash, inputs)
  {
    hide DraftOf, Normalize, ValidInventory, DistinctKeys;
    if inputs == [] { return Err(NoSources); }
    var unique := UniqueKeys(InputKey(), inputs);
    if !unique { return Err(DuplicateSourceIds); }
    var draft := Collect(hash, inputs);
    var normal := Normalize(draft);
    var valid := Validate(normal);
    NormalizeKeepsValid(draft);
    r := if valid then Ok(normal) else Err(InvalidDraft);
  }

  /**
    Building succeeds for every list of distinct source ids without a NUL character, whatever the
    effect trees hold, unless two of the inventory's own ids collide; what it returns is valid.
   */
  lemma BuildAlwaysValid(hash: Hash, inputs: seq<SourceInput>)
    requires NoCollision(hash, ObjectsOf(hash, inputs))
    requires DistinctKeys(InputKey(), inputs) && forall k :: k in inputs ==> '\0' !in k.sourceId
    ensures ValidInventory(Normalize(DraftOf(hash, inputs)))
  {
    DraftValidIff(hash, inputs);
    NoNulNoClash(hash, inputs);
    NormalizeKeepsValid(DraftOf(hash, inputs));
  }

  // ---- The order of the sources does not matter ----

  lemma ByKeySameSorted<T(!new)>(key: T -> string, s: seq<T>, t: seq<T>)
    requires DistinctKeys(key, s) && DistinctKeys(key, t) && forall x :: x in s <==> x in t
    ensures SortBy(ByKey(key), s) == SortBy(ByKey(key), t)
  {
    var a, b := SortBy(ByKey(key), s), SortBy(ByKey(key), t);
    ByKeySorted(key, s);
    ByKeySorted(key, t);
    SortByMembers(ByKey(key), s);
    SortByMembers(ByKey(key), t);
    SortRepeats(ByKey(key), key, s);
    SortRepeats(ByKey(key), key, t);
    DistinctKeysNoRepeats(key, a);
    DistinctKeysNoRepeats(key, b);
    forall x, y | x in a && y in a && x != y ensures ByKey(key)(x, y) || ByKey(key)(y, x) {
      StringLessTotal(key(x), key(y));
      if key(x) == key(y) { SameKeySame(key, a, x, y); }
    }
    SortedMembersUnique(ByKey(key), a, b);
  }

  lemma IssueWeakOrder()
    ensures WeakOrder(IssueBefore)
  {
    StringLessWeakOrder();
    assert WeakOrder(StringLess);
    hide StringLess, CodeName;
    forall x, y, z | IssueBefore(x, y) && IssueBefore(y, z) ensures IssueBefore(x, z) {}
    forall x, y, z | IssueBefore(x, z) ensures IssueBefore(x, y) || IssueBefore(y, z) {
      StringLessTotal(x.sourceId, y.sourceId);
      StringLessTotal(y.sourceId, z.sourceId);
      StringLessTotal(x.jsonPointer, y.jsonPointer);
      StringLessTotal(y.jsonPointer, z.jsonPointer);
    }
  }

  lemma CodeNameInjective(a: IssueCode, b: IssueCode)
    requires CodeName(a) == CodeName(b)
    ensures a == b
  {
    assert CodeName(a)[0] == CodeName(b)[0];
  }

  /** An issue is fixed by its source, pointer and code when joined keys are distinct. */
  lemma IssuesTotal(inv: Inventory)
    requires ValidInventory(inv)
    ensures TotalOn(IssueBefore, inv.issues) && NoRepeats(inv.issues)
  {
    hide LeafSound, RootSound;
    forall i, j | i in inv.issues && j in inv.issues && i != j ensures IssueBefore(i, j) || IssueBefore(j, i) {
      assert IssueSound(inv, i) && IssueSound(inv, j);
      var f :| f in inv.fragments && IssueMatches(i, f);
      var g :| g in inv.fragments && IssueMatches(j, g);
      StringLessTotal(i.sourceId, j.sourceId);
      StringLessTotal(i.jsonPointer, j.jsonPointer);
      StringLessTotal(CodeName(i.code), CodeName(j.code));
      if i.sourceId == j.sourceId && i.jsonPointer == j.jsonPointer {
        SameKeySame(JoinedKey(), inv.fragments, f, g);
        if CodeName(i.code) == CodeName(j.code) { CodeNameInjective(i.code, j.code); }
      }
    }
    forall a, b | 0 <= a < b < |inv.issues| ensures inv.issues[a] != inv.issues[b] {
      var i := inv.issues[a];
      assert IssueSound(inv, i);
      var f :| f in inv.fragments && IssueMatches(i, f);
      assert FragmentSound(inv, f);
      if i == inv.issues[b] { CountTwice(KeysOf(IssueKey(), inv.issues), a, b); }
    }
  }

  /** The entries of an inventory, in no order. */
  datatype Bag = Bag(sources: multiset<Source>, fragments: multiset<Fragment>, leaves: multiset<SourceLeaf>,
                     issues: multiset<Issue>)

  function BagOf(inv: Inventory): Bag {
    Bag(multiset(inv.sources), multiset(inv.fragments), multiset(inv.leaves), multiset(inv.issues))
  }

  function AddBags(a: Bag, b: Bag): Bag {
    Bag(a.sources + b.sources, a.fragments + b.fragments, a.leaves + b.leaves, a.issues + b.issues)
  }

  /** What one source adds. */
  function Part(hash: Hash, input: SourceInput): Bag {
    var found := FoundIn(hash, input);
    Bag(multiset{SourceOf(hash, input)}, multiset(found.fragments), multiset(found.leaves), multiset(found.issues))
  }

  lemma DraftLast(hash: Hash, inputs: seq<SourceInput>, input: SourceInput)
    ensures BagOf(DraftOf(hash, inputs + [input])) == AddBags(BagOf(DraftOf(hash, inputs)), Part(hash, input))
  {
    hide FoundIn, SourceOf;
    assert (inputs + [input])[..|inputs|] == inputs;
  }

  lemma BagsMove(a: Bag, b: Bag, c: Bag)
    ensures AddBags(AddBags(a, b), c) == AddBags(AddBags(a, c), b)
  {
    assert a.sources + b.sources + c.sources == a.sources + c.sources + b.sources;
    assert a.fragments + b.fragments + c.fragments == a.fragments + c.fragments + b.fragments;
    assert a.leaves + b.leaves + c.leaves == a.leaves + c.leaves + b.leaves;
    assert a.issues + b.issues + c.issues == a.issues + c.issues + b.issues;
  }

  /** One source adds its part wherever it stands in the list. */
  lemma {:induction false} DraftAround(hash: Hash, before: seq<SourceInput>, x: SourceInput, after: seq<SourceInput>)
    ensures BagOf(DraftOf(hash, before + [x] + after)) == AddBags(BagOf(DraftOf(hash, before + after)), Part(hash, x))
    decreases |after|
  {
    hide DraftOf, BagOf, Part, AddBags;
    if after == [] {
      assert before + [x] + after == before + [x] && before + after == before;
      DraftLast(hash, before, x);
    } else {
      var n := |after| - 1;
      DraftAround(hash, before, x, after[..n]);
      DraftLast(hash, before + [x] + after[..n], after[n]);
      DraftLast(hash, before + after[..n], after[n]);
      assert before + [x] + after == before + [x] + after[..n] + [after[n]] &&
             before + after == before + after[..n] + [after[n]];
      BagsMove(BagOf(DraftOf(hash, before + after[..n])), Part(hash, x), Part(hash, after[n]));
    }
  }

  /** The draft holds the same entries whatever order the sources are listed in. */
  lemma {:induction false} DraftPermuted(hash: Hash, inputs: seq<SourceInput>, others: seq<SourceInput>)
    requires multiset(inputs) == multiset(others)
    ensures BagOf(DraftOf(hash, inputs)) == BagOf(DraftOf(hash, others))
    decreases |inputs|
  {
    hide DraftOf, BagOf, Part, AddBags;
    if inputs == [] {
      SameLength(inputs, others);
    } else {
      var k := TakenOut(inputs, others);
      DraftPermuted(hash, inputs[1..], others[..k] + others[k + 1..]);
      DraftAround(hash, [], inputs[0], inputs[1..]);
      DraftAround(hash, others[..k], inputs[0], others[k + 1..]);
      assert inputs == [] + [inputs[0]] + inputs[1..] && [] + inputs[1..] == inputs[1..];
    }
  }

  lemma SameBagSameEntries(a: Inventory, b: Inventory)
    requires BagOf(a) == BagOf(b)
    ensures SameEntries(a, b)
  {
    SameBagSameMembers(a, b);
    SameBagSameIds(a, b);
    hide IdsDistinct, CountKey, BagOf;
  }

  lemma SameBagSameIds(a: Inventory, b: Inventory)
    requires BagOf(a) == BagOf(b)
    ensures IdsDistinct(a) <==> IdsDistinct(b)
    ensures forall id :: CountKey(LeafFragmentKey(), a.leaves, id) == CountKey(LeafFragmentKey(), b.leaves, id)
    ensures forall id :: CountKey(IssueKey(), a.issues, id) == CountKey(IssueKey(), b.issues, id)
  {
    hide KeysOf, DistinctKeys, SourceKey, FragmentKey, LeafKey, JoinedKey, LeafFragmentKey, IssueKey;
    DistinctPermuted(SourceKey(), a.sources, b.sources);
    DistinctPermuted(FragmentKey(), a.fragments, b.fragments);
    DistinctPermuted(JoinedKey(), a.fragments, b.fragments);
    DistinctPermuted(LeafKey(), a.leaves, b.leaves);
    KeysPermuted(LeafFragmentKey(), a.leaves, b.leaves);
    KeysPermuted(IssueKey(), a.issues, b.issues);
  }

  lemma SameBagSameMembers(a: Inventory, b: Inventory)
    requires BagOf(a) == BagOf(b)
    ensures (forall s :: s in a.sources <==> s in b.sources) && (forall f :: f in a.fragments <==> f in b.fragments)
    ensures (forall l :: l in a.leaves <==> l in b.leaves) && (forall i :: i in a.issues <==> i in b.issues)
  {
    assert forall s :: s in a.sources <==> s in multiset(a.sources);
    assert forall s :: s in b.sources <==> s in multiset(b.sources);
    assert forall f :: f in a.fragments <==> f in multiset(a.fragments);
    assert forall f :: f in b.fragments <==> f in multiset(b.fragments);
    assert forall l :: l in a.leaves <==> l in multiset(a.leaves);
    assert forall l :: l in b.leaves <==> l in multiset(b.leaves);
    assert forall i :: i in a.issues <==> i in multiset(a.issues);
    assert forall i :: i in b.issues <==> i in multiset(b.issues);
  }

  /** The answer, refusals and the inventory and so its hash, does not depend on the order the sources are listed in. */
  lemma OrderIndependent(hash: Hash, inputs: seq<SourceInput>, others: seq<SourceInput>)
    requires multiset(inputs) == multiset(others)
    ensures Built(hash, inputs) == Built(hash, others)
  {
    var a, b := DraftOf(hash, inputs), DraftOf(hash, others);
    DistinctPermuted(InputKey(), inputs, others);
    DraftPermuted(hash, inputs, others);
    SameBagSameEntries(a, b);
    SameBagSameMembers(a, b);
    SameEntriesFlip(a, b);
    assert |multiset(inputs)| == |inputs| && |multiset(others)| == |others|;
    hide DraftOf, SameEntries, ValidInventory, Normalize, DistinctKeys;
    if ValidInventory(a) { SameEntriesSound(a, b); }
    if ValidInventory(b) { SameEntriesSound(b, a); }
    if ValidInventory(a) { ValidSameNormal(a, b); }
  }

  lemma ValidSameNormal(a: Inventory, b: Inventory)
    requires ValidInventory(a) && ValidInventory(b) && BagOf(a) == BagOf(b)
    ensures Normalize(a) == Normalize(b)
  {
    SameBagSameMembers(a, b);
    hide LeafSound, RootSound, FragmentSound, IssueSound, SortBy, ByKey, DistinctKeys, BagOf;
    ByKeySameSorted(SourceKey(), a.sources, b.sources);
    ByKeySameSorted(FragmentKey(), a.fragments, b.fragments);
    ByKeySameSorted(LeafKey(), a.leaves, b.leaves);
    IssuesSameSorted(a, b);
  }

  lemma IssuesSameSorted(a: Inventory, b: Inventory)
    requires ValidInventory(a) && ValidInventory(b) && forall i :: i in a.issues <==> i in b.issues
    ensures SortBy(IssueBefore, a.issues) == SortBy(IssueBefore, b.issues)
  {
    IssuesTotal(a);
    IssuesTotal(b);
    IssueWeakOrder();
    hide ValidInventory, IssueBefore, WeakOrder, SortedBy;
    SortBySorted(IssueBefore, a.issues);
    SortBySorted(IssueBefore, b.issues);
    SortByMembers(IssueBefore, a.issues);
    SortByMembers(IssueBefore, b.issues);
    SortNoRepeats(IssueBefore, a.issues);
    SortNoRepeats(IssueBefore, b.issues);
    SortedMembersUnique(IssueBefore, SortBy(IssueBefore, a.issues), SortBy(IssueBefore, b.issues));
  }

  lemma SortNoRepeats<T(!new)>(before: (T, T) -> bool, s: seq<T>)
    requires NoRepeats(s)
    ensures NoRepeats(SortBy(before, s))
  {
    var r := SortBy(before, s);
    SortByMultiset(before, s);
    forall i, j | 0 <= i < j < |r| ensures r[i] != r[j] {
      NoRepeatCount(s, r[i]);
      if r[i] == r[j] { CountTwice(r, i, j); }
    }
  }
}
