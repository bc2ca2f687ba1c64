/**
  lib/rosterpilot/combat-bridge-v3.ts:180-194, 733-752 and 851-976: the exact bridge, what its digest
  covers, and `verifyCombatBridgeV3Hash`.
 */
module BridgeV3Hash {
  import opened Wrappers
  import opened Ordering
  import opened CombatTypes
  import opened BridgeTypes
  import opened BridgeHash
  import CorpusAdmission
  import CorpusReport

  datatype RuleBinding = RuleBinding(cellId: string, attachmentPlanId: string, perspective: string, abilityId: string,
                                     corpusSourceId: string, entitySha256: Digest, effectSha256: Digest,
                                     ruleSourceSha256: Digest)

  datatype RelevantLeaf = RelevantLeaf(leafId: Digest, sourceId: string, disposition: string, accountingSha256: Digest)

  datatype CorpusBinding = CorpusBinding(reportSha256: Digest, sourceInventorySha256: Digest, overlaySha256: Digest,
                                         ruleBindings: seq<RuleBinding>, ruleBindingSha256: Digest,
                                         relevantLeaves: seq<RelevantLeaf>, relevantLeafIndexSha256: Digest)

  datatype Replay = Replay(scenarioContractV3Sha256: Option<Digest>, localInputV2Sha256s: Option<(Digest, Digest)>)

  datatype Exactness = Exactness(status: string, corpus: CorpusBinding, replay: Replay, legacyBridgeV2Sha256: Digest)

  datatype CompilerV3 = CompilerV3(version: string, effectVocabularyVersion: string, hashContractVersion: string,
                                   rulesCompiler: string, cellCompiler: Compiler, corpusReportSchemaVersion: int,
                                   semanticsOverlaySchemaVersion: int)

  datatype BridgeV3 = BridgeV3(schemaVersion: int, kind: string, compiler: CompilerV3, bundle: string, policy: Policy,
                               policySha256: Digest, cells: seq<Cell>, coverage: Coverage, coverageUnit: string,
                               diagnostics: seq<Diagnostic>, cellIndexSha256: Digest, exactness: Exactness,
                               bridgeSha256: Digest)

  const V3_SCHEMA := 3
  const V3_VERSION := "corpus-conformance-v3"
  const V3_HASH_CONTRACT := "merkle-corpus-v1"
  const DECISION_GRADE := "decision-grade"
  const REPORT_SCHEMA := 1
  const OVERLAY_SCHEMA := 1

  /** The objects the exact bridge hashes, besides those of the cell compiler. */
  datatype PreimageV3 =
    | EffectPre(effect: string)
    | SourcePre(source: string)
    | AccountPre(account: CorpusReport.LeafAccount)
    | BindingsPre(bindings: seq<RuleBinding>)
    | LeavesPre(leaves: seq<RelevantLeaf>)
    | BridgeV3Pre(contract: string, schemaVersion: int, kind: string, compiler: CompilerV3, bundle: string,
                  policySha256: Digest, cellCount: nat, cellIndexSha256: Digest, coverage: Coverage,
                  coverageUnit: string, diagnostics: seq<Diagnostic>, exactness: Exactness)

  /** One digest function on three families of objects. */
  datatype Digests = Digests(v2: Hash, v3: PreimageV3 -> Digest, corpus: CorpusAdmission.Seals)

  ghost predicate NoCollisionV3(d: Digests, objects: set<PreimageV3>) {
    forall x, y :: x in objects && y in objects && d.v3(x) == d.v3(y) ==> x == y
  }

  // ---- The order of rule bindings ----

  function Keys(b: RuleBinding): seq<string> {
    [b.cellId, b.attachmentPlanId, b.perspective, b.abilityId, b.corpusSourceId, b.entitySha256, b.effectSha256,
     b.ruleSourceSha256]
  }

  predicate ListLess(a: seq<string>, b: seq<string>) {
    if a == [] || b == [] then a == [] && b != []
    else StringLess(a[0], b[0]) || (a[0] == b[0] && ListLess(a[1..], b[1..]))
  }

  /** `compareRuleBindings(a, b) < 0`. */
  predicate BindingBefore(a: RuleBinding, b: RuleBinding) { ListLess(Keys(a), Keys(b)) }

  lemma {:induction false} ListLessTransitive(a: seq<string>, b: seq<string>, c: seq<string>)
    requires ListLess(a, b) && ListLess(b, c)
    ensures ListLess(a, c)
  {
    if a != [] && b != [] && c != [] {
      if StringLess(a[0], b[0]) && StringLess(b[0], c[0]) { StringLessTransitive(a[0], b[0], c[0]); }
      if a[0] == b[0] == c[0] && ListLess(a[1..], b[1..]) && ListLess(b[1..], c[1..]) {
        ListLessTransitive(a[1..], b[1..], c[1..]);
      }
    }
  }

  lemma {:induction false} ListLessIrreflexive(a: seq<string>)
    ensures !ListLess(a, a)
  {
    if a != [] {
      StringLessIrreflexive(a[0]);
      ListLessIrreflexive(a[1..]);
    }
  }

  lemma {:induction false} ListLessTotal(a: seq<string>, b: seq<string>)
    ensures ListLess(a, b) || a == b || ListLess(b, a)
  {
    if a != [] && b != [] {
      StringLessTotal(a[0], b[0]);
      ListLessTotal(a[1..], b[1..]);
      assert a == [a[0]] + a[1..] && b == [b[0]] + b[1..];
    }
  }

  lemma KeysInjective(a: RuleBinding, b: RuleBinding)
    requires Keys(a) == Keys(b)
    ensures a == b
  {
    var x, y := Keys(a), Keys(b);
    assert x[0] == y[0] && x[1] == y[1] && x[2] == y[2] && x[3] == y[3] && x[4] == y[4] && x[5] == y[5] &&
           x[6] == y[6] && x[7] == y[7];
  }

  lemma BindingBeforeOrder()
    ensures WeakOrder(BindingBefore)
    ensures forall a, b :: a != b ==> BindingBefore(a, b) || BindingBefore(b, a)
  {
    hide ListLess, Keys;
    forall x ensures !BindingBefore(x, x) { ListLessIrreflexive(Keys(x)); }
    forall x, y, z | BindingBefore(x, y) && BindingBefore(y, z) ensures BindingBefore(x, z) {
      ListLessTransitive(Keys(x), Keys(y), Keys(z));
    }
    forall a, b | a != b ensures BindingBefore(a, b) || BindingBefore(b, a) {
      ListLessTotal(Keys(a), Keys(b));
      if Keys(a) == Keys(b) { KeysInjective(a, b); }
    }
    forall x, y, z | BindingBefore(x, z) ensures BindingBefore(x, y) || BindingBefore(y, z) {
      if !BindingBefore(x, y) && x != y { ListLessTransitive(Keys(y), Keys(x), Keys(z)); }
    }
  }

  /** The first field that differs decides, the fields taken in this order. */
  lemma BindingBeforeIff(a: RuleBinding, b: RuleBinding)
    ensures BindingBefore(a, b) <==>
              if a.cellId != b.cellId then StringLess(a.cellId, b.cellId)
              else if a.attachmentPlanId != b.attachmentPlanId then StringLess(a.attachmentPlanId, b.attachmentPlanId)
              else if a.perspective != b.perspective then StringLess(a.perspective, b.perspective)
              else if a.abilityId != b.abilityId then StringLess(a.abilityId, b.abilityId)
              else if a.corpusSourceId != b.corpusSourceId then StringLess(a.corpusSourceId, b.corpusSourceId)
              else if a.entitySha256 != b.entitySha256 then StringLess(a.entitySha256, b.entitySha256)
              else if a.effectSha256 != b.effectSha256 then StringLess(a.effectSha256, b.effectSha256)
              else StringLess(a.ruleSourceSha256, b.ruleSourceSha256)
  {
    var x, y := Keys(a), Keys(b);
    KeysAre(a);
    KeysAre(b);
    hide Keys, StringLess;
    forall i | 0 <= i < 8
      ensures ListLess(x[i..], y[i..]) <==> if x[i] != y[i] then StringLess(x[i], y[i])
                                            else ListLess(x[i + 1..], y[i + 1..])
    {
      FirstDecides(x, y, i);
    }
    assert x[0..] == x && y[0..] == y && x[8..] == [] == y[8..];
    hide ListLess;
  }

  lemma KeysAre(b: RuleBinding)
    ensures |Keys(b)| == 8 && Keys(b)[0] == b.cellId && Keys(b)[1] == b.attachmentPlanId
    ensures Keys(b)[2] == b.perspective && Keys(b)[3] == b.abilityId && Keys(b)[4] == b.corpusSourceId
    ensures Keys(b)[5] == b.entitySha256 && Keys(b)[6] == b.effectSha256 && Keys(b)[7] == b.ruleSourceSha256
    ensures !ListLess([], [])
  {}

  lemma FirstDecides(x: seq<string>, y: seq<string>, i: nat)
    requires i < |x| == |y|
    ensures ListLess(x[i..], y[i..]) <==> if x[i] != y[i] then StringLess(x[i], y[i])
                                          else ListLess(x[i + 1..], y[i + 1..])
  {
    assert x[i..][1..] == x[i + 1..] && y[i..][1..] == y[i + 1..];
    StringLessIrreflexive(x[i]);
  }

  // ---- What verification accepts ----

  predicate HexDigit(c: char) { 'a' <= c <= 'f' || '0' <= c <= '9' }

  predicate IsDigest(d: Digest) { |d| == 64 && forall i :: 0 <= i < |d| ==> HexDigit(d[i]) }

  /** 64 digits of a hexadecimal number, in lower case. */
  lemma IsDigestIff(d: Digest)
    ensures IsDigest(d) <==> |d| == 64 && forall c :: c in d ==> c in "0123456789abcdef"
  {
    forall c: char ensures HexDigit(c) <==> c in "0123456789abcdef" { HexDigitIff(c); }
  }

  lemma HexDigitIff(c: char)
    ensures HexDigit(c) <==> c in "0123456789abcdef"
  {
    var digits := "0123456789abcdef";
    if '0' <= c <= '9' { assert digits[c as int - '0' as int] == c; }
    if 'a' <= c <= 'f' { assert digits[10 + (c as int - 'a' as int)] == c; }
  }

  predicate ExactCoverage(c: Coverage) {
    c.status == Complete && c.claimEligibility == DecisionGrade && c.approximatedEffects == 0 && c.omittedEffects == 0
  }

  predicate BindingSound(b: RuleBinding) {
    && IsDigest(b.entitySha256) && IsDigest(b.effectSha256) && IsDigest(b.ruleSourceSha256)
    && b.cellId != "" && b.attachmentPlanId != "" && b.abilityId != "" && b.corpusSourceId != ""
  }

  predicate LeafSound(l: RelevantLeaf) { IsDigest(l.leafId) && IsDigest(l.accountingSha256) && l.sourceId != "" }

  ghost predicate BindingsSound(bindings: seq<RuleBinding>) {
    && (forall b :: b in bindings ==> BindingSound(b))
    && forall i, j :: 0 <= i && j == i + 1 && j < |bindings| ==> BindingBefore(bindings[i], bindings[j])
  }

  ghost predicate LeavesSound(leaves: seq<RelevantLeaf>) {
    && (forall l :: l in leaves ==> LeafSound(l))
    && forall i, j :: 0 <= i && j == i + 1 && j < |leaves| ==> StringLess(leaves[i].leafId, leaves[j].leafId)
  }

  predicate ReplaySound(r: Replay) {
    && (r.scenarioContractV3Sha256.Some? && r.scenarioContractV3Sha256.value != "" ==>
        IsDigest(r.scenarioContractV3Sha256.value))
    && (r.localInputV2Sha256s.Some? ==>
        IsDigest(r.localInputV2Sha256s.value.0) && IsDigest(r.localInputV2Sha256s.value.1))
  }

  predicate FixedFields(b: BridgeV3) {
    && b.schemaVersion == V3_SCHEMA && b.kind == BRIDGE_KIND && b.coverageUnit == COVERAGE_UNIT
    && b.compiler.version == V3_VERSION && b.compiler.effectVocabularyVersion == THIS_COMPILER.effectVocabularyVersion
    && b.compiler.hashContractVersion == V3_HASH_CONTRACT && b.compiler.rulesCompiler == THIS_COMPILER.rulesCompiler
    && b.compiler.cellCompiler.version == THIS_COMPILER.version && b.compiler.corpusReportSchemaVersion == REPORT_SCHEMA
    && b.compiler.semanticsOverlaySchemaVersion == OVERLAY_SCHEMA && b.exactness.status == DECISION_GRADE
    && ExactCoverage(b.coverage)
  }

  /** The v2 bridge inside an exact bridge. */
  function Legacy(b: BridgeV3): Bridge {
    Bridge(BRIDGE_SCHEMA, b.kind, b.compiler.cellCompiler, b.bundle, b.policy, b.policySha256, b.cells, b.coverage,
           b.coverageUnit, b.diagnostics, b.cellIndexSha256, b.exactness.legacyBridgeV2Sha256)
  }

  function BridgeV3Object(b: BridgeV3): PreimageV3 {
    BridgeV3Pre(V3_HASH_CONTRACT, b.schemaVersion, b.kind, b.compiler, b.bundle, b.policySha256, |b.cells|,
                b.cellIndexSha256, b.coverage, b.coverageUnit, b.diagnostics, b.exactness)
  }

  function BridgeV3Sha(d: Digests, b: BridgeV3): Digest { d.v3(BridgeV3Object(b)) }

  ghost predicate BoundV3(d: Digests, b: BridgeV3) {
    var corpus := b.exactness.corpus;
    && FixedFields(b)
    && b.policySha256 == d.v2(PolicyPre(b.policy))
    && corpus.ruleBindingSha256 == d.v3(BindingsPre(corpus.ruleBindings))
    && corpus.relevantLeafIndexSha256 == d.v3(LeavesPre(corpus.relevantLeaves))
    && IsDigest(b.bridgeSha256) && IsDigest(b.policySha256) && IsDigest(b.cellIndexSha256)
    && IsDigest(b.exactness.legacyBridgeV2Sha256)
    && IsDigest(corpus.reportSha256) && IsDigest(corpus.sourceInventorySha256) && IsDigest(corpus.overlaySha256)
    && IsDigest(corpus.ruleBindingSha256) && IsDigest(corpus.relevantLeafIndexSha256)
    && BindingsSound(corpus.ruleBindings) && LeavesSound(corpus.relevantLeaves) && ReplaySound(b.exactness.replay)
    && BridgeBound(d.v2, Legacy(b))
    && b.bridgeSha256 == BridgeV3Sha(d, b)
  }

  method CheckBindings(bindings: seq<RuleBinding>) returns (ok: bool)
    ensures ok <==> BindingsSound(bindings)
  {
    for i := 0 to |bindings|
      invariant forall j :: 0 <= j < i ==> BindingSound(bindings[j])
      invariant forall j, k :: 0 <= j && k == j + 1 && k < i ==> BindingBefore(bindings[j], bindings[k])
    {
      var b := bindings[i];
      if !IsDigest(b.entitySha256) || !IsDigest(b.effectSha256) || !IsDigest(b.ruleSourceSha256) ||
         b.cellId == "" || b.attachmentPlanId == "" || b.abilityId == "" || b.corpusSourceId == "" {
        assert bindings[i] in bindings;
        return false;
      }
      if i > 0 && !BindingBefore(bindings[i - 1], bindings[i]) { return false; }
    }
    return true;
  }

  method CheckLeaves(leaves: seq<RelevantLeaf>) returns (ok: bool)
    ensures ok <==> LeavesSound(leaves)
  {
    for i := 0 to |leaves|
      invariant forall j :: 0 <= j < i ==> LeafSound(leaves[j])
      invariant forall j, k :: 0 <= j && k == j + 1 && k < i ==> StringLess(leaves[j].leafId, leaves[k].leafId)
    {
      var l := leaves[i];
      if !IsDigest(l.leafId) || !IsDigest(l.accountingSha256) || l.sourceId == "" {
        assert leaves[i] in leaves;
        return false;
      }
      if i > 0 && !StringLess(leaves[i - 1].leafId, leaves[i].leafId) { return false; }
    }
    return true;
  }

  /** The fields an exact bridge must have just so. */
  method CheckFixed(bridge: BridgeV3) returns (ok: bool)
    ensures ok <==> FixedFields(bridge)
  {
    var compiler, coverage := bridge.compiler, bridge.coverage;
    return bridge.schemaVersion == V3_SCHEMA && bridge.kind == BRIDGE_KIND && bridge.coverageUnit == COVERAGE_UNIT &&
           compiler.version == V3_VERSION && compiler.hashContractVersion == V3_HASH_CONTRACT &&
           compiler.effectVocabularyVersion == THIS_COMPILER.effectVocabularyVersion &&
           compiler.rulesCompiler == THIS_COMPILER.rulesCompiler &&
           compiler.cellCompiler.version == THIS_COMPILER.version &&
           compiler.corpusReportSchemaVersion == REPORT_SCHEMA &&
           compiler.semanticsOverlaySchemaVersion == OVERLAY_SCHEMA && bridge.exactness.status == DECISION_GRADE &&
           coverage.status == Complete && coverage.claimEligibility == DecisionGrade &&
           coverage.approximatedEffects == 0 && coverage.omittedEffects == 0;
  }

  method CheckReplay(replay: Replay) returns (ok: bool)
    ensures ok <==> ReplaySound(replay)
  {
    hide IsDigest;
    var contract, inputs := replay.scenarioContractV3Sha256, replay.localInputV2Sha256s;
    if contract.Some? && contract.value != "" && !IsDigest(contract.value) { return false; }
    return inputs.None? || (IsDigest(inputs.value.0) && IsDigest(inputs.value.1));
  }

  /** `verifyCombatBridgeV3Hash`. */
  method VerifyCombatBridgeV3Hash(d: Digests, bridge: BridgeV3) returns (ok: bool)
    ensures ok <==> BoundV3(d, bridge)
  {
    hide BindingsSound, LeavesSound, ReplaySound, BridgeBound, IsDigest, FixedFields;
    var corpus := bridge.exactness.corpus;
    var fixed := CheckFixed(bridge);
    if !fixed || d.v2(PolicyPre(bridge.policy)) != bridge.policySha256
       || corpus.ruleBindingSha256 != d.v3(BindingsPre(corpus.ruleBindings))
       || corpus.relevantLeafIndexSha256 != d.v3(LeavesPre(corpus.relevantLeaves)) {
      return false;
    }
    if !IsDigest(bridge.bridgeSha256) || !IsDigest(bridge.policySha256) || !IsDigest(bridge.cellIndexSha256)
       || !IsDigest(bridge.exactness.legacyBridgeV2Sha256) || !IsDigest(corpus.reportSha256)
       || !IsDigest(corpus.sourceInventorySha256)
       || !IsDigest(corpus.overlaySha256) || !IsDigest(corpus.ruleBindingSha256)
       || !IsDigest(corpus.relevantLeafIndexSha256) {
      return false;
    }
    var bindingsOk := CheckBindings(corpus.ruleBindings);
    var leavesOk := CheckLeaves(corpus.relevantLeaves);
    var replayOk := CheckReplay(bridge.exactness.replay);
    if !bindingsOk || !leavesOk || !replayOk { return false; }
    var legacyOk := VerifyCombatBridgeV2Hash(d.v2, Legacy(bridge));
    if !legacyOk { return false; }
    return bridge.bridgeSha256 == BridgeV3Sha(d, bridge);
  }

  // ---- What the digest determines ----

  /**
    Two exact bridges that verify under one digest are the same bridge: the policy and the cells, which
    the digest does not cover itself, come back through the v2 bridge it names. Only a collision between
    two objects hashed for these bridges could make it otherwise.
   */
  lemma BridgeV3Determined(d: Digests, a: BridgeV3, b: BridgeV3)
    requires NoCollisionV3(d, {BridgeV3Object(a), BridgeV3Object(b)})
    requires NoCollision(d.v2, BridgeObjects(Legacy(a)) + BridgeObjects(Legacy(b)))
    requires BoundV3(d, a) && BoundV3(d, b) && a.bridgeSha256 == b.bridgeSha256
    ensures a == b
  {
    hide BindingsSound, LeavesSound, ReplaySound, BridgeBound, IsDigest, FixedFields, NoCollision, BridgeObjects;
    assert a.exactness == b.exactness;
    BridgeDetermined(d.v2, Legacy(a), Legacy(b));
    assert Legacy(a).cells == Legacy(b).cells && Legacy(a).policy == Legacy(b).policy;
  }
}
