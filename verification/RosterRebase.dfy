/**
  lib/rosterpilot/draft.ts:708-885 and 1124-1296: stamping a roster with the hashes of the rules it
  uses, and deciding whether it can be moved to another data bundle as it is.
 */
module RosterRebase {
  import opened Wrappers
  import opened Ordering
  import JsonPointer

  type Hash = string

  datatype Equipment = Equipment(itemId: string, count: nat)

  datatype Unit = Unit(unitId: string, modelCount: nat, points: nat, isWarlord: bool, enhancementId: Option<string>,
                       equipment: seq<Equipment>)

  datatype IdentityStatus = Verified | LegacyDerived

  /** `provenance` stands for package, version, edition, dataslate, release and catalogue data. */
  datatype SourceData = SourceData(provenance: string, bundleId: string, engineDataSchemaVersion: nat,
                                   rosterRulesHash: Hash, factionRulesHash: Hash, mappingHash: Hash,
                                   entityHashes: map<string, Hash>, identityStatus: IdentityStatus,
                                   migratedFrom: Option<nat>)

  /** `rest` stands for the fields of a roster that rebasing does not look at. */
  datatype Roster = Roster(factionId: string, detachmentId: string, forceDispositionId: string, battleSize: string,
                           units: seq<Unit>, rest: string, sourceData: SourceData)

  datatype Faction = Faction(factionRulesHash: Hash, mappingHash: Hash, entityHashes: map<string, Hash>)

  datatype Snapshot = Snapshot(bundleId: string, engineDataSchemaVersion: nat, provenance: string,
                               factions: map<string, Faction>)

  /** The dataset's legend units, and `semanticHash`. */
  datatype World = World(isLegend: string -> bool, semanticHash: Preimage -> Hash)

  // ---- Hashed values ----

  datatype RuleSelection = RuleSelection(unitId: string, modelCount: nat, points: nat, enhancementId: Option<string>,
                                         equipment: multiset<Equipment>)

  datatype MappingSelection = MappingSelection(unitId: string, modelCount: nat, enhancementId: Option<string>,
                                               equipment: multiset<Equipment>)

  /** Sorted lists are multisets here, and sorted entries of a record are a map. */
  datatype Preimage =
    | RulesPre(factionId: string, detachmentId: string, forceDispositionId: string, selections: multiset<RuleSelection>,
               entities: map<string, Hash>)
    | MappingPre(mappingSelections: multiset<MappingSelection>, mappingEntities: map<string, Hash>)

  /** No two of the listed objects share a hash. */
  ghost predicate NoCollision(w: World, objects: set<Preimage>) {
    forall x, y :: x in objects && y in objects && w.semanticHash(x) == w.semanticHash(y) ==> x == y
  }

  // ---- What a roster selects ----

  function Carried(equipment: seq<Equipment>): seq<Equipment> {
    if equipment == [] then [] else (if equipment[0].count > 0 then [equipment[0]] else []) + Carried(equipment[1..])
  }

  function EquipmentKeys(unitId: string, equipment: seq<Equipment>): seq<string> {
    if equipment == [] then []
    else ["equipment:" + unitId + ":" + equipment[0].itemId,
          "mapping:unit:" + unitId + ":equipment:" + equipment[0].itemId]
         + EquipmentKeys(unitId, equipment[1..])
  }

  function UnitKeys(u: Unit): seq<string> {
    ["unit:" + u.unitId, "mapping:unit:" + u.unitId + ":base", "mapping:unit:" + u.unitId + ":models",
     "mapping:unit:" + u.unitId + ":points:" + JsonPointer.Decimal(u.modelCount)]
    + (if u.isWarlord then ["mapping:unit:" + u.unitId + ":warlord"] else [])
    + (if u.enhancementId.Some? && u.enhancementId.value != "" then
         ["enhancement:" + u.enhancementId.value, "mapping:unit:" + u.unitId + ":enhancement:" + u.enhancementId.value]
       else [])
    + EquipmentKeys(u.unitId, Carried(u.equipment))
  }

  function AllUnitKeys(units: seq<Unit>): seq<string> {
    if units == [] then [] else UnitKeys(units[0]) + AllUnitKeys(units[1..])
  }

  predicate SelectsLegend(w: World, r: Roster) { exists i :: 0 <= i < |r.units| && w.isLegend(r.units[i].unitId) }

  /** `selectedEntityKeys`. */
  function SelectedKeys(w: World, r: Roster): seq<string> {
    Dedup(["faction:" + r.factionId, "detachment:" + r.detachmentId, "force-disposition:" + r.forceDispositionId,
           "mapping:configuration:base", "mapping:configuration:battle-size:" + r.battleSize,
           "mapping:configuration:detachment:" + r.detachmentId, "mapping:configuration:force-disposition:" +
           r.forceDispositionId]
          + (if SelectsLegend(w, r) then ["mapping:configuration:legends-visibility"] else [])
          + AllUnitKeys(r.units))
  }

  /** The hash a faction gives a key; an empty one counts as none. */
  function HashOf(hashes: map<string, Hash>, key: string): Option<Hash> {
    if key in hashes && hashes[key] != "" then Some(hashes[key]) else None
  }

  function EntityHashes(w: World, r: Roster, f: Faction): map<string, Hash> {
    map k | k in SelectedKeys(w, r) && HashOf(f.entityHashes, k).Some? :: f.entityHashes[k]
  }

  predicate IsMapping(key: string) { |key| >= 8 && key[..8] == "mapping:" }

  function RuleEntities(hashes: map<string, Hash>): map<string, Hash> {
    map k | k in hashes && !IsMapping(k) :: hashes[k]
  }

  function MappingEntities(hashes: map<string, Hash>): map<string, Hash> {
    map k | k in hashes && IsMapping(k) :: hashes[k]
  }

  function RuleSelections(units: seq<Unit>): multiset<RuleSelection> {
    if units == [] then multiset{}
    else multiset{RuleSelection(units[0].unitId, units[0].modelCount, units[0].points, units[0].enhancementId,
                                multiset(Carried(units[0].equipment)))}
         + RuleSelections(units[1..])
  }

  function MappingSelections(units: seq<Unit>): multiset<MappingSelection> {
    if units == [] then multiset{}
    else multiset{MappingSelection(units[0].unitId, units[0].modelCount, units[0].enhancementId,
                                   multiset(Carried(units[0].equipment)))}
         + MappingSelections(units[1..])
  }

  // ---- What is selected, read off the roster's fields ----

  ghost predicate ItemSelects(unitId: string, e: Equipment, key: string) {
    key == "equipment:" + unitId + ":" + e.itemId || key == "mapping:unit:" + unitId + ":equipment:" + e.itemId
  }

  ghost predicate EnhancementSelects(u: Unit, key: string) {
    u.enhancementId.Some? && u.enhancementId.value != "" &&
    (key == "enhancement:" + u.enhancementId.value ||
     key == "mapping:unit:" + u.unitId + ":enhancement:" + u.enhancementId.value)
  }

  ghost predicate UnitSelects(u: Unit, key: string) {
    || key == "unit:" + u.unitId
    || key == "mapping:unit:" + u.unitId + ":base"
    || key == "mapping:unit:" + u.unitId + ":models"
    || key == "mapping:unit:" + u.unitId + ":points:" + JsonPointer.Decimal(u.modelCount)
    || (u.isWarlord && key == "mapping:unit:" + u.unitId + ":warlord")
    || EnhancementSelects(u, key)
    || exists e :: e in u.equipment && e.count > 0 && ItemSelects(u.unitId, e, key)
  }

  ghost predicate ConfigurationSelects(w: World, r: Roster, key: string) {
    || key == "faction:" + r.factionId
    || key == "detachment:" + r.detachmentId
    || key == "force-disposition:" + r.forceDispositionId
    || key == "mapping:configuration:base"
    || key == "mapping:configuration:battle-size:" + r.battleSize
    || key == "mapping:configuration:detachment:" + r.detachmentId
    || key == "mapping:configuration:force-disposition:" + r.forceDispositionId
    || (key == "mapping:configuration:legends-visibility" && exists u :: u in r.units && w.isLegend(u.unitId))
  }

  ghost predicate Selects(w: World, r: Roster, key: string) {
    ConfigurationSelects(w, r, key) || exists u :: u in r.units && UnitSelects(u, key)
  }

  lemma {:induction false} CarriedIff(equipment: seq<Equipment>, e: Equipment)
    ensures e in Carried(equipment) <==> e in equipment && e.count > 0
    ensures multiset(Carried(equipment))[e] == if e.count > 0 then multiset(equipment)[e] else 0
  {
    if equipment != [] {
      assert equipment == [equipment[0]] + equipment[1..];
      CarriedIff(equipment[1..], e);
    }
  }

  lemma {:induction false} EquipmentKeysIff(unitId: string, equipment: seq<Equipment>, key: string)
    ensures key in EquipmentKeys(unitId, equipment) <==> exists e :: e in equipment && ItemSelects(unitId, e, key)
  {
    if equipment != [] {
      hide ItemSelects;
      var first, rest := equipment[0], equipment[1..];
      assert forall e :: e in equipment <==> e == first || e in rest;
      EquipmentKeysIff(unitId, rest, key);
      ItemKeys(unitId, first, rest, key);
    }
  }

  lemma ItemKeys(unitId: string, first: Equipment, rest: seq<Equipment>, key: string)
    ensures key in EquipmentKeys(unitId, [first] + rest) <==>
            ItemSelects(unitId, first, key) || key in EquipmentKeys(unitId, rest)
    ensures ([first] + rest)[1..] == rest
  {
    assert ([first] + rest)[1..] == rest;
  }

  lemma UnitKeysIff(u: Unit, key: string)
    ensures key in UnitKeys(u) <==> UnitSelects(u, key)
  {
    hide EquipmentKeys, Carried, ItemSelects;
    EquipmentKeysIff(u.unitId, Carried(u.equipment), key);
    forall e: Equipment ensures e in Carried(u.equipment) <==> e in u.equipment && e.count > 0 {
      CarriedIff(u.equipment, e);
    }
  }

  lemma {:induction false} AllUnitKeysIff(units: seq<Unit>, key: string)
    ensures key in AllUnitKeys(units) <==> exists u :: u in units && UnitSelects(u, key)
  {
    hide UnitKeys, UnitSelects;
    if units != [] {
      assert units == [units[0]] + units[1..];
      UnitKeysIff(units[0], key);
      AllUnitKeysIff(units[1..], key);
    }
  }

  /** The keys of a roster are exactly those its fields select. */
  lemma SelectedIff(w: World, r: Roster, key: string)
    ensures key in SelectedKeys(w, r) <==> Selects(w, r, key)
  {
    hide UnitSelects, AllUnitKeys;
    AllUnitKeysIff(r.units, key);
    assert SelectsLegend(w, r) <==> exists u :: u in r.units && w.isLegend(u.unitId);
  }

  /** The hash a roster is stamped with under one faction's rules, if any. */
  ghost function Stamped(w: World, r: Roster, f: Faction, key: string): Option<Hash> {
    if Selects(w, r, key) && key in f.entityHashes && f.entityHashes[key] != "" then Some(f.entityHashes[key])
    else None
  }

  lemma EntityHashesRead(w: World, r: Roster, f: Faction)
    ensures forall k :: At(EntityHashes(w, r, f), k) == Stamped(w, r, f, k)
  {
    forall k ensures At(EntityHashes(w, r, f), k) == Stamped(w, r, f, k) {
      SelectedIff(w, r, k);
      hide SelectedKeys, Selects;
    }
  }

  // ---- What is hashed of the units ----

  /** Equipment that is carried at all, as often as it is listed. */
  ghost predicate CarriesExactly(kept: multiset<Equipment>, equipment: seq<Equipment>) {
    forall e :: kept[e] == if e.count > 0 then multiset(equipment)[e] else 0
  }

  ghost predicate RuleSelectionIs(s: RuleSelection, u: Unit) {
    s.unitId == u.unitId && s.modelCount == u.modelCount && s.points == u.points &&
    s.enhancementId == u.enhancementId && CarriesExactly(s.equipment, u.equipment)
  }

  ghost predicate MappingSelectionIs(s: MappingSelection, u: Unit) {
    s.unitId == u.unitId && s.modelCount == u.modelCount && s.enhancementId == u.enhancementId &&
    CarriesExactly(s.equipment, u.equipment)
  }

  /** The selections hashed are one of each unit, in any order. */
  lemma {:induction false} SelectionsRead(units: seq<Unit>)
    returns (rules: seq<RuleSelection>, mappings: seq<MappingSelection>)
    ensures RuleSelections(units) == multiset(rules) && |rules| == |units|
    ensures MappingSelections(units) == multiset(mappings) && |mappings| == |units|
    ensures forall i :: 0 <= i < |units| ==> RuleSelectionIs(rules[i], units[i])
    ensures forall i :: 0 <= i < |units| ==> MappingSelectionIs(mappings[i], units[i])
  {
    rules, mappings := [], [];
    if units != [] {
      hide RuleSelectionIs, MappingSelectionIs;
      var rule, mapping := FirstRead(units);
      var laterRules, laterMappings := SelectionsRead(units[1..]);
      rules, mappings := [rule] + laterRules, [mapping] + laterMappings;
      hide RuleSelections, MappingSelections;
      forall i | 0 <= i < |units|
        ensures RuleSelectionIs(rules[i], units[i]) && MappingSelectionIs(mappings[i], units[i])
      {
        if i > 0 { assert units[i] == units[1..][i - 1]; }
      }
    }
  }

  lemma FirstRead(units: seq<Unit>) returns (rule: RuleSelection, mapping: MappingSelection)
    requires units != []
    ensures RuleSelections(units) == multiset{rule} + RuleSelections(units[1..]) && RuleSelectionIs(rule, units[0])
    ensures MappingSelections(units) == multiset{mapping} + MappingSelections(units[1..])
    ensures MappingSelectionIs(mapping, units[0])
  {
    var u := units[0];
    var kept := multiset(Carried(u.equipment));
    KeptIs(u.equipment);
    hide CarriesExactly;
    rule := RuleSelection(u.unitId, u.modelCount, u.points, u.enhancementId, kept);
    mapping := MappingSelection(u.unitId, u.modelCount, u.enhancementId, kept);
  }

  lemma KeptIs(equipment: seq<Equipment>)
    ensures CarriesExactly(multiset(Carried(equipment)), equipment)
  {
    forall e ensures multiset(Carried(equipment))[e] == if e.count > 0 then multiset(equipment)[e] else 0 {
      CarriedIff(equipment, e);
    }
  }

  // ---- Identity and stamping ----

  function RulesObject(r: Roster, hashes: map<string, Hash>): Preimage {
    RulesPre(r.factionId, r.detachmentId, r.forceDispositionId, RuleSelections(r.units), RuleEntities(hashes))
  }

  function MappingObject(r: Roster, hashes: map<string, Hash>): Preimage {
    MappingPre(MappingSelections(r.units), MappingEntities(hashes))
  }

  /** The objects hashed for two rosters, each under the rules of one faction. */
  function HashedFor(w: World, r: Roster, f: Faction, x: Roster, g: Faction): set<Preimage> {
    var h, j := EntityHashes(w, r, f), EntityHashes(w, x, g);
    {RulesObject(r, h), RulesObject(x, j), MappingObject(r, h), MappingObject(x, j)}
  }

  datatype RebaseError = NoFactionIdentity | IntegrityMismatch

  /** `identityForRoster` under the snapshot's provenance. */
  function TargetSourceData(w: World, r: Roster, s: Snapshot): Option<SourceData> {
    if r.factionId !in s.factions then None
    else
      var f := s.factions[r.factionId];
      var hashes := EntityHashes(w, r, f);
      Some(SourceData(s.provenance, s.bundleId, s.engineDataSchemaVersion,
             w.semanticHash(RulesObject(r, hashes)), f.factionRulesHash, w.semanticHash(MappingObject(r, hashes)),
             hashes, Verified, None))
  }

  /** `stampRosterDataIdentity`. */
  function Stamp(w: World, r: Roster, s: Snapshot): Option<Roster> {
    var target := TargetSourceData(w, r, s);
    if target.None? then None else Some(r.(sourceData := target.value.(migratedFrom := r.sourceData.migratedFrom)))
  }

  // ---- Rebasing ----

  datatype Change = Added | Removed | Changed | Unverifiable

  datatype Scope = Scope(key: string, change: Change, previousHash: Option<Hash>, currentHash: Option<Hash>)

  datatype Status = Current | CompatibleRebased | ReviewRequired

  datatype Rebased = Rebased(status: Status, roster: Roster, candidateRoster: Roster, fromBundleId: string,
                             toBundleId: string, provenanceChanged: bool, changedScopes: seq<Scope>)

  function At(hashes: map<string, Hash>, key: string): Option<Hash> {
    if key in hashes then Some(hashes[key]) else None
  }

  function ChangedScope(key: string, previous: Option<Hash>, current: Option<Hash>, unverifiable: bool): Scope {
    Scope(key, if unverifiable then Unverifiable else if previous.None? then Added else if current.None? then Removed
                                                                                        else Changed, previous, current)
  }

  function ScopesOf(keys: seq<string>, before: map<string, Hash>, after: map<string, Hash>,
                    unverifiable: bool): seq<Scope> {
    if keys == [] then []
    else (if unverifiable || At(before, keys[0]) != At(after, keys[0]) then
            [ChangedScope(keys[0], At(before, keys[0]), At(after, keys[0]), unverifiable)]
          else []) + ScopesOf(keys[1..], before, after, unverifiable)
  }

  predicate KnownLegacy(source: SourceData, target: SourceData) {
    source.identityStatus == LegacyDerived && source.migratedFrom == Some(2) && source.provenance == target.provenance
  }

  predicate IsUnverifiable(source: SourceData, target: SourceData) {
    source.identityStatus == LegacyDerived && !KnownLegacy(source, target)
  }

  predicate SameSemantics(source: SourceData, target: SourceData) {
    source.rosterRulesHash == target.rosterRulesHash && source.mappingHash == target.mappingHash
    && source.engineDataSchemaVersion == target.engineDataSchemaVersion
  }

  /** `rebaseRosterData` for a roster that parsed. */
  ghost function Rebase(w: World, roster: Roster, s: Snapshot): Result<Rebased, RebaseError> {
    var wanted := TargetSourceData(w, roster, s);
    if wanted.None? then Err(NoFactionIdentity)
    else
      var source, target := roster.sourceData, wanted.value;
      var provenanceChanged := source.provenance != target.provenance;
      var candidate := roster.(sourceData := target);
      if source.identityStatus == Verified && source.bundleId == target.bundleId then
        if source != target then Err(IntegrityMismatch)
        else Ok(Rebased(Current, roster, roster, source.bundleId, target.bundleId, false, []))
      else
        var unverifiable := IsUnverifiable(source, target);
        var scopes := ScopesOf(SortedKeys(source.entityHashes.Keys + target.entityHashes.Keys), source.entityHashes,
                               target.entityHashes, unverifiable);
        if !unverifiable && (KnownLegacy(source, target) || SameSemantics(source, target)) then
          Ok(Rebased(CompatibleRebased, candidate, candidate, source.bundleId, target.bundleId, provenanceChanged, []))
        else Ok(Rebased(ReviewRequired, roster, candidate, source.bundleId, target.bundleId, provenanceChanged, scopes))
  }

  // ---- What rebasing leaves alone ----

  /** Every selection survives: only the source data of a roster is ever replaced. */
  lemma OnlySourceData(w: World, roster: Roster, s: Snapshot)
    requires Rebase(w, roster, s).Ok?
    ensures var r := Rebase(w, roster, s).value;
            && r.roster == roster.(sourceData := r.roster.sourceData)
            && r.candidateRoster == roster.(sourceData := r.candidateRoster.sourceData)
            && (r.status != CompatibleRebased ==> r.roster == roster)
            && Some(r.candidateRoster.sourceData) == TargetSourceData(w, roster, s)
  {}

  /** The identity a roster gets does not depend on the source data it carries. */
  lemma TargetIgnoresSource(w: World, roster: Roster, source: SourceData, s: Snapshot)
    ensures TargetSourceData(w, roster.(sourceData := source), s) == TargetSourceData(w, roster, s)
  {
    assert SelectedKeys(w, roster.(sourceData := source)) == SelectedKeys(w, roster);
    hide SelectedKeys;
    if roster.factionId in s.factions {
      assert EntityHashes(w, roster.(sourceData := source), s.factions[roster.factionId]) ==
             EntityHashes(w, roster, s.factions[roster.factionId]);
    }
  }

  /** Rebasing the candidate again, against the same snapshot, finds it current. */
  lemma CandidateIsCurrent(w: World, roster: Roster, s: Snapshot)
    requires Rebase(w, roster, s).Ok?
    ensures var again := Rebase(w, Rebase(w, roster, s).value.candidateRoster, s);
            && again.Ok? && again.value.status == Current && again.value.changedScopes == []
            && again.value.candidateRoster == Rebase(w, roster, s).value.candidateRoster
  {
    hide EntityHashes, RuleSelections, MappingSelections, RuleEntities, MappingEntities, ScopesOf;
    TargetIgnoresSource(w, roster, Rebase(w, roster, s).value.candidateRoster.sourceData, s);
  }

  // ---- What a roster is given ----

  /** The source data of a roster under a snapshot, field by field. */
  lemma TargetRead(w: World, r: Roster, s: Snapshot)
    ensures TargetSourceData(w, r, s).Some? <==> r.factionId in s.factions
    ensures r.factionId in s.factions ==>
              var f, d := s.factions[r.factionId], TargetSourceData(w, r, s).value;
              && d.provenance == s.provenance && d.bundleId == s.bundleId
              && d.engineDataSchemaVersion == s.engineDataSchemaVersion
              && d.factionRulesHash == f.factionRulesHash && d.identityStatus == Verified && d.migratedFrom == None
              && (forall k :: At(d.entityHashes, k) == Stamped(w, r, f, k))
              && d.rosterRulesHash ==
                 w.semanticHash(RulesPre(r.factionId, r.detachmentId, r.forceDispositionId, RuleSelections(r.units),
                                         map k | k in d.entityHashes && !("mapping:" <= k) :: d.entityHashes[k]))
              && d.mappingHash ==
                 w.semanticHash(MappingPre(MappingSelections(r.units),
                                           map k | k in d.entityHashes && "mapping:" <= k :: d.entityHashes[k]))
  {
    hide RuleSelections, MappingSelections;
    if r.factionId in s.factions {
      var f := s.factions[r.factionId];
      EntityHashesRead(w, r, f);
      hide EntityHashes, Stamped;
      var hashes := EntityHashes(w, r, f);
      forall k: string ensures IsMapping(k) <==> "mapping:" <= k {}
      assert RuleEntities(hashes) == map k | k in hashes && !("mapping:" <= k) :: hashes[k];
      assert MappingEntities(hashes) == map k | k in hashes && "mapping:" <= k :: hashes[k];
    }
  }

  /** When a rebase is refused, when it has nothing to do, and what it reports besides the roster. */
  lemma RebaseRead(w: World, roster: Roster, s: Snapshot)
    ensures Rebase(w, roster, s) == Err(NoFactionIdentity) <==> roster.factionId !in s.factions
    ensures roster.factionId in s.factions ==>
              var d, own := TargetSourceData(w, roster, s).value, roster.sourceData;
              var stays := own.identityStatus == Verified && own.bundleId == s.bundleId;
              && (Rebase(w, roster, s) == Err(IntegrityMismatch) <==> stays && own != d)
              && (Rebase(w, roster, s).Ok? ==>
                    var r := Rebase(w, roster, s).value;
                    && (r.status == Current <==> stays)
                    && r.fromBundleId == own.bundleId && r.toBundleId == s.bundleId
                    && (r.provenanceChanged <==> own.provenance != s.provenance)
                    && (r.status != ReviewRequired ==> r.changedScopes == []))
  {
    hide EntityHashes, RuleSelections, MappingSelections, RuleEntities, MappingEntities, ScopesOf;
  }

  // ---- Stamped rosters ----

  /** Whatever a roster selects has the same hash, or none, in both factions. */
  ghost predicate SameEntities(w: World, r: Roster, f: Faction, x: Roster, g: Faction) {
    forall k :: Stamped(w, r, f, k) == Stamped(w, x, g, k)
  }

  /** Two rosters say the same to the rules and to the export mapping. */
  ghost predicate SameChoices(r: Roster, x: Roster) {
    && r.factionId == x.factionId && r.detachmentId == x.detachmentId && r.forceDispositionId == x.forceDispositionId
    && RuleSelections(r.units) == RuleSelections(x.units)
    && MappingSelections(r.units) == MappingSelections(x.units)
  }

  lemma SameMaps(h: map<string, Hash>, g: map<string, Hash>)
    ensures h == g <==> forall k :: At(h, k) == At(g, k)
  {
    assert forall k :: k in h <==> At(h, k).Some?;
    assert forall k :: k in g <==> At(g, k).Some?;
  }

  lemma EntitiesSplit(h: map<string, Hash>, g: map<string, Hash>)
    ensures h == g <==> RuleEntities(h) == RuleEntities(g) && MappingEntities(h) == MappingEntities(g)
  {
    hide IsMapping;
    if RuleEntities(h) == RuleEntities(g) && MappingEntities(h) == MappingEntities(g) {
      forall k ensures At(h, k) == At(g, k) {
        if IsMapping(k) {
          assert k in MappingEntities(h) <==> k in MappingEntities(g);
        } else {
          assert k in RuleEntities(h) <==> k in RuleEntities(g);
        }
      }
      SameMaps(h, g);
    }
  }

  lemma EntitiesSame(w: World, r: Roster, f: Faction, x: Roster, g: Faction)
    ensures SameEntities(w, r, f, x, g) <==> EntityHashes(w, r, f) == EntityHashes(w, x, g)
  {
    EntityHashesRead(w, r, f);
    EntityHashesRead(w, x, g);
    SameMaps(EntityHashes(w, r, f), EntityHashes(w, x, g));
    hide EntityHashes, Stamped, At;
  }

  /**
    A roster that carries the stamp of another under one bundle is rebased onto a second bundle as compatible
    exactly when the engine schema is the same, the choices are the same, and whatever they select has the same
    hash in both bundles, unless two of the four objects hashed for them collide.
   */
  lemma EditedCompatibleIff(w: World, r: Roster, a: Snapshot, x: Roster, b: Snapshot)
    requires r.factionId in a.factions && x.factionId in b.factions && a.bundleId != b.bundleId
    requires x.sourceData == Stamp(w, r, a).value.sourceData
    requires NoCollision(w, HashedFor(w, r, a.factions[r.factionId], x, b.factions[x.factionId]))
    ensures var rebased := Rebase(w, x, b);
            && rebased.Ok?
            && (rebased.value.status == CompatibleRebased <==>
                  && a.engineDataSchemaVersion == b.engineDataSchemaVersion && SameChoices(r, x)
                  && SameEntities(w, r, a.factions[r.factionId], x, b.factions[x.factionId]))
            && (rebased.value.status != CompatibleRebased ==> rebased.value.status == ReviewRequired)
  {
    StampedSemantics(w, r, a, x, b);
    hide SameEntities, SameChoices, SameSemantics, ScopesOf, NoCollision, EntityHashes, RuleEntities, MappingEntities,
      RuleSelections, MappingSelections;
    VerifiedStatus(w, x, b);
  }

  /** A stamped roster as it is: only the schema and the hashes of what it selects matter. */
  lemma StampedCompatibleIff(w: World, r: Roster, a: Snapshot, b: Snapshot)
    requires r.factionId in a.factions && r.factionId in b.factions && a.bundleId != b.bundleId
    requires NoCollision(w, HashedFor(w, r, a.factions[r.factionId], r, b.factions[r.factionId]))
    ensures var rebased := Rebase(w, Stamp(w, r, a).value, b);
            && rebased.Ok?
            && (rebased.value.status == CompatibleRebased <==>
                  a.engineDataSchemaVersion == b.engineDataSchemaVersion
                  && SameEntities(w, r, a.factions[r.factionId], r, b.factions[r.factionId]))
            && (rebased.value.status != CompatibleRebased ==> rebased.value.status == ReviewRequired)
  {
    var stamped := Stamp(w, r, a).value;
    var f, g := a.factions[r.factionId], b.factions[r.factionId];
    assert SelectedKeys(w, stamped) == SelectedKeys(w, r);
    assert EntityHashes(w, stamped, g) == EntityHashes(w, r, g) by { hide SelectedKeys; }
    EntitiesSame(w, r, f, stamped, g);
    EntitiesSame(w, r, f, r, g);
    hide EntityHashes, SameEntities, SelectedKeys, RuleEntities, MappingEntities, RuleSelections, MappingSelections,
      Rebase;
    assert HashedFor(w, r, f, stamped, g) == HashedFor(w, r, f, r, g);
    EditedCompatibleIff(w, r, a, stamped, b);
  }

  lemma VerifiedStatus(w: World, roster: Roster, s: Snapshot)
    requires roster.factionId in s.factions && roster.sourceData.identityStatus == Verified &&
             roster.sourceData.bundleId != s.bundleId
    ensures TargetSourceData(w, roster, s).Some? && Rebase(w, roster, s).Ok?
    ensures Rebase(w, roster, s).value.status ==
              if SameSemantics(roster.sourceData, TargetSourceData(w, roster, s).value) then CompatibleRebased
              else ReviewRequired
  {
    hide SameSemantics, ScopesOf, EntityHashes, RuleEntities, MappingEntities, RuleSelections, MappingSelections;
  }

  lemma StampedSemantics(w: World, r: Roster, a: Snapshot, x: Roster, b: Snapshot)
    requires r.factionId in a.factions && x.factionId in b.factions
    requires NoCollision(w, HashedFor(w, r, a.factions[r.factionId], x, b.factions[x.factionId]))
    ensures SameSemantics(Stamp(w, r, a).value.sourceData, TargetSourceData(w, x, b).value) <==>
              && a.engineDataSchemaVersion == b.engineDataSchemaVersion && SameChoices(r, x)
              && SameEntities(w, r, a.factions[r.factionId], x, b.factions[x.factionId])
  {
    var f, g := a.factions[r.factionId], b.factions[x.factionId];
    var h, j := EntityHashes(w, r, f), EntityHashes(w, x, g);
    EntitiesSplit(h, j);
    EntitiesSame(w, r, f, x, g);
    hide EntityHashes, SameEntities, RuleEntities, MappingEntities, RuleSelections, MappingSelections;
  }

  /**
    Against the bundle it was stamped with, a roster is current exactly when it was never migrated; else it is
    refused.
   */
  lemma StampedCurrentIff(w: World, r: Roster, s: Snapshot)
    requires r.factionId in s.factions
    ensures var rebased := Rebase(w, Stamp(w, r, s).value, s);
            if r.sourceData.migratedFrom.None? then rebased.Ok? && rebased.value.status == Current
            else rebased == Err(IntegrityMismatch)
  {
    TargetIgnoresSource(w, r, Stamp(w, r, s).value.sourceData, s);
    hide EntityHashes, RuleEntities, MappingEntities, RuleSelections, MappingSelections, ScopesOf;
  }

  // ---- The scopes put up for review ----

  lemma {:induction false} ScopesListed(keys: seq<string>, before: map<string, Hash>, after: map<string, Hash>,
                                        unverifiable: bool)
    requires Ascending(keys)
    ensures forall s :: s in ScopesOf(keys, before, after, unverifiable) ==>
              s.key in keys && s == ChangedScope(s.key, At(before, s.key), At(after, s.key), unverifiable)
    ensures forall k :: k in keys ==>
              ((unverifiable || At(before, k) != At(after, k)) <==>
               exists s :: s in ScopesOf(keys, before, after, unverifiable) && s.key == k)
    ensures forall i, j :: 0 <= i < j < |ScopesOf(keys, before, after, unverifiable)| ==>
              StringLess(ScopesOf(keys, before, after, unverifiable)[i].key,
                         ScopesOf(keys, before, after, unverifiable)[j].key)
  {
    if keys != [] {
      var first, others := keys[0], keys[1..];
      forall i, j | 0 <= i < j < |others| ensures StringLess(others[i], others[j]) {
        assert keys[i + 1] == others[i] && keys[j + 1] == others[j];
      }
      ScopesListed(others, before, after, unverifiable);
      hide StringLess, ChangedScope;
      var all, rest := ScopesOf(keys, before, after, unverifiable), ScopesOf(others, before, after, unverifiable);
      var scope := ChangedScope(first, At(before, first), At(after, first), unverifiable);
      FirstLess(keys);
      ScopeKey(first, At(before, first), At(after, first), unverifiable);
      assert all == (if unverifiable || At(before, first) != At(after, first) then [scope] else []) + rest;
      assert forall s :: s in rest ==> s.key in others && s.key != first;
      assert forall k :: k in keys <==> k == first || k in others;
      forall k | k in keys
        ensures (unverifiable || At(before, k) != At(after, k)) <==> exists s :: s in all && s.key == k
      {
        if k == first {
          if unverifiable || At(before, k) != At(after, k) { assert scope in all; }
        } else if unverifiable || At(before, k) != At(after, k) {
          var s :| s in rest && s.key == k;
          assert s in all;
        }
      }
    }
  }

  lemma FirstLess(keys: seq<string>)
    requires Ascending(keys) && keys != []
    ensures forall k :: k in keys[1..] ==> StringLess(keys[0], k) && k != keys[0]
  {
    forall k | k in keys[1..] ensures StringLess(keys[0], k) && k != keys[0] {
      var i :| 0 <= i < |keys[1..]| && keys[1..][i] == k;
      assert StringLess(keys[0], keys[i + 1]);
      StringLessIrreflexive(keys[0]);
    }
  }

  lemma ScopeKey(key: string, previous: Option<Hash>, current: Option<Hash>, unverifiable: bool)
    ensures ChangedScope(key, previous, current, unverifiable).key == key
  {}

  lemma ScopeReads(key: string, before: map<string, Hash>, after: map<string, Hash>, unverifiable: bool)
    requires unverifiable || At(before, key) != At(after, key)
    ensures var x := ChangedScope(key, At(before, key), At(after, key), unverifiable);
            && x.previousHash == At(before, key) && x.currentHash == At(after, key)
            && (x.change == Unverifiable <==> unverifiable)
            && (x.change == Added <==> !unverifiable && key !in before)
            && (x.change == Removed <==> !unverifiable && key !in after)
  {}

  /**
    A review lists, in ascending order and once each, exactly the entities whose hash differs; all of them when
    nothing can be verified.
   */
  lemma ReviewListsChanges(w: World, roster: Roster, s: Snapshot, key: string)
    requires Rebase(w, roster, s).Ok? && Rebase(w, roster, s).value.status == ReviewRequired
    ensures var before, target := roster.sourceData, TargetSourceData(w, roster, s).value;
            var scopes := Rebase(w, roster, s).value.changedScopes;
            var unverifiable := before.identityStatus == LegacyDerived;
            && ((exists x :: x in scopes && x.key == key) <==>
                  (key in before.entityHashes || key in target.entityHashes)
                  && (unverifiable || At(before.entityHashes, key) != At(target.entityHashes, key)))
            && (forall x :: x in scopes && x.key == key ==>
                  && x.previousHash == At(before.entityHashes, key) && x.currentHash == At(target.entityHashes, key)
                  && (x.change == Unverifiable <==> unverifiable)
                  && (x.change == Added <==> !unverifiable && key !in before.entityHashes)
                  && (x.change == Removed <==> !unverifiable && key !in target.entityHashes))
            && forall i, j :: 0 <= i < j < |scopes| ==> StringLess(scopes[i].key, scopes[j].key)
  {
    hide EntityHashes, RuleEntities, MappingEntities, RuleSelections, MappingSelections, StringLess, ScopesOf,
      SelectedKeys, SortedKeys, At;
    var before, target := roster.sourceData, TargetSourceData(w, roster, s).value;
    var keys := SortedKeys(before.entityHashes.Keys + target.entityHashes.Keys);
    assert key in keys <==> key in before.entityHashes || key in target.entityHashes;
    var scopes := ScopesOf(keys, before.entityHashes, target.entityHashes, IsUnverifiable(before, target));
    assert Rebase(w, roster, s).value.changedScopes == scopes;
    var unverifiable := before.identityStatus == LegacyDerived;
    assert unverifiable == IsUnverifiable(before, target);
    hide Rebase, TargetSourceData, IsUnverifiable, Ascending, ChangedScope;
    ScopesListed(keys, before.entityHashes, target.entityHashes, unverifiable);
    if unverifiable || At(before.entityHashes, key) != At(target.entityHashes, key) {
      ScopeReads(key, before.entityHashes, target.entityHashes, unverifiable);
    }
  }

  /** Legacy rosters: from version 2 with the same provenance they are always compatible, otherwise never. */
  lemma LegacyCompatibleIff(w: World, roster: Roster, s: Snapshot)
    requires roster.factionId in s.factions && roster.sourceData.identityStatus == LegacyDerived
    ensures Rebase(w, roster, s).Ok?
    ensures Rebase(w, roster, s).value.status == CompatibleRebased <==>
              roster.sourceData.migratedFrom == Some(2) && roster.sourceData.provenance == s.provenance
  {
    hide EntityHashes, RuleEntities, MappingEntities, RuleSelections, MappingSelections, ScopesOf;
  }
}
