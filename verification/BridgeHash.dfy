/**
  lib/rosterpilot/combat-bridge.ts:1980-2098, 2591-2649: the hash tree of a combat bridge and
  `verifyCombatBridgeV2Hash`.
 */
module BridgeHash {
  import opened Wrappers
  import opened CombatTypes
  import opened BridgeTypes

  function VariantObject(v: BridgeVariant): Preimage {
    VariantPre(v.attachmentPlan, v.activation, v.effects, v.resolvedByPerspective, v.resolved, v.coverage)
  }

  function VariantSha(hash: Hash, v: BridgeVariant): Digest { hash(VariantObject(v)) }

  /** `variantSha256.slice(0, 24)`. */
  function ShortId(d: Digest): (r: string)
    ensures r <= d && |r| == if |d| < 24 then |d| else 24
  {
    if |d| <= 24 then d else d[..24]
  }

  function VariantEntries(variants: seq<BridgeVariant>): (r: seq<(string, Digest)>)
    ensures |r| == |variants|
    ensures forall i :: 0 <= i < |variants| ==> r[i] == (variants[i].variantId, variants[i].variantSha256)
  {
    if variants == [] then [] else [(variants[0].variantId, variants[0].variantSha256)] + VariantEntries(variants[1..])
  }

  function VariantIndexSha(hash: Hash, variants: seq<BridgeVariant>): Digest {
    hash(IndexPre(VariantEntries(variants)))
  }

  function Body(c: Cell, variantIndexSha256: Digest): MechanicsBody {
    MechanicsBody(HASH_CONTRACT, c.scenarioSha256, c.attacker, c.target, |c.variants|, variantIndexSha256,
                  c.availableActivationIds, c.coverage, c.diagnostics)
  }

  function MechanicsSha(hash: Hash, c: Cell, variantIndexSha256: Digest): Digest {
    hash(MechanicsPre(Body(c, variantIndexSha256)))
  }

  function CellObject(c: Cell, mechanicsSha256: Digest, variantIndexSha256: Digest): Preimage {
    CellPre(c.cellId, c.direction, c.metric, mechanicsSha256, Body(c, variantIndexSha256))
  }

  function CellSha(hash: Hash, c: Cell, mechanicsSha256: Digest, variantIndexSha256: Digest): Digest {
    hash(CellObject(c, mechanicsSha256, variantIndexSha256))
  }

  function CellEntries(cells: seq<Cell>): (r: seq<(string, Digest)>)
    ensures |r| == |cells|
    ensures forall i :: 0 <= i < |cells| ==> r[i] == (cells[i].cellId, cells[i].cellSha256)
  {
    if cells == [] then [] else [(cells[0].cellId, cells[0].cellSha256)] + CellEntries(cells[1..])
  }

  function CellIndexSha(hash: Hash, cells: seq<Cell>): Digest { hash(IndexPre(CellEntries(cells))) }

  function BridgeObject(b: Bridge, cellIndexSha256: Digest): Preimage {
    BridgePre(b.schemaVersion, b.kind, b.compiler, b.bundle, b.policySha256, |b.cells|, cellIndexSha256,
              b.coverage, b.coverageUnit, b.diagnostics)
  }

  function BridgeSha(hash: Hash, b: Bridge, cellIndexSha256: Digest): Digest { hash(BridgeObject(b, cellIndexSha256)) }

  // ---- The objects hashed along the tree ----

  function MechanicsObject(c: Cell): Preimage { MechanicsPre(Body(c, c.variantIndexSha256)) }

  /** What the mechanics digest of a cell rests on. */
  function MechanicsObjects(c: Cell): set<Preimage> {
    {ScenarioPre(c.scenario), IndexPre(VariantEntries(c.variants)), MechanicsObject(c)}
    + set v | v in c.variants :: VariantObject(v)
  }

  function CellObjects(c: Cell): set<Preimage> {
    MechanicsObjects(c) + {CellObject(c, c.mechanicsSha256, c.variantIndexSha256)}
  }

  function BridgeObjects(b: Bridge): set<Preimage> {
    {PolicyPre(b.policy), IndexPre(CellEntries(b.cells)), BridgeObject(b, b.cellIndexSha256)}
    + set c, x | c in b.cells && x in CellObjects(c) :: x
  }

  // ---- What verification accepts ----

  ghost predicate VariantBound(hash: Hash, v: BridgeVariant) {
    v.variantSha256 == VariantSha(hash, v) && v.variantId == ShortId(v.variantSha256)
  }

  ghost predicate CellBound(hash: Hash, c: Cell) {
    && c.scenarioSha256 == hash(ScenarioPre(c.scenario))
    && (forall v :: v in c.variants ==> VariantBound(hash, v))
    && c.variantIndexSha256 == VariantIndexSha(hash, c.variants)
    && c.mechanicsSha256 == MechanicsSha(hash, c, c.variantIndexSha256)
    && c.cellSha256 == CellSha(hash, c, c.mechanicsSha256, c.variantIndexSha256)
  }

  ghost predicate BridgeBound(hash: Hash, b: Bridge) {
    && b.schemaVersion == BRIDGE_SCHEMA && b.kind == BRIDGE_KIND && b.coverageUnit == COVERAGE_UNIT
    && b.compiler.hashContractVersion == HASH_CONTRACT
    && b.policySha256 == hash(PolicyPre(b.policy))
    && (forall c :: c in b.cells ==> CellBound(hash, c))
    && b.cellIndexSha256 == CellIndexSha(hash, b.cells)
    && b.bridgeSha256 == BridgeSha(hash, b, b.cellIndexSha256)
  }

  method VerifyCell(hash: Hash, cell: Cell) returns (ok: bool)
    ensures ok <==> CellBound(hash, cell)
  {
    if hash(ScenarioPre(cell.scenario)) != cell.scenarioSha256 { return false; }
    for j := 0 to |cell.variants|
      invariant forall k :: 0 <= k < j ==> VariantBound(hash, cell.variants[k])
    {
      var variant := cell.variants[j];
      var variantSha256 := VariantSha(hash, variant);
      if variant.variantSha256 != variantSha256 || variant.variantId != ShortId(variantSha256) {
        assert variant in cell.variants && !VariantBound(hash, variant);
        return false;
      }
    }
    var variantIndexSha256 := VariantIndexSha(hash, cell.variants);
    var mechanicsSha256 := MechanicsSha(hash, cell, variantIndexSha256);
    return !(cell.variantIndexSha256 != variantIndexSha256
          || cell.mechanicsSha256 != mechanicsSha256
          || cell.cellSha256 != CellSha(hash, cell, mechanicsSha256, variantIndexSha256));
  }

  method VerifyCombatBridgeV2Hash(hash: Hash, bridge: Bridge) returns (ok: bool)
    ensures ok <==> BridgeBound(hash, bridge)
  {
    if bridge.schemaVersion != BRIDGE_SCHEMA || bridge.kind != BRIDGE_KIND || bridge.coverageUnit != COVERAGE_UNIT
       || bridge.compiler.hashContractVersion != HASH_CONTRACT
       || hash(PolicyPre(bridge.policy)) != bridge.policySha256 {
      return false;
    }
    for i := 0 to |bridge.cells|
      invariant forall k :: 0 <= k < i ==> CellBound(hash, bridge.cells[k])
    {
      var bound := VerifyCell(hash, bridge.cells[i]);
      if !bound {
        assert bridge.cells[i] in bridge.cells;
        return false;
      }
    }
    var cellIndexSha256 := CellIndexSha(hash, bridge.cells);
    return bridge.cellIndexSha256 == cellIndexSha256 && bridge.bridgeSha256 == BridgeSha(hash, bridge, cellIndexSha256);
  }

  // ---- What a digest determines ----

  lemma VariantDetermined(hash: Hash, v: BridgeVariant, w: BridgeVariant)
    requires NoCollision(hash, {VariantObject(v), VariantObject(w)}) && VariantBound(hash, v) && VariantBound(hash, w)
    requires v.variantSha256 == w.variantSha256
    ensures v == w
  {}

  /** A mechanics digest binds everything but the cell's own id, direction and metric. */
  lemma MechanicsDetermined(hash: Hash, c: Cell, d: Cell)
    requires NoCollision(hash, MechanicsObjects(c) + MechanicsObjects(d)) && CellBound(hash, c) && CellBound(hash, d)
    requires c.mechanicsSha256 == d.mechanicsSha256
    ensures d == c.(cellId := d.cellId, direction := d.direction, metric := d.metric, cellSha256 := d.cellSha256)
  {
    var objects := MechanicsObjects(c) + MechanicsObjects(d);
    assert MechanicsObject(c) in objects && MechanicsObject(d) in objects;
    assert IndexPre(VariantEntries(c.variants)) in objects && IndexPre(VariantEntries(d.variants)) in objects;
    assert ScenarioPre(c.scenario) in objects && ScenarioPre(d.scenario) in objects;
    assert VariantEntries(c.variants) == VariantEntries(d.variants);
    assert c.scenario == d.scenario;
    VariantsDetermined(hash, c.variants, d.variants, objects);
  }

  lemma VariantsDetermined(hash: Hash, vs: seq<BridgeVariant>, ws: seq<BridgeVariant>, objects: set<Preimage>)
    requires NoCollision(hash, objects) && VariantEntries(vs) == VariantEntries(ws)
    requires (forall v :: v in vs ==> VariantBound(hash, v) && VariantObject(v) in objects)
          && (forall w :: w in ws ==> VariantBound(hash, w) && VariantObject(w) in objects)
    ensures vs == ws
  {
    hide NoCollision, VariantBound, VariantObject;
    forall i | 0 <= i < |vs| ensures vs[i] == ws[i] {
      assert VariantEntries(vs)[i] == VariantEntries(ws)[i];
      assert vs[i] in vs && ws[i] in ws;
      NoCollisionWithin(hash, {VariantObject(vs[i]), VariantObject(ws[i])}, objects);
      VariantDetermined(hash, vs[i], ws[i]);
    }
  }

  /** A cell digest binds the mechanics, the scenario and every variant down to its last effect. */
  lemma CellDetermined(hash: Hash, c: Cell, d: Cell)
    requires NoCollision(hash, CellObjects(c) + CellObjects(d)) && CellBound(hash, c) && CellBound(hash, d)
    requires c.cellSha256 == d.cellSha256
    ensures c == d
  {
    var objects := CellObjects(c) + CellObjects(d);
    assert CellObject(c, c.mechanicsSha256, c.variantIndexSha256) in objects &&
           CellObject(d, d.mechanicsSha256, d.variantIndexSha256) in objects;
    NoCollisionWithin(hash, MechanicsObjects(c) + MechanicsObjects(d), objects);
    MechanicsDetermined(hash, c, d);
  }

  lemma NoCollisionWithin(hash: Hash, some: set<Preimage>, all: set<Preimage>)
    requires NoCollision(hash, all) && some <= all
    ensures NoCollision(hash, some)
  {}

  /**
    Two bridges that verify and carry one `bridgeSha256` are the same bridge, in every field, unless
    two objects hashed along their own trees collide.
   */
  lemma BridgeDetermined(hash: Hash, a: Bridge, b: Bridge)
    requires NoCollision(hash, BridgeObjects(a) + BridgeObjects(b)) && BridgeBound(hash, a) && BridgeBound(hash, b)
    requires a.bridgeSha256 == b.bridgeSha256
    ensures a == b
  {
    hide CellBound, CellObjects;
    var objects := BridgeObjects(a) + BridgeObjects(b);
    assert BridgeObject(a, a.cellIndexSha256) in objects && BridgeObject(b, b.cellIndexSha256) in objects;
    assert PolicyPre(a.policy) in objects && PolicyPre(b.policy) in objects;
    assert IndexPre(CellEntries(a.cells)) in objects && IndexPre(CellEntries(b.cells)) in objects;
    assert CellEntries(a.cells) == CellEntries(b.cells);
    forall i | 0 <= i < |a.cells| ensures a.cells[i] == b.cells[i] {
      assert CellEntries(a.cells)[i] == CellEntries(b.cells)[i];
      assert a.cells[i] in a.cells && b.cells[i] in b.cells;
      NoCollisionWithin(hash, CellObjects(a.cells[i]) + CellObjects(b.cells[i]), objects);
      CellDetermined(hash, a.cells[i], b.cells[i]);
    }
    assert a.cells == b.cells;
  }
}
