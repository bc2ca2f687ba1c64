/**
  lib/rosterpilot/combat-corpus-conformance.ts:381-674: which positions of an effect hold nested effects, put
  down as a table, and `classifyEffectNode` against it.
 */
module EffectPositions {
  import opened Wrappers
  import opened JsonPointer
  import opened EffectTree

  // ---- Positions in a value ----

  /** The first field of that name has that value. */
  ghost predicate FieldIs(value: Json, name: string, inner: Json) {
    value.Obj? && exists i :: 0 <= i < |value.fields| && value.fields[i] == Field(name, inner) &&
                    forall j :: 0 <= j < i ==> value.fields[j].name != name
  }

  /** What stands at a position: an object's field by its name, a list's entry by its index. */
  ghost predicate StandsAt(value: Json, segments: seq<Segment>, inner: Json) {
    if segments == [] then inner == value
    else
      match segments[0]
      case Key(name) => exists next :: FieldIs(value, name, next) && StandsAt(next, segments[1..], inner)
      case Index(i) => value.Arr? && i < |value.items| && StandsAt(value.items[i], segments[1..], inner)
  }

  lemma {:induction false} OwnIff(fields: seq<Field>, name: string, inner: Json)
    ensures Own(fields, name) == Some(inner) <==> FieldIs(Obj(fields), name, inner)
  {
    var value := Obj(fields);
    if fields != [] {
      var rest := fields[1..];
      OwnIff(rest, name, inner);
      if fields[0].name == name {
        if fields[0].value == inner { assert value.fields[0] == Field(name, inner); }
      } else {
        if FieldIs(Obj(rest), name, inner) {
          var i :| 0 <= i < |rest| && rest[i] == Field(name, inner) && forall j :: 0 <= j < i ==> rest[j].name != name;
          assert value.fields[i + 1] == Field(name, inner);
          forall j | 0 <= j < i + 1 ensures value.fields[j].name != name { assert j > 0 ==> fields[j] == rest[j - 1]; }
        }
        if FieldIs(value, name, inner) {
          var i :| 0 <= i < |fields| && fields[i] == Field(name, inner) &&
                   forall j :: 0 <= j < i ==> fields[j].name != name;
          assert rest[i - 1] == Field(name, inner);
        }
      }
    }
  }

  // ---- The table ----

  datatype Shape =
    | LeafShape
    | EachOf(field: string, minimum: nat, nested: Option<string>)
    | OneAt(path: seq<string>)
    | RiskShape
    | GateShape
    | AuraShape
    | NoShape

  function ShapeOf(kind: string): Shape { if kind in KNOWN_LEAF_TYPES then LeafShape else ContainerShape(kind) }

  function ContainerShape(kind: string): Shape {
    match kind
    case "sequence" => EachOf("steps", 1, None)
    case "choice" => EachOf("options", 2, None)
    case "stance-select" => EachOf("options", 2, Some("effect"))
    case "dice-pool-allocation" => EachOf("options", 1, Some("effect"))
    case "issue-orders" => EachOf("options", 1, Some("effect"))
    case "conditional" => OneAt(["effect"])
    case "select-units" => OneAt(["effect"])
    case "for-each-unit" => OneAt(["effect"])
    case "designate-target" => OneAt(["applies", "effect"])
    case "risk-reward" => RiskShape
    case "dice-gated" => GateShape
    case "aura" => AuraShape
    case _ => NoShape
  }

  ghost predicate IsPath(segments: seq<Segment>, path: seq<string>) {
    |segments| == |path| && forall i :: 0 <= i < |path| ==> segments[i] == Key(path[i])
  }

  /** The positions at which a node of that shape holds nested effects. */
  ghost predicate HoldsEffect(shape: Shape, segments: seq<Segment>) {
    match shape
    case EachOf(field, _, None) => |segments| == 2 && segments[0] == Key(field) && segments[1].Index?
    case EachOf(field, _, Some(nested)) =>
      |segments| == 3 && segments[0] == Key(field) && segments[1].Index? && segments[2] == Key(nested)
    case OneAt(path) => IsPath(segments, path)
    case RiskShape => IsPath(segments, ["reward"]) || IsPath(segments, ["risk", "on_fail"])
    case GateShape => IsPath(segments, ["on_success"]) || IsPath(segments, ["on_fail"])
    case AuraShape => IsPath(segments, ["modifier", "effect"])
    case LeafShape => false
    case NoShape => false
  }

  /** A branch of a dice gate may be null, which is no effect. */
  ghost predicate NestedAt(value: Json, shape: Shape, segments: seq<Segment>, inner: Json) {
    HoldsEffect(shape, segments) && StandsAt(value, segments, inner) && (shape.GateShape? ==> inner != Null)
  }

  ghost predicate HasField(value: Json, name: string) { exists e :: FieldIs(value, name, e) }

  ghost predicate HasPath(value: Json, path: seq<string>) {
    if path == [] then true else exists next :: FieldIs(value, path[0], next) && HasPath(next, path[1..])
  }

  ghost predicate HasBranch(value: Json, name: string) { exists e :: FieldIs(value, name, e) && e != Null }

  ghost predicate ListFits(value: Json, field: string, minimum: nat, nested: Option<string>) {
    exists list :: FieldIs(value, field, Arr(list)) && |list| >= minimum &&
      (nested.Some? ==> forall x :: x in list ==> HasField(x, nested.value))
  }

  ghost predicate AuraFits(value: Json) {
    exists m, e :: FieldIs(value, "modifier", m) && FieldIs(m, "effect", e) && e != Null && e != Undefined
  }

  /** A node of that shape whose nested effects can all be reached. */
  ghost predicate Fits(value: Json, shape: Shape) {
    match shape
    case EachOf(field, minimum, nested) => ListFits(value, field, minimum, nested)
    case OneAt(path) => HasPath(value, path)
    case RiskShape => HasPath(value, ["reward"]) && HasPath(value, ["risk", "on_fail"])
    case GateShape =>
      && !FieldIs(value, "on_success", Undefined) && !FieldIs(value, "on_fail", Undefined)
      && (HasBranch(value, "on_success") || HasBranch(value, "on_fail"))
    case AuraShape => AuraFits(value)
    case LeafShape => false
    case NoShape => false
  }

  /** Too short a list, or a dice gate without a branch. */
  ghost predicate Short(value: Json, shape: Shape) {
    match shape
    case EachOf(field, minimum, _) => exists list :: FieldIs(value, field, Arr(list)) && |list| < minimum
    case GateShape =>
      && !FieldIs(value, "on_success", Undefined) && !FieldIs(value, "on_fail", Undefined)
      && !HasBranch(value, "on_success") && !HasBranch(value, "on_fail")
    case _ => false
  }

  /** An aura whose modifier brings no effect is a leaf. */
  ghost predicate Bare(value: Json, shape: Shape) {
    shape.LeafShape? ||
    (shape.AuraShape? && exists m :: FieldIs(value, "modifier", m) && m.Obj? && !HasField(m, "effect"))
  }

  // ---- Each way of classifying ----

  /** What a classification of a node of that shape must be. */
  ghost predicate Agrees(value: Json, shape: Shape, k: Classification) {
    && (k.Leaf? <==> Bare(value, shape))
    && (k.Container? <==> Fits(value, shape))
    && (k == Untraversable(EmptyEffectContainer) <==> Short(value, shape))
    && (k == Untraversable(UnknownEffectNodeType) <==> shape.NoShape?)
    && k != Untraversable(InvalidEffectNode)
    && (k.Container? ==>
          forall segments, inner :: Child(inner, segments) in k.children <==> NestedAt(value, shape, segments, inner))
  }

  lemma FieldOf(value: Json, name: string)
    requires value.Obj?
    ensures forall inner :: FieldIs(value, name, inner) <==> Own(value.fields, name) == Some(inner)
    ensures HasField(value, name) <==> Own(value.fields, name).Some?
  {
    assert Obj(value.fields) == value;
    forall inner ensures FieldIs(value, name, inner) <==> Own(value.fields, name) == Some(inner) {
      OwnIff(value.fields, name, inner);
    }
    if Own(value.fields, name).Some? { assert FieldIs(value, name, Own(value.fields, name).value); }
  }

  lemma StandsAtOne(value: Json, name: string, inner: Json)
    ensures StandsAt(value, [Key(name)], inner) <==> FieldIs(value, name, inner)
  {
    hide FieldIs;
    assert [Key(name)][1..] == [];
  }

  lemma ListAgrees(value: Json, field: string, minimum: nat, nested: Option<string>)
    requires value.Obj?
    ensures Agrees(value, EachOf(field, minimum, nested), ArrayChildren(value, field, minimum, nested))
  {
    FieldOf(value, field);
    hide FieldIs, Own;
    var k := ArrayChildren(value, field, minimum, nested);
    if Own(value.fields, field).Some? && Own(value.fields, field).value.Arr? {
      var list := Own(value.fields, field).value.items;
      forall i | 0 <= i < |list|
        ensures nested.Some? ==> (HasNested(list[i], nested.value) <==> HasField(list[i], nested.value)) {
        if nested.Some? { HasNestedIff(list[i], nested.value); }
      }
      if k.Container? { ListChildren(value, field, minimum, nested, list); }
    }
  }

  lemma HasNestedIff(entry: Json, name: string)
    ensures HasNested(entry, name) <==> HasField(entry, name)
  {
    if entry.Obj? { FieldOf(entry, name); }
  }

  lemma ListChildren(value: Json, field: string, minimum: nat, nested: Option<string>, list: seq<Json>)
    requires value.Obj? && Own(value.fields, field) == Some(Arr(list))
    requires ArrayChildren(value, field, minimum, nested).Container?
    ensures var children := ArrayChildren(value, field, minimum, nested).children;
            && |children| == |list|
            && (forall i :: 0 <= i < |list| ==> children[i].segments[..2] == [Key(field), Index(i)])
            && forall segments, inner ::
                 Child(inner, segments) in children <==>
                 NestedAt(value, EachOf(field, minimum, nested), segments, inner)
  {
    var children := ArrayChildren(value, field, minimum, nested).children;
    FieldOf(value, field);
    hide FieldIs, Own;
    forall segments: seq<Segment>, inner: Json
      ensures Child(inner, segments) in children <==> NestedAt(value, EachOf(field, minimum, nested), segments, inner)
    {
      if Child(inner, segments) in children {
        var i :| 0 <= i < |children| && children[i] == Child(inner, segments);
        ListChildAt(value, field, nested, list, i, segments, inner);
      }
      if NestedAt(value, EachOf(field, minimum, nested), segments, inner) {
        var i := segments[1].position;
        assert segments[1..][0] == segments[1];
        ListChildAt(value, field, nested, list, i, segments, inner);
        assert children[i] == Child(inner, segments);
      }
    }
  }

  lemma StandsAtKey(value: Json, name: string, rest: seq<Segment>, next: Json, inner: Json)
    requires FieldIs(value, name, next)
    ensures StandsAt(value, [Key(name)] + rest, inner) <==> StandsAt(next, rest, inner)
  {
    FieldOf(value, name);
    hide FieldIs, Own;
    assert ([Key(name)] + rest)[1..] == rest;
  }

  lemma StandsAtIndex(list: seq<Json>, i: nat, rest: seq<Segment>, inner: Json)
    ensures StandsAt(Arr(list), [Index(i)] + rest, inner) <==> i < |list| && StandsAt(list[i], rest, inner)
  {
    assert ([Index(i)] + rest)[1..] == rest;
  }

  lemma ListChildAt(value: Json, field: string, nested: Option<string>, list: seq<Json>, i: nat,
                    segments: seq<Segment>, inner: Json)
    requires value.Obj? && FieldIs(value, field, Arr(list))
    requires segments == [Key(field), Index(i)] + if nested.Some? then [Key(nested.value)] else []
    ensures StandsAt(value, segments, inner) <==>
            i < |list| && if nested.Some? then FieldIs(list[i], nested.value, inner) else inner == list[i]
    ensures i < |list| && nested.Some? && list[i].Obj? ==>
            (FieldIs(list[i], nested.value, inner) <==> Own(list[i].fields, nested.value) == Some(inner))
  {
    var last := if nested.Some? then [Key(nested.value)] else [];
    assert segments == [Key(field)] + ([Index(i)] + last);
    StandsAtKey(value, field, [Index(i)] + last, Arr(list), inner);
    StandsAtIndex(list, i, last, inner);
    hide FieldIs, Own;
    if i < |list| && nested.Some? {
      StandsAtOne(list[i], nested.value, inner);
      if list[i].Obj? { FieldOf(list[i], nested.value); }
    }
  }

  lemma {:induction false} SingleChildIff(node: Json, path: seq<string>, segments: seq<Segment>, inner: Json)
    requires IsPath(segments, path)
    ensures SingleChild(node, path) == Some(inner) <==> StandsAt(node, segments, inner)
    decreases |path|
  {
    if path != [] {
      assert segments == [Key(path[0])] + segments[1..];
      if node.Obj? { FieldOf(node, path[0]); }
      if node.Obj? && Own(node.fields, path[0]).Some? {
        var next := Own(node.fields, path[0]).value;
        SingleChildIff(next, path[1..], segments[1..], inner);
        StandsAtKey(node, path[0], segments[1..], next, inner);
      } else {
        assert !HasField(node, path[0]);
      }
    }
  }

  lemma {:induction false} SingleChildFound(node: Json, path: seq<string>)
    ensures SingleChild(node, path).Some? <==> HasPath(node, path)
    decreases |path|
  {
    if path != [] {
      if node.Obj? { FieldOf(node, path[0]); }
      if node.Obj? && Own(node.fields, path[0]).Some? {
        SingleChildFound(Own(node.fields, path[0]).value, path[1..]);
      } else {
        assert !HasField(node, path[0]);
      }
    }
  }

  lemma KeysIsPath(path: seq<string>, segments: seq<Segment>)
    ensures IsPath(segments, path) <==> segments == Keys(path)
  {}

  lemma PathAgrees(value: Json, path: seq<string>)
    ensures Agrees(value, OneAt(path), Single(value, path))
  {
    SingleChildFound(value, path);
    forall segments: seq<Segment>, inner: Json
      ensures Single(value, path).Container? ==>
              (Child(inner, segments) in Single(value, path).children <==>
               NestedAt(value, OneAt(path), segments, inner))
    {
      KeysIsPath(path, segments);
      if IsPath(segments, path) { SingleChildIff(value, path, segments, inner); }
    }
  }

  lemma RiskAgrees(value: Json)
    ensures Agrees(value, RiskShape, ClassifyRisk(value))
  {
    var a, b := ["reward"], ["risk", "on_fail"];
    PathAgrees(value, a);
    PathAgrees(value, b);
    var k, x, y := ClassifyRisk(value), Single(value, a), Single(value, b);
    if k.Container? {
      forall segments: seq<Segment>, inner: Json
        ensures Child(inner, segments) in k.children <==> NestedAt(value, RiskShape, segments, inner)
      {
        assert Child(inner, segments) in k.children <==>
               Child(inner, segments) in x.children || Child(inner, segments) in y.children;
        assert NestedAt(value, RiskShape, segments, inner) <==>
               NestedAt(value, OneAt(a), segments, inner) || NestedAt(value, OneAt(b), segments, inner);
      }
    }
    hide Single, NestedAt;
  }

  lemma BranchIs(value: Json, name: string)
    requires value.Obj?
    ensures Branch(value, name) != [] <==> HasBranch(value, name)
    ensures HasUndefined(value, name) <==> FieldIs(value, name, Undefined)
    ensures forall segments, inner ::
              Child(inner, segments) in Branch(value, name) <==>
              IsPath(segments, [name]) && StandsAt(value, segments, inner) && inner != Null
  {
    FieldOf(value, name);
    hide FieldIs, Own;
    forall segments: seq<Segment>, inner: Json
      ensures Child(inner, segments) in Branch(value, name) <==>
              IsPath(segments, [name]) && StandsAt(value, segments, inner) && inner != Null
    {
      StandsAtOne(value, name, inner);
      if IsPath(segments, [name]) { assert segments == [Key(name)]; }
    }
    if Own(value.fields, name).Some? { assert FieldIs(value, name, Own(value.fields, name).value); }
  }

  lemma GateAgrees(value: Json)
    requires value.Obj?
    ensures Agrees(value, GateShape, ClassifyGate(value))
  {
    BranchIs(value, "on_success");
    BranchIs(value, "on_fail");
    hide Branch, FieldIs, StandsAt, HasUndefined;
    var k := ClassifyGate(value);
    if k.Container? {
      forall segments: seq<Segment>, inner: Json
        ensures Child(inner, segments) in k.children <==> NestedAt(value, GateShape, segments, inner)
      {
        assert Child(inner, segments) in k.children <==>
               Child(inner, segments) in Branch(value, "on_success") ||
               Child(inner, segments) in Branch(value, "on_fail");
      }
    }
  }

  lemma AuraAgrees(value: Json)
    requires value.Obj?
    ensures Agrees(value, AuraShape, ClassifyAura(value))
  {
    FieldOf(value, "modifier");
    var k := ClassifyAura(value);
    if Own(value.fields, "modifier").Some? && Own(value.fields, "modifier").value.Obj? {
      var m := Own(value.fields, "modifier").value;
      FieldOf(m, "effect");
      hide FieldIs, Own;
      if k.Container? {
        forall segments: seq<Segment>, inner: Json
          ensures Child(inner, segments) in k.children <==> NestedAt(value, AuraShape, segments, inner)
        {
          KeysIsPath(["modifier", "effect"], segments);
          if IsPath(segments, ["modifier", "effect"]) {
            assert segments == [Key("modifier")] + [Key("effect")];
            StandsAtKey(value, "modifier", [Key("effect")], m, inner);
            StandsAtOne(m, "effect", inner);
          }
        }
      }
    }
  }

  // ---- Classifying ----

  ghost predicate TypeIs(value: Json, kind: string) { kind != "" && FieldIs(value, "type", Str(kind)) }

  lemma TypeIff(value: Json, kind: string)
    ensures EffectType(value) == Some(kind) <==> TypeIs(value, kind)
  {
    if value.Obj? { FieldOf(value, "type"); }
  }

  /** A node is classified as the table says of its type, and is invalid exactly when it has none. */
  lemma ClassifyIff(value: Json)
    ensures Classify(value) == Untraversable(InvalidEffectNode) <==> forall kind :: !TypeIs(value, kind)
    ensures forall kind :: TypeIs(value, kind) ==> Agrees(value, ShapeOf(kind), Classify(value))
  {
    if EffectType(value).None? {
      forall kind ensures !TypeIs(value, kind) { TypeIff(value, kind); }
    } else {
      var own := EffectType(value).value;
      TypeIff(value, own);
      forall kind | TypeIs(value, kind) ensures kind == own { TypeIff(value, kind); }
      KindAgrees(value, own);
    }
  }

  lemma KindAgrees(value: Json, kind: string)
    requires EffectType(value) == Some(kind)
    ensures Agrees(value, ShapeOf(kind), Classify(value))
  {
    hide Agrees, KNOWN_LEAF_TYPES, ArrayChildren, Single, ClassifyRisk, ClassifyGate, ClassifyAura;
    var shape := ShapeOf(kind);
    TableSays(value, kind);
    hide ShapeOf, Classify;
    match shape
    case EachOf(field, minimum, nested) => ListAgrees(value, field, minimum, nested);
    case OneAt(path) => PathAgrees(value, path);
    case RiskShape => RiskAgrees(value);
    case GateShape => GateAgrees(value);
    case AuraShape => AuraAgrees(value);
    case LeafShape => LeafAgrees(value, Leaf, LeafShape);
    case NoShape => LeafAgrees(value, Untraversable(UnknownEffectNodeType), NoShape);
  }

  lemma TableSays(value: Json, kind: string)
    requires EffectType(value) == Some(kind)
    ensures match ShapeOf(kind)
            case EachOf(field, minimum, nested) => Classify(value) == ArrayChildren(value, field, minimum, nested)
            case OneAt(path) => Classify(value) == Single(value, path)
            case RiskShape => Classify(value) == ClassifyRisk(value)
            case GateShape => Classify(value) == ClassifyGate(value)
            case AuraShape => Classify(value) == ClassifyAura(value)
            case LeafShape => Classify(value) == Leaf
            case NoShape => Classify(value) == Untraversable(UnknownEffectNodeType)
  {
    hide ArrayChildren, Single, ClassifyRisk, ClassifyGate, ClassifyAura;
    hide KNOWN_LEAF_TYPES;
  }

  lemma LeafAgrees(value: Json, k: Classification, shape: Shape)
    requires (k == Leaf && shape == LeafShape) || (k == Untraversable(UnknownEffectNodeType) && shape == NoShape)
    ensures Agrees(value, shape, k)
  {}
}
