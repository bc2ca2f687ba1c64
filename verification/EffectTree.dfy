/**
  lib/rosterpilot/combat-corpus-conformance.ts:381-674, `classifyEffectNode`: which JSON values are
  effect leaves, which are containers and where their nested effects sit.
 */
module EffectTree {
  import opened Wrappers
  import opened JsonPointer

  /** A value of type `unknown`; `Exotic` is an object that is not a plain one. */
  datatype Json =
    | Undefined
    | Null
    | Bool(b: bool)
    | Number(n: real)
    | Str(s: string)
    | Arr(items: seq<Json>)
    | Obj(fields: seq<Field>)
    | Exotic(tag: string)

  datatype Field = Field(name: string, value: Json)

  datatype IssueCode = InvalidEffectNode | UnknownEffectNodeType | MalformedEffectContainer | EmptyEffectContainer

  datatype Child = Child(value: Json, segments: seq<Segment>)

  datatype Classification = Leaf | Container(children: seq<Child>) | Untraversable(code: IssueCode)

  /** An own property, if there is one. */
  function Own(fields: seq<Field>, name: string): Option<Json> {
    if fields == [] then None else if fields[0].name == name then Some(fields[0].value) else Own(fields[1..], name)
  }

  lemma {:induction false} OwnIsField(fields: seq<Field>, name: string)
    ensures Own(fields, name).Some? ==> exists i :: 0 <= i < |fields| && fields[i].value == Own(fields, name).value
  {
    if fields != [] && fields[0].name != name {
      OwnIsField(fields[1..], name);
      if Own(fields[1..], name).Some? {
        var i :| 0 <= i < |fields[1..]| && fields[1..][i].value == Own(fields[1..], name).value;
        assert fields[i + 1].value == Own(fields, name).value;
      }
    } else if fields != [] {
      assert fields[0].value == Own(fields, name).value;
    }
  }

  /** A property of a node is a smaller value than the node. */
  lemma OwnSmaller(node: Json, name: string)
    requires node.Obj? && Own(node.fields, name).Some?
    ensures Own(node.fields, name).value < node
  {
    OwnIsField(node.fields, name);
    var i :| 0 <= i < |node.fields| && node.fields[i].value == Own(node.fields, name).value;
    assert node.fields[i] in node.fields;
  }

  const KNOWN_LEAF_TYPES: set<string> := {
    "stat-modifier", "roll-modifier", "re-roll", "mortal-wounds", "feel-no-pain", "invulnerable-save", "ward",
    "keyword-grant", "unit-keyword", "deep-strike", "fallback-and-act", "fight-first", "fight-last", "shoot-on-death",
    "fight-on-death", "objective-control-modifier", "leadership-modifier", "damage-reduction", "attack-restriction",
    "ability-grant", "cp-gain", "cp-refund", "model-destruction", "resurrection", "resource-gain", "resource-spend",
    "charge-roll-modifier", "terrain-area-tag", "objective-tag", "unit-tag", "bs-modifier", "engagement-passthrough",
    "strategic-reserves-arrival", "remove-battle-shock", "unit-keyword-grant", "auto-result", "firing-deck",
    "disembark-after-move", "disembark", "rule-state", "pool-add-die", "replace-roll-from-pool", "flyover",
    "cp-on-destroy", "battle-shock-test", "modifier-immunity", "stratagem-cost-modifier", "targeting-permission",
    "stratagem-targeting-permission", "unit-attachment", "fight-eligibility-extension", "recovery-pool",
    "movement-modifier" }

  /** `arrayChildren`: every entry of an array field, or one named field of every entry. */
  function ArrayChildren(node: Json, field: string, minimum: nat, nested: Option<string>): Classification
    requires node.Obj?
  {
    var values := Own(node.fields, field);
    if values.None? || !values.value.Arr? then Untraversable(MalformedEffectContainer)
    else if |values.value.items| < minimum then Untraversable(EmptyEffectContainer)
    else if nested.Some? then
      if forall i :: 0 <= i < |values.value.items| ==> HasNested(values.value.items[i], nested.value) then
        Container(seq(|values.value.items|, i requires 0 <= i < |values.value.items| =>
          Child(Own(values.value.items[i].fields, nested.value).value, [Key(field), Index(i), Key(nested.value)])))
      else Untraversable(MalformedEffectContainer)
    else
      Container(seq(|values.value.items|, i requires 0 <= i < |values.value.items| =>
        Child(values.value.items[i], [Key(field), Index(i)])))
  }

  predicate HasNested(entry: Json, name: string) { entry.Obj? && Own(entry.fields, name).Some? }

  /** `singleChild`: the value at one path of field names. */
  function SingleChild(node: Json, path: seq<string>): Option<Json>
    decreases |path|
  {
    if path == [] then Some(node)
    else if node.Obj? && Own(node.fields, path[0]).Some? then SingleChild(Own(node.fields, path[0]).value, path[1..])
    else None
  }

  function Keys(path: seq<string>): seq<Segment> {
    seq(|path|, i requires 0 <= i < |path| => Key(path[i]))
  }

  function Single(node: Json, path: seq<string>): Classification {
    if SingleChild(node, path).Some? then Container([Child(SingleChild(node, path).value, Keys(path))])
    else Untraversable(MalformedEffectContainer)
  }

  /** A branch of a dice gate: absent and null branches do not count, an undefined one is an error. */
  function Branch(node: Json, name: string): seq<Child>
    requires node.Obj?
  {
    var v := Own(node.fields, name);
    if v.None? || v.value.Null? then [] else [Child(v.value, [Key(name)])]
  }

  predicate HasUndefined(node: Json, name: string)
    requires node.Obj?
  {
    Own(node.fields, name) == Some(Undefined)
  }

  function ClassifyAura(node: Json): Classification
    requires node.Obj?
  {
    var modifier := Own(node.fields, "modifier");
    if modifier.None? || !modifier.value.Obj? then Untraversable(MalformedEffectContainer)
    else
      var effect := Own(modifier.value.fields, "effect");
      if effect.None? then Leaf
      else if effect.value.Undefined? || effect.value.Null? then Untraversable(MalformedEffectContainer)
      else Container([Child(effect.value, Keys(["modifier", "effect"]))])
  }

  function ClassifyRisk(node: Json): Classification {
    var reward, risk := Single(node, ["reward"]), Single(node, ["risk", "on_fail"]);
    if !reward.Container? then reward else if !risk.Container? then risk
    else Container(reward.children + risk.children)
  }

  function ClassifyGate(node: Json): Classification
    requires node.Obj?
  {
    var children := Branch(node, "on_success") + Branch(node, "on_fail");
    if HasUndefined(node, "on_success") || HasUndefined(node, "on_fail") then Untraversable(MalformedEffectContainer)
    else if children == [] then Untraversable(EmptyEffectContainer)
    else Container(children)
  }

  function EffectType(value: Json): Option<string> {
    if value.Obj? && Own(value.fields, "type").Some? && Own(value.fields, "type").value.Str? &&
       Own(value.fields, "type").value.s != ""
    then Some(Own(value.fields, "type").value.s) else None
  }

  function Classify(value: Json): Classification {
    if EffectType(value).None? then Untraversable(InvalidEffectNode)
    else
      var kind := EffectType(value).value;
      if kind in KNOWN_LEAF_TYPES then Leaf
      else if kind == "sequence" then ArrayChildren(value, "steps", 1, None)
      else if kind == "choice" then ArrayChildren(value, "options", 2, None)
      else if kind == "stance-select" then ArrayChildren(value, "options", 2, Some("effect"))
      else if kind == "dice-pool-allocation" || kind == "issue-orders" then
        ArrayChildren(value, "options", 1, Some("effect"))
      else if kind == "conditional" || kind == "select-units" || kind == "for-each-unit" then Single(value, ["effect"])
      else if kind == "designate-target" then Single(value, ["applies", "effect"])
      else if kind == "risk-reward" then ClassifyRisk(value)
      else if kind == "dice-gated" then ClassifyGate(value)
      else if kind == "aura" then ClassifyAura(value)
      else Untraversable(UnknownEffectNodeType)
  }

  // ---- What every classification guarantees ----

  /** Children are smaller than their node, sit somewhere below it, and sit apart from each other. */
  ghost predicate GoodChildren(value: Json, children: seq<Child>) {
    && children != []
    && (forall c :: c in children ==> c.value < value && c.segments != [])
    && (forall i, j :: 0 <= i < j < |children| ==> Apart(children[i].segments, children[j].segments))
  }

  lemma ArrayChildrenGood(node: Json, field: string, minimum: nat, nested: Option<string>)
    requires node.Obj? && minimum >= 1 && ArrayChildren(node, field, minimum, nested).Container?
    ensures GoodChildren(node, ArrayChildren(node, field, minimum, nested).children)
  {
    var children := ArrayChildren(node, field, minimum, nested).children;
    var items := Own(node.fields, field).value.items;
    OwnSmaller(node, field);
    forall c | c in children ensures c.value < node && c.segments != [] {
      var i :| 0 <= i < |children| && children[i] == c;
      assert items[i] in items;
      if nested.Some? { OwnSmaller(items[i], nested.value); }
    }
    forall i, j | 0 <= i < j < |children| ensures Apart(children[i].segments, children[j].segments) {
      if Decimal(i) == Decimal(j) { DecimalInjective(i, j); }
      assert Text(children[i].segments[1]) != Text(children[j].segments[1]);
    }
  }

  lemma {:induction false} SingleChildSmaller(node: Json, path: seq<string>)
    requires path != [] && SingleChild(node, path).Some?
    ensures SingleChild(node, path).value < node
    decreases |path|
  {
    OwnSmaller(node, path[0]);
    if |path| > 1 { SingleChildSmaller(Own(node.fields, path[0]).value, path[1..]); }
  }

  lemma ClassifyGood(value: Json)
    ensures Classify(value).Container? ==> GoodChildren(value, Classify(value).children)
  {
    hide GoodChildren, KNOWN_LEAF_TYPES;
    if Classify(value).Container? {
      var kind := EffectType(value).value;
      if kind == "sequence" {
        ArrayChildrenGood(value, "steps", 1, None);
      } else if kind == "choice" {
        ArrayChildrenGood(value, "options", 2, None);
      } else if kind == "stance-select" {
        ArrayChildrenGood(value, "options", 2, Some("effect"));
      } else if kind == "dice-pool-allocation" || kind == "issue-orders" {
        ArrayChildrenGood(value, "options", 1, Some("effect"));
      } else if kind == "conditional" || kind == "select-units" || kind == "for-each-unit" {
        SingleGood(value, ["effect"]);
      } else if kind == "designate-target" {
        SingleGood(value, ["applies", "effect"]);
      } else if kind == "risk-reward" {
        RiskGood(value);
      } else if kind == "dice-gated" {
        GateGood(value);
      } else if kind == "aura" {
        AuraGood(value);
      }
    }
  }

  lemma SingleGood(node: Json, path: seq<string>)
    requires path != [] && Single(node, path).Container?
    ensures GoodChildren(node, Single(node, path).children)
  {
    SingleChildSmaller(node, path);
  }

  lemma RiskGood(node: Json)
    requires ClassifyRisk(node).Container?
    ensures GoodChildren(node, ClassifyRisk(node).children)
  {
    SingleChildSmaller(node, ["reward"]);
    SingleChildSmaller(node, ["risk", "on_fail"]);
    var a, b := Keys(["reward"]), Keys(["risk", "on_fail"]);
    assert "reward"[1] != "risk"[1];
    assert Text(a[0]) != Text(b[0]);
  }

  lemma GateGood(node: Json)
    requires node.Obj? && ClassifyGate(node).Container?
    ensures GoodChildren(node, ClassifyGate(node).children)
  {
    if Own(node.fields, "on_success").Some? { OwnSmaller(node, "on_success"); }
    if Own(node.fields, "on_fail").Some? { OwnSmaller(node, "on_fail"); }
    assert "on_success"[3] != "on_fail"[3];
    var a, b := [Key("on_success")], [Key("on_fail")];
    assert Text(a[0]) != Text(b[0]);
  }

  lemma AuraGood(node: Json)
    requires node.Obj? && ClassifyAura(node).Container?
    ensures GoodChildren(node, ClassifyAura(node).children)
  {
    OwnSmaller(node, "modifier");
    OwnSmaller(Own(node.fields, "modifier").value, "effect");
  }
}
