/**
  The traversal of an effect tree leaves nothing out and adds nothing
  (lib/rosterpilot/combat-corpus-conformance.ts:725-805): what it lists is exactly what the effects that can be
  reached call for, each at its own position and with the containers on the way to it.
 */
module InventoryCompleteness {
  import opened Wrappers
  import opened JsonPointer
  import opened EffectTree
  import opened EffectPositions
  import opened SourceInventory
  import opened InventoryValidity
  import opened InventoryBuilder

  // ---- What each effect is ----

  ghost predicate Traversable(effect: Json) { exists kind :: TypeIs(effect, kind) && Fits(effect, ShapeOf(kind)) }

  ghost predicate IsLeaf(effect: Json) { exists kind :: TypeIs(effect, kind) && Bare(effect, ShapeOf(kind)) }

  /** A container holds an effect at that position. */
  ghost predicate Holds(value: Json, segments: seq<Segment>, inner: Json) {
    exists kind :: TypeIs(value, kind) && Fits(value, ShapeOf(kind)) && NestedAt(value, ShapeOf(kind), segments, inner)
  }

  ghost predicate Unknown(effect: Json) { exists kind :: TypeIs(effect, kind) && ShapeOf(kind).NoShape? }

  ghost predicate Empty(effect: Json) { exists kind :: TypeIs(effect, kind) && Short(effect, ShapeOf(kind)) }

  ghost predicate Raises(effect: Json, code: IssueCode) {
    match code
    case InvalidEffectNode => forall kind :: !TypeIs(effect, kind)
    case UnknownEffectNodeType => Unknown(effect)
    case EmptyEffectContainer => Empty(effect)
    case MalformedEffectContainer =>
      (exists kind :: TypeIs(effect, kind)) && !Unknown(effect) && !Empty(effect) && !IsLeaf(effect) &&
      !Traversable(effect)
  }

  lemma ClassifyMeans(value: Json)
    ensures Classify(value).Leaf? <==> IsLeaf(value)
    ensures Classify(value).Container? <==> Traversable(value)
    ensures forall code :: Classify(value) == Untraversable(code) <==> Raises(value, code)
    ensures Classify(value).Container? ==>
              forall segments, inner ::
                Child(inner, segments) in Classify(value).children <==> Holds(value, segments, inner)
  {
    hide TypeIs, Bare, Fits, Short, ShapeOf, NestedAt, Classify;
    ClassifyIff(value);
    if kind :| TypeIs(value, kind) {
      OneType(value, kind);
      OfKind(value, kind);
      forall code ensures Classify(value) == Untraversable(code) <==> Raises(value, code) {
        match code case InvalidEffectNode => case UnknownEffectNodeType => case EmptyEffectContainer =>
        case MalformedEffectContainer =>
      }
    }
  }

  lemma OfKind(value: Json, kind: string)
    requires TypeIs(value, kind) && forall other :: TypeIs(value, other) ==> other == kind
    ensures Traversable(value) <==> Fits(value, ShapeOf(kind))
    ensures IsLeaf(value) <==> Bare(value, ShapeOf(kind))
    ensures Unknown(value) <==> ShapeOf(kind).NoShape?
    ensures Empty(value) <==> Short(value, ShapeOf(kind))
    ensures forall segments, inner ::
              Holds(value, segments, inner) <==>
              Fits(value, ShapeOf(kind)) && NestedAt(value, ShapeOf(kind), segments, inner)
  {
    hide TypeIs, Bare, Fits, Short, ShapeOf, NestedAt;
  }

  lemma OneType(value: Json, kind: string)
    requires TypeIs(value, kind)
    ensures forall other :: TypeIs(value, other) ==> other == kind
  {
    TypeIff(value, kind);
    forall other | TypeIs(value, other) ensures other == kind { TypeIff(value, other); }
  }

  // ---- What is to be listed ----

  datatype Item = OfFragment(f: Fragment) | OfLeaf(l: SourceLeaf) | OfIssue(i: Issue)

  ghost predicate Listed(found: Found, item: Item) {
    match item
    case OfFragment(f) => f in found.fragments
    case OfLeaf(l) => l in found.leaves
    case OfIssue(i) => i in found.issues
  }

  /** The id of an effect at a position. */
  function IdAt(c: Context, effect: Json, pointer: string): Digest {
    c.hash(FragmentPre(c.sourceId, c.entitySha256, pointer, c.hash(ValuePre(effect))))
  }

  ghost predicate HasRole(effect: Json, role: Role) {
    match role
    case ContainerRole => Traversable(effect)
    case LeafRole => IsLeaf(effect)
    case UntraversableRole => !Traversable(effect) && !IsLeaf(effect)
  }

  ghost predicate HasType(effect: Json, kind: Option<string>) {
    if kind.Some? then TypeIs(effect, kind.value) else forall k :: !TypeIs(effect, k)
  }

  /** What one effect calls for: its fragment, and unless it is a container its leaf and perhaps its issue. */
  ghost predicate CallsFor(c: Context, effect: Json, pointer: string, above: seq<Digest>, item: Item) {
    var id := IdAt(c, effect, pointer);
    match item
    case OfFragment(Fragment(fragmentId, sourceId, jsonPointer, sha, kind, role)) =>
      fragmentId == id && sourceId == c.sourceId && jsonPointer == pointer && sha == c.hash(ValuePre(effect)) &&
      HasType(effect, kind) && HasRole(effect, role)
    case OfLeaf(SourceLeaf(leafId, fragmentId, sourceId, ancestors)) =>
      !Traversable(effect) && leafId == c.hash(LeafPre(id, above)) && fragmentId == id && sourceId == c.sourceId &&
      ancestors == above
    case OfIssue(Issue(code, sourceId, fragmentId, jsonPointer)) =>
      Raises(effect, code) && sourceId == c.sourceId && fragmentId == id && jsonPointer == pointer
  }

  /** From one effect down to another, one container at a time, with the ids of the containers left. */
  ghost predicate Leads(c: Context, value: Json, pointer: string, path: seq<seq<Segment>>, effect: Json,
                        ids: seq<Digest>)
    decreases |path|
  {
    if path == [] then effect == value && ids == []
    else
      && ids != [] && ids[0] == IdAt(c, value, pointer)
      && exists next ::
           Holds(value, path[0], next) && Leads(c, next, pointer + Render(path[0]), path[1..], effect, ids[1..])
  }

  function Position(path: seq<seq<Segment>>): seq<Segment> {
    if path == [] then [] else path[0] + Position(path[1..])
  }

  /** Some effect that can be reached calls for it. */
  ghost predicate Due(c: Context, value: Json, pointer: string, above: seq<Digest>, item: Item) {
    exists path, effect, ids ::
      Leads(c, value, pointer, path, effect, ids) &&
      CallsFor(c, effect, pointer + Render(Position(path)), above + ids, item)
  }

  // ---- One node ----

  lemma {:induction false} RenderConcat(a: seq<Segment>, b: seq<Segment>)
    ensures Render(a + b) == Render(a) + Render(b)
  {
    hide Escape, Text;
    if a == [] {
      assert a + b == b;
    } else {
      assert (a + b)[1..] == a[1..] + b;
      RenderConcat(a[1..], b);
    }
  }

  lemma FirstStep(pointer: string, path: seq<seq<Segment>>)
    requires path != []
    ensures pointer + Render(Position(path)) == (pointer + Render(path[0])) + Render(Position(path[1..]))
  {
    RenderConcat(path[0], Position(path[1..]));
  }

  /** What is due below a node is what the node calls for and what is due below the effects it holds. */
  lemma DueStep(c: Context, value: Json, pointer: string, above: seq<Digest>, item: Item)
    ensures Due(c, value, pointer, above, item) <==>
            || CallsFor(c, value, pointer, above, item)
            || exists segments, next ::
                 Holds(value, segments, next) &&
                 Due(c, next, pointer + Render(segments), above + [IdAt(c, value, pointer)], item)
  {
    hide CallsFor, Holds, IdAt, Render;
    var id := IdAt(c, value, pointer);
    if CallsFor(c, value, pointer, above, item) { DueHere(c, value, pointer, above, item); }
    if segments, next :| Holds(value, segments, next) && Due(c, next, pointer + Render(segments), above + [id], item) {
      DueAbove(c, value, pointer, above, segments, next, item);
    }
    if Due(c, value, pointer, above, item) {
      var path, effect, ids :| Leads(c, value, pointer, path, effect, ids) &&
                               CallsFor(c, effect, pointer + Render(Position(path)), above + ids, item);
      hide Due, Leads;
      DueBelow(c, value, pointer, above, path, effect, ids, item);
    }
  }

  lemma DueBelow(c: Context, value: Json, pointer: string, above: seq<Digest>, path: seq<seq<Segment>>, effect: Json,
                 ids: seq<Digest>, item: Item)
    requires Leads(c, value, pointer, path, effect, ids)
    requires CallsFor(c, effect, pointer + Render(Position(path)), above + ids, item)
    ensures || CallsFor(c, value, pointer, above, item)
            || exists segments, next ::
                 Holds(value, segments, next) &&
                 Due(c, next, pointer + Render(segments), above + [IdAt(c, value, pointer)], item)
  {
    hide CallsFor, Holds, IdAt, Render;
    NoPosition(pointer);
    if path == [] {
      assert above + ids == above;
    } else {
      var next :| Holds(value, path[0], next) && Leads(c, next, pointer + Render(path[0]), path[1..], effect, ids[1..]);
      FirstStep(pointer, path);
      assert above + ids == (above + [ids[0]]) + ids[1..];
      assert Due(c, next, pointer + Render(path[0]), above + [ids[0]], item);
    }
  }

  lemma NoPosition(pointer: string)
    ensures pointer + Render(Position([])) == pointer
  {}

  lemma DueHere(c: Context, value: Json, pointer: string, above: seq<Digest>, item: Item)
    requires CallsFor(c, value, pointer, above, item)
    ensures Due(c, value, pointer, above, item)
  {
    hide CallsFor, Holds, IdAt;
    NoPosition(pointer);
    assert Leads(c, value, pointer, [], value, []);
    assert above + [] == above;
  }

  lemma DueAbove(c: Context, value: Json, pointer: string, above: seq<Digest>, segments: seq<Segment>, next: Json,
                 item: Item)
    requires Holds(value, segments, next)
    requires Due(c, next, pointer + Render(segments), above + [IdAt(c, value, pointer)], item)
    ensures Due(c, value, pointer, above, item)
  {
    hide CallsFor, Holds, IdAt;
    var id := IdAt(c, value, pointer);
    var rest, effect, ids :| Leads(c, next, pointer + Render(segments), rest, effect, ids) &&
                             CallsFor(c, effect, pointer + Render(segments) + Render(Position(rest)),
                                      above + [id] + ids, item);
    var path := [segments] + rest;
    assert path[0] == segments && path[1..] == rest && ([id] + ids)[1..] == ids;
    FirstStep(pointer, path);
    assert above + ([id] + ids) == above + [id] + ids;
    assert Leads(c, value, pointer, path, effect, [id] + ids);
  }

  /** What one node adds to the lists. */
  lemma NodeLists(c: Context, value: Json, pointer: string, above: seq<Digest>, item: Item)
    ensures var f := FragmentOf(c, value, pointer);
            && (item.OfFragment? ==> (CallsFor(c, value, pointer, above, item) <==> item.f == f))
            && (item.OfLeaf? ==>
                  (CallsFor(c, value, pointer, above, item) <==>
                   !Classify(value).Container? && item.l == LeafOf(c, f, above)))
            && (item.OfIssue? ==>
                  (CallsFor(c, value, pointer, above, item) <==>
                   Classify(value).Untraversable? &&
                   item.i == Issue(Classify(value).code, c.sourceId, f.fragmentId, pointer)))
  {
    ClassifyMeans(value);
    TypeOf(value);
    hide Classify, EffectType, Traversable, IsLeaf, Raises, TypeIs, Holds;
  }

  lemma TypeOf(value: Json)
    ensures forall kind :: HasType(value, kind) <==> kind == EffectType(value)
  {
    forall kind: Option<string> ensures HasType(value, kind) <==> kind == EffectType(value) {
      if kind.Some? { TypeIff(value, kind.value); }
      if EffectType(value).Some? { TypeIff(value, EffectType(value).value); }
      if kind.None? && EffectType(value).None? {
        forall k ensures !TypeIs(value, k) { TypeIff(value, k); }
      }
    }
  }

  lemma {:induction false} VisitAllLists(c: Context, parent: Json, children: seq<Child>, pointer: string,
                                         above: seq<Digest>, item: Item)
    requires forall k :: k in children ==> k.value < parent
    ensures Listed(VisitAll(c, parent, children, pointer, above), item) <==>
            exists k :: k in children && Listed(Visit(c, k.value, pointer + Render(k.segments), above), item)
    decreases |children|
  {
    hide Visit, Render;
    if children != [] {
      var first, rest := children[0], children[1..];
      assert children == [first] + rest;
      VisitAllLists(c, parent, rest, pointer, above, item);
      assert forall k :: k in children <==> k == first || k in rest;
    }
  }

  // ---- Every node ----

  /** The traversal lists exactly what some effect that can be reached calls for. */
  lemma {:induction false} VisitExact(c: Context, value: Json, pointer: string, above: seq<Digest>)
    ensures forall item :: Listed(Visit(c, value, pointer, above), item) <==> Due(c, value, pointer, above, item)
    decreases value
  {
    forall item: Item
      ensures Listed(Visit(c, value, pointer, above), item) <==> Due(c, value, pointer, above, item)
    {
      VisitExactFor(c, value, pointer, above, item);
    }
  }

  lemma {:induction false} VisitExactFor(c: Context, value: Json, pointer: string, above: seq<Digest>, item: Item)
    ensures Listed(Visit(c, value, pointer, above), item) <==> Due(c, value, pointer, above, item)
    decreases value
  {
    hide Classify, FragmentOf, LeafOf, CallsFor, Due, Holds, Render, VisitAll, Traversable, IsLeaf, Raises;
    NodeLists(c, value, pointer, above, item);
    DueStep(c, value, pointer, above, item);
    ClassifyMeans(value);
    ClassifyGood(value);
    if Classify(value).Container? {
      var children, below := Classify(value).children, above + [IdAt(c, value, pointer)];
      IdIs(c, value, pointer);
      VisitAllLists(c, value, children, pointer, below, item);
      forall k | k in children
        ensures Listed(Visit(c, k.value, pointer + Render(k.segments), below), item) <==>
                Due(c, k.value, pointer + Render(k.segments), below, item)
      {
        VisitExactFor(c, k.value, pointer + Render(k.segments), below, item);
      }
      ChildrenAreHeld(c, value, children, pointer, below, item);
    } else {
      NothingHeld(value);
    }
  }

  lemma IdIs(c: Context, value: Json, pointer: string)
    ensures FragmentOf(c, value, pointer).fragmentId == IdAt(c, value, pointer)
  {}

  lemma NothingHeld(value: Json)
    requires !Traversable(value)
    ensures forall segments, inner :: !Holds(value, segments, inner)
  {}

  lemma ChildrenAreHeld(c: Context, value: Json, children: seq<Child>, pointer: string, below: seq<Digest>, item: Item)
    requires forall segments, inner :: Child(inner, segments) in children <==> Holds(value, segments, inner)
    ensures (exists k :: k in children && Due(c, k.value, pointer + Render(k.segments), below, item)) <==>
            exists segments, next :: Holds(value, segments, next) &&
                                     Due(c, next, pointer + Render(segments), below, item)
  {
    hide Holds, Due, Render;
    if k :| k in children && Due(c, k.value, pointer + Render(k.segments), below, item) {
      assert Child(k.value, k.segments) in children;
    }
    if segments, next :| Holds(value, segments, next) && Due(c, next, pointer + Render(segments), below, item) {
      var k := Child(next, segments);
      assert k in children && Due(c, k.value, pointer + Render(k.segments), below, item);
    }
  }

  // ---- Positions ----

  lemma {:induction false} StandsFurther(value: Json, a: seq<Segment>, next: Json, b: seq<Segment>, inner: Json)
    requires StandsAt(value, a, next) && StandsAt(next, b, inner)
    ensures StandsAt(value, a + b, inner)
    decreases |a|
  {
    if a == [] {
      assert a + b == b;
    } else {
      assert (a + b)[1..] == a[1..] + b;
      match a[0]
      case Key(name) =>
        var first :| FieldIs(value, name, first) && StandsAt(first, a[1..], next);
        StandsFurther(first, a[1..], next, b, inner);
      case Index(i) =>
        StandsFurther(value.items[i], a[1..], next, b, inner);
    }
  }

  /** The position put in the pointer of an effect is where the effect stands in the whole tree. */
  lemma {:induction false} LeadsStands(c: Context, value: Json, pointer: string, path: seq<seq<Segment>>, effect: Json,
                                       ids: seq<Digest>)
    requires Leads(c, value, pointer, path, effect, ids)
    ensures StandsAt(value, Position(path), effect) && |ids| == |path|
    decreases |path|
  {
    if path != [] {
      hide StandsAt;
      var next :| Holds(value, path[0], next) &&
                  Leads(c, next, pointer + Render(path[0]), path[1..], effect, ids[1..]);
      LeadsStands(c, next, pointer + Render(path[0]), path[1..], effect, ids[1..]);
      StandsFurther(value, path[0], next, Position(path[1..]), effect);
    } else {
      assert StandsAt(value, [], effect);
    }
  }

  // ---- The whole inventory ----

  /** Some effect below some source calls for it. */
  ghost predicate DueIn(hash: Hash, inputs: seq<SourceInput>, item: Item) {
    exists k :: k in inputs && DueUnder(hash, k, item)
  }

  ghost predicate DueUnder(hash: Hash, input: SourceInput, item: Item) {
    Due(Context(hash, input.sourceId, input.entitySha256), input.effect, input.effectJsonPointer, [], item)
  }

  function FoundOf(inv: Inventory): Found { Found(inv.fragments, inv.leaves, inv.issues) }

  lemma {:induction false} DraftLists(hash: Hash, inputs: seq<SourceInput>, item: Item)
    ensures Listed(FoundOf(DraftOf(hash, inputs)), item) <==> DueIn(hash, inputs, item)
    decreases |inputs|
  {
    hide Due, Visit;
    if inputs != [] {
      var n := |inputs| - 1;
      var last := inputs[n];
      assert inputs == inputs[..n] + [last];
      assert forall k :: k in inputs <==> k in inputs[..n] || k == last;
      DraftLists(hash, inputs[..n], item);
      assert Listed(FoundIn(hash, last), item) <==> DueUnder(hash, last, item) by {
        VisitExact(Context(hash, last.sourceId, last.entitySha256), last.effect, last.effectJsonPointer, []);
      }
    }
  }

  /** A built inventory lists exactly what the effects below its sources call for. */
  lemma BuiltExact(hash: Hash, inputs: seq<SourceInput>)
    requires Built(hash, inputs).Ok?
    ensures forall item :: Listed(FoundOf(Built(hash, inputs).value), item) <==> DueIn(hash, inputs, item)
  {
    hide DraftOf, Normalize, ValidInventory, DueIn;
    var draft := DraftOf(hash, inputs);
    NormalizeSameEntries(draft);
    forall item: Item
      ensures Listed(FoundOf(Built(hash, inputs).value), item) <==> DueIn(hash, inputs, item)
    {
      DraftLists(hash, inputs, item);
      assert Listed(FoundOf(Normalize(draft)), item) <==> Listed(FoundOf(draft), item);
    }
  }
}
