/**
  lib/rosterpilot/certification.ts:2144-2203, `parseCanonicalRos` from the token list on: nodes are
  objects, a node joins its parent when it opens and gets its children while it is on the stack.
 */
module XmlParser {
  import opened Sequences
  import opened Wrappers
  import opened XmlText
  import opened XmlMarkup

  class XmlNode {
    const tag: string
    const attributes: map<string, string>
    var children: seq<XmlNode>

    constructor (tag: string, attributes: map<string, string>)
      ensures this.tag == tag && this.attributes == attributes && children == []
    {
      this.tag, this.attributes := tag, attributes;
      children := [];
    }
  }

  /** Finished nodes and the trees they hold. */
  type Built = map<XmlNode, Tree>

  /** The children of every node. */
  type Kids = map<XmlNode, seq<XmlNode>>

  ghost predicate ChildrenHold(built: Built, nodes: seq<XmlNode>, trees: seq<Tree>) {
    |nodes| == |trees| && forall i :: 0 <= i < |nodes| ==> nodes[i] in built && built[nodes[i]] == trees[i]
  }

  ghost predicate HoldsTree(built: Built, kids: Kids, n: XmlNode, t: Tree) {
    n in kids && n.tag == t.tag && n.attributes == t.attributes && ChildrenHold(built, kids[n], t.children)
  }

  function Meanings(ms: seq<Markup>): (r: seq<Tree>)
    requires AllWellFormed(ms)
    ensures |r| == |ms| && forall i :: 0 <= i < |r| ==> r[i] == Meaning(ms[i])
  {
    seq(|ms|, i requires 0 <= i < |ms| => Meaning(ms[i]))
  }

  lemma MeaningOf(m: Markup)
    requires WellFormed(m)
    ensures AllWellFormed(m.children) && Meaning(m) == Tree(m.tag, Attributes(m.raw).value, Meanings(m.children))
  {
    assert Meaning(m).children == Meanings(m.children);
  }

  lemma MeaningsAppend(ms: seq<Markup>, m: Markup)
    requires AllWellFormed(ms) && WellFormed(m)
    ensures AllWellFormed(ms + [m]) && Meanings(ms + [m]) == Meanings(ms) + [Meaning(m)]
  {
    hide WellFormed, Meaning;
  }

  // ---- What the parser's stack, roots and nodes say ----

  /** An open node: its finished children, then the open child above it if there is one. */
  ghost predicate OpenNode(built: Built, kids: Kids, n: XmlNode, f: Frame, above: seq<XmlNode>) {
    && FrameSound(f) && n in kids && n !in built && n.tag == f.tag && n.attributes == Attributes(f.raw).value
    && |kids[n]| == |f.children| + |above| && kids[n][|f.children|..] == above
    && ChildrenHold(built, kids[n][..|f.children|], Meanings(f.children))
  }

  function Above(stack: seq<XmlNode>, k: nat): seq<XmlNode>
    requires k < |stack|
  {
    if k + 1 < |stack| then [stack[k + 1]] else []
  }

  ghost predicate Finished(built: Built, kids: Kids) { forall n :: n in built ==> HoldsTree(built, kids, n, built[n]) }

  ghost predicate Frames(built: Built, kids: Kids, stack: seq<XmlNode>, frames: seq<Frame>) {
    |stack| == |frames| && forall k :: 0 <= k < |stack| ==> OpenNode(built, kids, stack[k], frames[k], Above(stack, k))
  }

  /** The roots: the finished ones, then the open one if there is one. */
  ghost predicate Roots(built: Built, stack: seq<XmlNode>, roots: seq<XmlNode>, finished: seq<Markup>) {
    && AllWellFormed(finished) && |roots| == |finished| + (if stack == [] then 0 else 1)
    && ChildrenHold(built, roots[..|finished|], Meanings(finished))
    && (stack != [] ==> roots[|finished|] == stack[0])
  }

  ghost predicate Consistent(built: Built, kids: Kids, stack: seq<XmlNode>, roots: seq<XmlNode>, s: State) {
    Finished(built, kids) && NoRepeats(stack) && Frames(built, kids, stack, s.frames) &&
    Roots(built, stack, roots, s.roots)
  }

  /** The children after a node joined its parent. */
  function Joined(kids: Kids, stack: seq<XmlNode>, node: XmlNode): Kids
    requires stack != [] ==> stack[|stack| - 1] in kids
  {
    if stack == [] then kids[node := []]
    else
      var parent := stack[|stack| - 1];
      kids[parent := kids[parent] + [node]][node := []]
  }

  lemma ChildrenKept(built: Built, more: Built, nodes: seq<XmlNode>, trees: seq<Tree>)
    requires ChildrenHold(built, nodes, trees) && forall n :: n in built ==> n in more && more[n] == built[n]
    ensures ChildrenHold(more, nodes, trees)
  {}

  /** Finished nodes are not the ones that change. */
  lemma FinishedKept(built: Built, kids: Kids, after: Kids)
    requires Finished(built, kids) && forall n :: n in built && n in kids ==> n in after && after[n] == kids[n]
    ensures Finished(built, after)
  {
    hide ChildrenHold;
    forall n | n in built ensures HoldsTree(built, after, n, built[n]) { assert HoldsTree(built, kids, n, built[n]); }
  }

  lemma FinishedMore(built: Built, kids: Kids, node: XmlNode, t: Tree)
    requires Finished(built, kids) && node !in built && HoldsTree(built, kids, node, t)
    ensures Finished(built[node := t], kids)
  {
    var more := built[node := t];
    forall n | n in more ensures HoldsTree(more, kids, n, more[n]) {
      assert HoldsTree(built, kids, n, more[n]);
      ChildrenKept(built, more, kids[n], more[n].children);
    }
  }

  /** A new element opens. */
  lemma Opens(built: Built, kids: Kids, stack: seq<XmlNode>, roots: seq<XmlNode>, s: State, node: XmlNode,
              raw: seq<Attr>)
    requires Consistent(built, kids, stack, roots, s) && node !in built && node !in stack && node !in kids
    requires Attributes(raw).Some? && node.attributes == Attributes(raw).value
    ensures stack != [] ==> stack[|stack| - 1] in kids
    ensures Consistent(built, Joined(kids, stack, node), stack + [node], if stack == [] then roots + [node] else roots,
                       State(s.frames + [Frame(node.tag, raw, [])], s.roots))
  {
    assert stack != [] ==> OpenNode(built, kids, stack[|stack| - 1], s.frames[|stack| - 1], Above(stack, |stack| - 1));
    hide Attributes, WellFormed, Meaning, OpenNode, ChildrenHold, HoldsTree;
    FinishedKept(built, kids, Joined(kids, stack, node));
    OpensFrames(built, kids, stack, s.frames, node, raw);
    OpensRoots(built, stack, roots, s.roots, node);
  }

  lemma OpensFrames(built: Built, kids: Kids, stack: seq<XmlNode>, frames: seq<Frame>, node: XmlNode, raw: seq<Attr>)
    requires Frames(built, kids, stack, frames) && NoRepeats(stack) && node !in built && node !in stack && node !in kids
    requires Attributes(raw).Some? && node.attributes == Attributes(raw).value &&
             (stack != [] ==> stack[|stack| - 1] in kids)
    ensures Frames(built, Joined(kids, stack, node), stack + [node], frames + [Frame(node.tag, raw, [])])
  {
    hide Attributes, WellFormed, Meaning, AllWellFormed;
    var after, up, more := Joined(kids, stack, node), stack + [node], frames + [Frame(node.tag, raw, [])];
    forall k | 0 <= k < |up| ensures OpenNode(built, after, up[k], more[k], Above(up, k)) {
      if k == |stack| {
        NewNode(built, after, node, raw);
      } else {
        assert OpenNode(built, kids, stack[k], frames[k], Above(stack, k));
        assert stack[k] in stack;
        if k + 1 == |stack| { Joins(built, kids, stack[k], frames[k], node); }
      }
    }
  }

  lemma NewNode(built: Built, kids: Kids, node: XmlNode, raw: seq<Attr>)
    requires node !in built && node in kids && kids[node] == []
    requires Attributes(raw).Some? && node.attributes == Attributes(raw).value
    ensures OpenNode(built, kids, node, Frame(node.tag, raw, []), [])
  {
    hide Attributes;
  }

  lemma OpensRoots(built: Built, stack: seq<XmlNode>, roots: seq<XmlNode>, finished: seq<Markup>, node: XmlNode)
    requires Roots(built, stack, roots, finished)
    ensures Roots(built, stack + [node], if stack == [] then roots + [node] else roots, finished)
  {
    hide AllWellFormed, ChildrenHold, Meanings;
    if stack == [] { assert (roots + [node])[..|finished|] == roots[..|finished|]; }
  }

  /** The top node, when a child joins it. */
  lemma Joins(built: Built, kids: Kids, n: XmlNode, f: Frame, child: XmlNode)
    requires OpenNode(built, kids, n, f, []) && n != child
    ensures OpenNode(built, kids[n := kids[n] + [child]][child := []], n, f, [child])
  {
    hide ChildrenHold, FrameSound, Meanings;
    var all := kids[n] + [child];
    assert all[..|f.children|] == kids[n][..|f.children|];
    assert all[|f.children|..] == [child];
  }

  /** The top element closes: its node is finished. */
  lemma Closes(built: Built, kids: Kids, stack: seq<XmlNode>, roots: seq<XmlNode>, s: State, selfClosing: bool)
    requires Consistent(built, kids, stack, roots, s) && stack != [] &&
             (selfClosing ==> s.frames[|stack| - 1].children == [])
    ensures var n := |stack| - 1;
            var m := Markup(s.frames[n].tag, s.frames[n].raw, selfClosing, s.frames[n].children);
            WellFormed(m) &&
            Consistent(built[stack[n] := Meaning(m)], kids, stack[..n], roots, Add(State(s.frames[..n], s.roots), m))
  {
    var n := |stack| - 1;
    var top, f := stack[n], s.frames[n];
    var m := Markup(f.tag, f.raw, selfClosing, f.children);
    assert OpenNode(built, kids, top, f, []);
    assert WellFormed(m);
    MeaningOf(m);
    assert kids[top][..|f.children|] == kids[top];
    hide Attributes, WellFormed, Meaning, FrameSound;
    assert HoldsTree(built, kids, top, Meaning(m));
    FinishedMore(built, kids, top, Meaning(m));
    ClosedFrames(built, kids, stack, s.frames, m);
    ClosedRoots(built, stack, roots, s.roots, m);
    assert NoRepeats(stack[..n]);
  }

  /** The frames below, the new last one with one more finished child. */
  lemma ClosedFrames(built: Built, kids: Kids, stack: seq<XmlNode>, frames: seq<Frame>, m: Markup)
    requires Frames(built, kids, stack, frames) && NoRepeats(stack) && stack != [] && WellFormed(m)
    ensures var n := |stack| - 1;
            Frames(built[stack[n] := Meaning(m)], kids, stack[..n], Add(State(frames[..n], []), m).frames)
  {
    hide Attributes, WellFormed, Meaning, Meanings, AllWellFormed;
    var n := |stack| - 1;
    var more, below := built[stack[n] := Meaning(m)], stack[..n];
    var after := Add(State(frames[..n], []), m).frames;
    assert OpenNode(built, kids, stack[n], frames[n], Above(stack, n));
    forall k | 0 <= k < n ensures OpenNode(more, kids, below[k], after[k], Above(below, k)) {
      assert OpenNode(built, kids, stack[k], frames[k], Above(stack, k));
      assert stack[k] != stack[n];
      if k == n - 1 {
        ChildCloses(built, kids, stack[k], frames[k], stack[n], m);
      } else {
        ChildrenKept(built, more, kids[stack[k]][..|frames[k].children|], Meanings(frames[k].children));
      }
    }
  }

  lemma ChildCloses(built: Built, kids: Kids, n: XmlNode, f: Frame, child: XmlNode, m: Markup)
    requires OpenNode(built, kids, n, f, [child]) && n != child && child !in built && WellFormed(m)
    ensures OpenNode(built[child := Meaning(m)], kids, n, f.(children := f.children + [m]), [])
  {
    var more, all := built[child := Meaning(m)], kids[n];
    FrameGrows(f, m);
    MeaningsAppend(f.children, m);
    hide Attributes, WellFormed, Meaning, Meanings;
    assert all == all[..|f.children|] + [child] by { assert all == all[..|f.children|] + all[|f.children|..]; }
    assert all[..|f.children| + 1] == all;
    ChildrenKept(built, more, all[..|f.children|], Meanings(f.children));
  }

  lemma ClosedRoots(built: Built, stack: seq<XmlNode>, roots: seq<XmlNode>, finished: seq<Markup>, m: Markup)
    requires Roots(built, stack, roots, finished) && stack != [] && WellFormed(m) && stack[|stack| - 1] !in built
    ensures var n := |stack| - 1;
            Roots(built[stack[n] := Meaning(m)], stack[..n], roots, if n == 0 then finished + [m] else finished)
  {
    var more := built[stack[|stack| - 1] := Meaning(m)];
    MeaningsAppend(finished, m);
    hide Attributes, WellFormed, Meaning, Meanings, AllWellFormed;
    ChildrenKept(built, more, roots[..|finished|], Meanings(finished));
    if |stack| == 1 {
      assert roots == roots[..|finished|] + [stack[0]];
      assert roots[..|finished| + 1] == roots;
    }
  }

  // ---- The parser ----

  class Parser {
    var stack: seq<XmlNode>
    var roots: seq<XmlNode>
    ghost var state: State
    ghost var built: Built
    ghost var kids: Kids

    constructor ()
      ensures Valid() && state == INITIAL && kids.Keys == {}
    {
      stack, roots := [], [];
      state := INITIAL;
      built, kids := map[], map[];
    }

    ghost predicate Valid()
      reads this, kids.Keys
    {
      && Consistent(built, kids, stack, roots, state)
      && (forall n :: n in kids ==> n.children == kids[n])
      && (forall n :: n in stack ==> n in kids) && built.Keys <= kids.Keys
    }

    /** A new node joins its parent, or the roots. */
    method Attach(node: XmlNode)
      requires Valid() && node !in kids && node.children == []
      modifies this`roots, this`kids, kids.Keys
      ensures stack != [] ==> stack[|stack| - 1] in old(kids)
      ensures kids == Joined(old(kids), stack, node) && kids.Keys == old(kids.Keys) + {node}
      ensures roots == if stack == [] then old(roots) + [node] else old(roots)
      ensures forall n :: n in kids ==> n.children == kids[n]
    {
      hide Consistent;
      if stack != [] {
        var parent := stack[|stack| - 1];
        assert parent in stack;
        kids := Joined(kids, stack, node);
        parent.children := parent.children + [node];
      } else {
        kids := Joined(kids, stack, node);
        roots := roots + [node];
      }
    }

    /** A closing tag. */
    method CloseElement(tag: string) returns (ok: bool)
      requires Valid()
      modifies this
      ensures ok <==> Step(old(state), Close(tag)).Some?
      ensures ok ==> Valid() && Some(state) == Step(old(state), Close(tag)) && kids == old(kids)
    {
      hide Finished, NoRepeats, OpenNode, Roots, Meaning, WellFormed, Add;
      if stack == [] { return false; }
      var current := stack[|stack| - 1];
      assert OpenNode(built, kids, current, state.frames[|stack| - 1], Above(stack, |stack| - 1));
      TopTag(built, kids, current, state.frames[|stack| - 1], Above(stack, |stack| - 1));
      if current.tag != tag { return false; }
      ghost var n := |stack| - 1;
      ghost var m := Markup(tag, state.frames[n].raw, false, state.frames[n].children);
      Closes(built, kids, stack, roots, state, false);
      assert current in stack;
      stack := stack[..|stack| - 1];
      built := built[current := Meaning(m)];
      state := Add(State(state.frames[..n], state.roots), m);
      ok := true;
    }

    /** An opening or self-closing tag. */
    method OpenElement(tag: string, raw: seq<Attr>, selfClosing: bool) returns (ok: bool)
      requires Valid()
      modifies this, kids.Keys
      ensures ok <==> Step(old(state), Open(tag, raw, selfClosing)).Some?
      ensures ok ==>
              Valid() && Some(state) == Step(old(state), Open(tag, raw, selfClosing)) &&
              fresh(kids.Keys - old(kids.Keys))
    {
      hide Attributes, Meaning, WellFormed, Consistent, Add;
      var attributes := Attributes(raw);
      if attributes.None? { return false; }
      var node := new XmlNode(tag, attributes.value);
      Opens(built, kids, stack, roots, state, node, raw);
      Attach(node);
      ghost var after := State(state.frames + [Frame(tag, raw, [])], state.roots);
      if selfClosing {
        ClosesAtOnce(built, kids, stack, roots, state, node, raw);
        built := built[node := Tree(tag, attributes.value, [])];
        state := Add(state, Markup(tag, raw, true, []));
      } else {
        stack := stack + [node];
        state := after;
      }
      ok := true;
    }
  }

  lemma TopTag(built: Built, kids: Kids, n: XmlNode, f: Frame, above: seq<XmlNode>)
    requires OpenNode(built, kids, n, f, above)
    ensures n.tag == f.tag && n !in built && n in kids
  {}

  /** A self-closing element is one that opens and closes with nothing in between. */
  lemma ClosesAtOnce(built: Built, kids: Kids, stack: seq<XmlNode>, roots: seq<XmlNode>, s: State, node: XmlNode,
                     raw: seq<Attr>)
    requires Attributes(raw).Some? && node.attributes == Attributes(raw).value
    requires Consistent(built, kids, stack + [node], roots, State(s.frames + [Frame(node.tag, raw, [])], s.roots))
    ensures Consistent(built[node := Tree(node.tag, Attributes(raw).value, [])], kids, stack, roots,
                       Add(s, Markup(node.tag, raw, true, [])))
  {
    var up, frames, m := stack + [node], s.frames + [Frame(node.tag, raw, [])], Markup(node.tag, raw, true, []);
    MeaningOf(m);
    hide Attributes, WellFormed, Meaning, Consistent, Add;
    Closes(built, kids, up, roots, State(frames, s.roots), true);
    assert up[..|stack|] == stack && frames[..|stack|] == s.frames;
  }

  // ---- The whole document ----

  /** The finished nodes hold the trees they are said to hold. */
  ghost predicate Represents(built: Built)
    reads built.Keys
  {
    forall n :: n in built ==>
      n.tag == built[n].tag && n.attributes == built[n].attributes && ChildrenHold(built, n.children, built[n].children)
  }

  /** `parseCanonicalRos` on tokens: the root of the one tree they are the markup of, or a refusal. */
  method ParseCanonicalRos(tokens: seq<Token>) returns (root: Option<XmlNode>, ghost built: Built)
    ensures root.Some? <==> Accept(tokens).Some?
    ensures root.Some? ==>
            fresh(built.Keys) && Represents(built) && root.value in built && built[root.value] == Accept(tokens).value
  {
    hide Step, Consistent, Meaning, WellFormed;
    var parser := new Parser();
    for i := 0 to |tokens|
      invariant parser.Valid() && fresh(parser) && fresh(parser.kids.Keys)
      invariant Run(INITIAL, tokens) == Run(parser.state, tokens[i..])
    {
      var token := tokens[i];
      assert tokens[i..] == [token] + tokens[i + 1..];
      RunStep(parser.state, token, tokens[i + 1..]);
      var ok;
      if token.Close? {
        ok := parser.CloseElement(token.tag);
      } else {
        ok := parser.OpenElement(token.tag, token.raw, token.selfClosing);
      }
      if !ok { return None, map[]; }
    }
    assert Run(INITIAL, tokens) == Some(parser.state);
    RunSound(tokens);
    built := parser.built;
    AtTheEnd(parser.built, parser.kids, parser.stack, parser.roots, parser.state);
    root := if parser.stack == [] && |parser.roots| == 1 then Some(parser.roots[0]) else None;
  }

  lemma AtTheEnd(built: Built, kids: Kids, stack: seq<XmlNode>, roots: seq<XmlNode>, s: State)
    requires Consistent(built, kids, stack, roots, s)
    ensures stack == [] && |roots| == 1 <==> Done(s)
    ensures Finished(built, kids) && AllWellFormed(s.roots)
    ensures Done(s) ==> roots[0] in built && built[roots[0]] == Meaning(s.roots[0])
  {
    if Done(s) { assert roots[..1][0] == roots[0]; }
  }
}
