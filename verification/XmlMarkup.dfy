/**
  lib/rosterpilot/certification.ts:2120-2203 on tokens: which token sequences are the markup of one
  tree, as a stack machine and as a definition over trees.
 */
module XmlMarkup {
  import opened Sequences
  import opened Ordering
  import opened Wrappers
  import opened XmlText

  /** An attribute as written. */
  datatype Attr = Attr(name: string, raw: string)

  datatype Token = Open(tag: string, raw: seq<Attr>, selfClosing: bool) | Close(tag: string)

  datatype Tree = Tree(tag: string, attributes: map<string, string>, children: seq<Tree>)

  /** `canonicalXmlAttributes`: decoded, and refused when a name repeats. */
  function Attributes(raw: seq<Attr>): Option<map<string, string>> {
    if raw == [] then Some(map[])
    else
      var last, before := raw[|raw| - 1], Attributes(raw[..|raw| - 1]);
      if before.None? || last.name in before.value || Decode(last.raw).None? then None
      else Some(before.value[last.name := Decode(last.raw).value])
  }

  // ---- Markup of a tree ----

  /** A tree as it can be written: with raw attributes, and `<a/>` told from `<a></a>`. */
  datatype Markup = Markup(tag: string, raw: seq<Attr>, selfClosing: bool, children: seq<Markup>)

  predicate WellFormed(m: Markup) {
    (m.selfClosing ==> m.children == []) && Attributes(m.raw).Some? &&
    forall i :: 0 <= i < |m.children| ==> WellFormed(m.children[i])
  }

  predicate AllWellFormed(ms: seq<Markup>) { forall i :: 0 <= i < |ms| ==> WellFormed(ms[i]) }

  function Flatten(m: Markup): seq<Token>
    decreases m
  {
    [Open(m.tag, m.raw, m.selfClosing)] + (if m.selfClosing then [] else FlattenAll(m.children) + [Close(m.tag)])
  }

  function FlattenAll(ms: seq<Markup>): seq<Token>
    decreases ms
  {
    if ms == [] then [] else Flatten(ms[0]) + FlattenAll(ms[1..])
  }

  /** The tree the markup stands for. */
  function Meaning(m: Markup): Tree
    requires WellFormed(m)
  {
    Tree(m.tag, Attributes(m.raw).value, seq(|m.children|, i requires 0 <= i < |m.children| => Meaning(m.children[i])))
  }

  // ---- The stack machine ----

  /** An element that is open, with the markup read inside it. */
  datatype Frame = Frame(tag: string, raw: seq<Attr>, children: seq<Markup>)

  datatype State = State(frames: seq<Frame>, roots: seq<Markup>)

  const INITIAL := State([], [])

  function Add(s: State, m: Markup): State {
    if s.frames == [] then State([], s.roots + [m])
    else
      var n := |s.frames| - 1;
      State(s.frames[..n] + [s.frames[n].(children := s.frames[n].children + [m])], s.roots)
  }

  function Step(s: State, t: Token): Option<State> {
    match t
    case Open(tag, raw, selfClosing) =>
      if Attributes(raw).None? then None
      else if selfClosing then Some(Add(s, Markup(tag, raw, true, [])))
      else Some(State(s.frames + [Frame(tag, raw, [])], s.roots))
    case Close(tag) =>
      if s.frames == [] || s.frames[|s.frames| - 1].tag != tag then None
      else
        var n := |s.frames| - 1;
        Some(Add(State(s.frames[..n], s.roots), Markup(tag, s.frames[n].raw, false, s.frames[n].children)))
  }

  function Run(s: State, tokens: seq<Token>): Option<State>
    decreases |tokens|
  {
    if tokens == [] then Some(s)
    else if Step(s, tokens[0]).None? then None
    else Run(Step(s, tokens[0]).value, tokens[1..])
  }

  predicate Done(s: State) { s.frames == [] && |s.roots| == 1 }

  // ---- Markup is accepted ----

  lemma {:induction false} RunFlatten(s: State, m: Markup, rest: seq<Token>)
    requires WellFormed(m)
    ensures Run(s, Flatten(m) + rest) == Run(Add(s, m), rest)
    decreases m, 1
  {
    if m.selfClosing {
      RunStep(s, Open(m.tag, m.raw, true), rest);
      assert Flatten(m) + rest == [Open(m.tag, m.raw, true)] + rest;
      assert m == Markup(m.tag, m.raw, true, []);
    } else {
      var inner := State(s.frames + [Frame(m.tag, m.raw, [])], s.roots);
      var full := State(s.frames + [Frame(m.tag, m.raw, m.children)], s.roots);
      var tail := [Close(m.tag)] + rest;
      assert Flatten(m) + rest == [Open(m.tag, m.raw, false)] + (FlattenAll(m.children) + tail);
      RunFlattenAll(inner, m, m.children, tail);
      AddAllFrame(s, m.tag, m.raw, [], m.children);
      assert [] + m.children == m.children;
      hide Flatten, FlattenAll, AddAll, Run, Attributes;
      RunStep(s, Open(m.tag, m.raw, false), FlattenAll(m.children) + tail);
      RunStep(full, Close(m.tag), rest);
      assert full.frames[..|s.frames|] == s.frames;
      assert m == Markup(m.tag, m.raw, false, m.children);
    }
  }

  lemma RunStep(s: State, t: Token, rest: seq<Token>)
    ensures Run(s, [t] + rest) == if Step(s, t).None? then None else Run(Step(s, t).value, rest)
  {
    hide Step;
    assert ([t] + rest)[1..] == rest;
  }

  function AddAll(s: State, ms: seq<Markup>): State
    decreases |ms|
  {
    if ms == [] then s else AddAll(Add(s, ms[0]), ms[1..])
  }

  lemma {:induction false} AddAllFrame(s: State, tag: string, raw: seq<Attr>, before: seq<Markup>, ms: seq<Markup>)
    ensures AddAll(State(s.frames + [Frame(tag, raw, before)], s.roots), ms) ==
            State(s.frames + [Frame(tag, raw, before + ms)], s.roots)
    decreases |ms|
  {
    if ms == [] {
      assert before + ms == before;
    } else {
      var inner := State(s.frames + [Frame(tag, raw, before)], s.roots);
      assert inner.frames[..|s.frames|] == s.frames;
      assert Add(inner, ms[0]) == State(s.frames + [Frame(tag, raw, before + [ms[0]])], s.roots);
      AddAllFrame(s, tag, raw, before + [ms[0]], ms[1..]);
      assert before + [ms[0]] + ms[1..] == before + ms;
    }
  }

  lemma {:induction false} RunFlattenAll(s: State, parent: Markup, ms: seq<Markup>, rest: seq<Token>)
    requires AllWellFormed(ms) && forall i :: 0 <= i < |ms| ==> ms[i] < parent
    ensures Run(s, FlattenAll(ms) + rest) == Run(AddAll(s, ms), rest)
    decreases parent, 0, |ms|
  {
    if ms == [] {
      assert FlattenAll(ms) + rest == rest;
    } else {
      assert FlattenAll(ms) + rest == Flatten(ms[0]) + (FlattenAll(ms[1..]) + rest);
      RunFlatten(s, ms[0], FlattenAll(ms[1..]) + rest);
      RunFlattenAll(Add(s, ms[0]), parent, ms[1..], rest);
    }
  }

  // ---- Nothing else is accepted ----

  function FramesTokens(frames: seq<Frame>): seq<Token> {
    if frames == [] then []
    else
      var n := |frames| - 1;
      FramesTokens(frames[..n]) + [Open(frames[n].tag, frames[n].raw, false)] + FlattenAll(frames[n].children)
  }

  /** The tokens a state has read. */
  function StateTokens(s: State): seq<Token> { FlattenAll(s.roots) + FramesTokens(s.frames) }

  ghost predicate Sound(s: State) {
    && AllWellFormed(s.roots)
    && forall k :: 0 <= k < |s.frames| ==> FrameSound(s.frames[k])
  }

  predicate FrameSound(f: Frame) { Attributes(f.raw).Some? && AllWellFormed(f.children) }

  lemma {:induction false} FlattenAppend(ms: seq<Markup>, m: Markup)
    ensures FlattenAll(ms + [m]) == FlattenAll(ms) + Flatten(m)
  {
    if ms == [] {
      assert ms + [m] == [m] && FlattenAll([m]) == Flatten(m) + FlattenAll([]);
    } else {
      assert (ms + [m])[1..] == ms[1..] + [m];
      FlattenAppend(ms[1..], m);
    }
  }

  lemma AddTokens(s: State, m: Markup)
    requires Sound(s) && WellFormed(m)
    ensures Sound(Add(s, m)) && StateTokens(Add(s, m)) == StateTokens(s) + Flatten(m)
  {
    hide Flatten, WellFormed, Attributes;
    if s.frames == [] {
      FlattenAppend(s.roots, m);
      assert FlattenAll(s.roots + [m]) + [] == FlattenAll(s.roots) + [] + Flatten(m);
    } else {
      var n := |s.frames| - 1;
      var top := s.frames[n].(children := s.frames[n].children + [m]);
      var after := s.frames[..n] + [top];
      FlattenAppend(s.frames[n].children, m);
      assert after[..n] == s.frames[..n] && after[n] == top;
      assert FrameSound(s.frames[n]);
      FrameGrows(s.frames[n], m);
      forall k | 0 <= k < |after| ensures FrameSound(after[k]) {
        if k < n { assert after[k] == s.frames[k]; }
      }
    }
  }

  lemma FrameGrows(f: Frame, m: Markup)
    requires FrameSound(f) && WellFormed(m)
    ensures FrameSound(f.(children := f.children + [m]))
  {
    hide WellFormed, Attributes;
  }

  /** Every step reads its token. */
  lemma StepTokens(s: State, t: Token)
    requires Sound(s) && Step(s, t).Some?
    ensures Sound(Step(s, t).value) && StateTokens(Step(s, t).value) == StateTokens(s) + [t]
  {
    hide Add, Sound, StateTokens, Attributes;
    match t
    case Open(tag, raw, selfClosing) =>
      if selfClosing { AddTokens(s, Markup(tag, raw, true, [])); } else { OpenTokens(s, tag, raw); }
    case Close(tag) =>
      CloseTokens(s, tag);
      var n := |s.frames| - 1;
      AddTokens(State(s.frames[..n], s.roots), Markup(tag, s.frames[n].raw, false, s.frames[n].children));
  }

  lemma OpenTokens(s: State, tag: string, raw: seq<Attr>)
    requires Sound(s) && Attributes(raw).Some?
    ensures var after := State(s.frames + [Frame(tag, raw, [])], s.roots);
            Sound(after) && StateTokens(after) == StateTokens(s) + [Open(tag, raw, false)]
  {
    hide Attributes, WellFormed;
    var after := s.frames + [Frame(tag, raw, [])];
    assert after[..|s.frames|] == s.frames;
    assert FramesTokens(after) == FramesTokens(s.frames) + [Open(tag, raw, false)] + [];
  }

  lemma CloseTokens(s: State, tag: string)
    requires Sound(s) && s.frames != [] && s.frames[|s.frames| - 1].tag == tag
    ensures var n := |s.frames| - 1;
            var below := State(s.frames[..n], s.roots);
            var m := Markup(tag, s.frames[n].raw, false, s.frames[n].children);
            Sound(below) && WellFormed(m) && StateTokens(s) + [Close(tag)] == StateTokens(below) + Flatten(m)
  {
    hide Attributes;
    var n := |s.frames| - 1;
    var top := s.frames[n];
    assert FrameSound(top);
    var m := Markup(tag, top.raw, false, top.children);
    assert Flatten(m) == [Open(tag, top.raw, false)] + (FlattenAll(top.children) + [Close(tag)]);
    hide WellFormed, Flatten;
    assert FramesTokens(s.frames) ==
           FramesTokens(s.frames[..n]) + [Open(tag, top.raw, false)] + FlattenAll(top.children);
  }

  lemma {:induction false} RunTokens(s: State, tokens: seq<Token>)
    requires Sound(s) && Run(s, tokens).Some?
    ensures Sound(Run(s, tokens).value) && StateTokens(Run(s, tokens).value) == StateTokens(s) + tokens
    decreases |tokens|
  {
    hide Step, Sound, StateTokens;
    if tokens != [] {
      StepTokens(s, tokens[0]);
      RunTokens(Step(s, tokens[0]).value, tokens[1..]);
      assert tokens == [tokens[0]] + tokens[1..];
    }
  }

  // ---- The parser's answer ----

  /** What `parseCanonicalRos` returns for a token sequence. */
  function Accept(tokens: seq<Token>): Option<Tree> {
    var end := Run(INITIAL, tokens);
    if end.None? || !Done(end.value) || !AllWellFormed(end.value.roots) then None else Some(Meaning(end.value.roots[0]))
  }

  ghost predicate IsMarkupOf(m: Markup, tokens: seq<Token>, t: Tree) {
    WellFormed(m) && Flatten(m) == tokens && Meaning(m) == t
  }

  lemma RunSound(tokens: seq<Token>)
    requires Run(INITIAL, tokens).Some?
    ensures AllWellFormed(Run(INITIAL, tokens).value.roots)
    ensures Done(Run(INITIAL, tokens).value) ==> Flatten(Run(INITIAL, tokens).value.roots[0]) == tokens
  {
    assert StateTokens(INITIAL) == [];
    RunTokens(INITIAL, tokens);
    var end := Run(INITIAL, tokens).value;
    if Done(end) {
      assert FlattenAll(end.roots) == Flatten(end.roots[0]) + FlattenAll(end.roots[1..]);
      assert [] + tokens == tokens;
    }
  }

  /** A token sequence is accepted exactly when it is the markup of one tree, and that tree is the answer. */
  lemma AcceptIff(tokens: seq<Token>, t: Tree)
    ensures Accept(tokens) == Some(t) <==> exists m :: IsMarkupOf(m, tokens, t)
  {
    if Accept(tokens) == Some(t) {
      RunSound(tokens);
      assert IsMarkupOf(Run(INITIAL, tokens).value.roots[0], tokens, t);
    }
    if m :| IsMarkupOf(m, tokens, t) {
      RunFlatten(INITIAL, m, []);
      assert Flatten(m) + [] == tokens;
      assert Add(INITIAL, m) == State([], [m]);
    }
  }

  // ---- Printing ----

  /** Attributes written in some order, each escaped. */
  function Written(names: seq<string>, attributes: map<string, string>): seq<Attr>
    requires forall k :: k in names ==> k in attributes
  {
    if names == [] then []
    else Written(names[..|names| - 1], attributes) + [Attr(names[|names| - 1], Escape(attributes[names[|names| - 1]]))]
  }

  lemma {:induction false} WrittenRead(names: seq<string>, attributes: map<string, string>)
    requires (forall k :: k in names ==> k in attributes) && NoRepeats(names)
    ensures Attributes(Written(names, attributes)).Some?
    ensures forall k :: k in Attributes(Written(names, attributes)).value <==> k in names
    ensures forall k :: k in names ==> Attributes(Written(names, attributes)).value[k] == attributes[k]
  {
    if names == [] {
      assert Written(names, attributes) == [];
    } else {
      var n := |names| - 1;
      assert names == names[..n] + [names[n]];
      WrittenRead(names[..n], attributes);
      WrittenStep(names, attributes);
      hide Attributes, Written;
      OneMoreName(Attributes(Written(names[..n], attributes)).value, names, attributes);
    }
  }

  lemma WrittenStep(names: seq<string>, attributes: map<string, string>)
    requires names != [] && forall k :: k in names ==> k in attributes
    ensures var n, last := |names| - 1, names[|names| - 1];
            && (forall k :: k in names[..n] ==> k in attributes)
            && var before := Attributes(Written(names[..n], attributes));
               Attributes(Written(names, attributes)) ==
                 if before.None? || last in before.value then None else Some(before.value[last := attributes[last]])
  {
    var n := |names| - 1;
    var x := Attr(names[n], Escape(attributes[names[n]]));
    DecodeEscape(attributes[names[n]]);
    hide Decode, Escape, Attributes;
    assert Written(names, attributes) == Written(names[..n], attributes) + [x];
    hide Written;
    AttributesStep(Written(names[..n], attributes), x);
  }

  lemma OneMoreName(before: map<string, string>, names: seq<string>, attributes: map<string, string>)
    requires names != [] && (forall k :: k in names ==> k in attributes) && NoRepeats(names)
    requires forall k :: k in before <==> k in names[..|names| - 1]
    requires forall k :: k in before ==> before[k] == attributes[k]
    ensures names[|names| - 1] !in before
    ensures var after := before[names[|names| - 1] := attributes[names[|names| - 1]]];
            (forall k :: k in after <==> k in names) && forall k :: k in names ==> after[k] == attributes[k]
  {
    var n := |names| - 1;
    assert names == names[..n] + [names[n]];
    assert forall i :: 0 <= i < n ==> names[..n][i] == names[i] != names[n];
  }

  lemma AttributesStep(raw: seq<Attr>, last: Attr)
    ensures var before := Attributes(raw);
            Attributes(raw + [last]) ==
              if before.None? || last.name in before.value || Decode(last.raw).None? then None
              else Some(before.value[last.name := Decode(last.raw).value])
  {
    hide Decode;
    assert (raw + [last])[..|raw|] == raw;
  }

  /** A printer: `names` lists the attributes of every element in the order they are written. */
  ghost predicate Prints(m: Markup, t: Tree) {
    && m.tag == t.tag && |m.children| == |t.children| && (m.selfClosing ==> m.children == [])
    && (exists names :: NamesOf(names, t.attributes) && m.raw == Written(names, t.attributes))
    && forall i :: 0 <= i < |m.children| ==> Prints(m.children[i], t.children[i])
  }

  ghost predicate NamesOf(names: seq<string>, attributes: map<string, string>) {
    (forall k :: k in names <==> k in attributes) && NoRepeats(names)
  }

  lemma AllRead(names: seq<string>, attributes: map<string, string>)
    requires NamesOf(names, attributes)
    ensures Attributes(Written(names, attributes)) == Some(attributes)
  {
    WrittenRead(names, attributes);
    hide Written, Attributes, NoRepeats;
    assert Attributes(Written(names, attributes)).value == attributes;
  }

  lemma {:induction false} PrintedMeaning(m: Markup, t: Tree)
    requires Prints(m, t)
    ensures WellFormed(m) && Meaning(m) == t
  {
    var names :| NamesOf(names, t.attributes) && m.raw == Written(names, t.attributes);
    AllRead(names, t.attributes);
    hide Written, Attributes, NamesOf;
    forall i | 0 <= i < |m.children| ensures WellFormed(m.children[i]) && Meaning(m.children[i]) == t.children[i] {
      PrintedMeaning(m.children[i], t.children[i]);
    }
    assert Meaning(m).children == t.children;
  }

  /** Reading what any such printer writes gives the tree back. */
  lemma PrintedIsRead(m: Markup, t: Tree)
    requires Prints(m, t)
    ensures Accept(Flatten(m)) == Some(t)
  {
    PrintedMeaning(m, t);
    AcceptIff(Flatten(m), t);
    assert IsMarkupOf(m, Flatten(m), t);
  }

  /** One such printer. */
  ghost function Print(t: Tree): Markup {
    Markup(t.tag, Written(Listed(t.attributes.Keys), t.attributes), t.children == [],
           seq(|t.children|, i requires 0 <= i < |t.children| => Print(t.children[i])))
  }

  /** Every tree can be printed and read back. */
  lemma {:induction false} PrintRead(t: Tree)
    ensures Prints(Print(t), t) && Accept(Flatten(Print(t))) == Some(t)
  {
    forall i | 0 <= i < |t.children| ensures Prints(Print(t).children[i], t.children[i]) { PrintRead(t.children[i]); }
    assert NamesOf(Listed(t.attributes.Keys), t.attributes);
    PrintedIsRead(Print(t), t);
  }
}
