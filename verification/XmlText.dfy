/**
  lib/rosterpilot/certification.ts:2106-2118, `decodeCanonicalXmlAttribute`: five replacements, one
  entity after the other, against the predefined entities of section 4.6 of XML 1.0.
 */
module XmlText {
  import opened Wrappers

  datatype Entity = Quot | Apos | Lt | Gt | Amp

  function Name(e: Entity): string {
    match e case Quot => "&quot;" case Apos => "&apos;" case Lt => "&lt;" case Gt => "&gt;" case Amp => "&amp;"
  }

  function Character(e: Entity): char {
    match e case Quot => '\"' case Apos => '\'' case Lt => '<' case Gt => '>' case Amp => '&'
  }

  predicate Starts(s: string, prefix: string) { |s| >= |prefix| && s[..|prefix|] == prefix }

  /** The entity a text begins with, if it does. */
  function Leading(s: string): Option<Entity> {
    if Starts(s, "&quot;") then Some(Quot)
    else if Starts(s, "&apos;") then Some(Apos)
    else if Starts(s, "&lt;") then Some(Lt)
    else if Starts(s, "&gt;") then Some(Gt)
    else if Starts(s, "&amp;") then Some(Amp)
    else None
  }

  /** No `&` other than at the start of one of the five entities. */
  predicate Accepted(s: string) { s == "" || ((s[0] == '&' ==> Leading(s).Some?) && Accepted(s[1..])) }

  /** `s.replaceAll(from, to)`. */
  function ReplaceAll(s: string, from: string, to: string): string
    requires from != ""
  {
    if s == "" then ""
    else if Starts(s, from) then to + ReplaceAll(s[|from|..], from, to)
    else [s[0]] + ReplaceAll(s[1..], from, to)
  }

  function Replace(s: string, e: Entity): string { ReplaceAll(s, Name(e), [Character(e)]) }

  /** `decodeCanonicalXmlAttribute`. */
  function Decode(s: string): Option<string> {
    if !Accepted(s) then None else Some(Replace(Replace(Replace(Replace(Replace(s, Quot), Apos), Lt), Gt), Amp))
  }

  // ---- Texts as pieces ----

  datatype Piece = Plain(c: char) | Ref(e: Entity)

  function PieceText(p: Piece): string { if p.Plain? then [p.c] else Name(p.e) }

  function Text(pieces: seq<Piece>): string {
    if pieces == [] then "" else PieceText(pieces[0]) + Text(pieces[1..])
  }

  /** What the pieces stand for: each reference is its character. */
  function Value(pieces: seq<Piece>): string {
    if pieces == [] then "" else [if pieces[0].Plain? then pieces[0].c else Character(pieces[0].e)] + Value(pieces[1..])
  }

  predicate NoPlainAmp(pieces: seq<Piece>) { forall i :: 0 <= i < |pieces| ==> pieces[i] != Plain('&') }

  function Substitute(pieces: seq<Piece>, e: Entity): seq<Piece> {
    if pieces == [] then []
    else [if pieces[0] == Ref(e) then Plain(Character(e)) else pieces[0]] + Substitute(pieces[1..], e)
  }

  /** The pieces of an accepted text. */
  function Pieces(s: string): seq<Piece>
    requires Accepted(s)
  {
    if s == "" then []
    else if s[0] == '&' then
      RestAccepted(s, |Name(Leading(s).value)|);
      [Ref(Leading(s).value)] + Pieces(s[|Name(Leading(s).value)|..])
    else [Plain(s[0])] + Pieces(s[1..])
  }

  lemma {:induction false} RestAccepted(s: string, n: nat)
    requires Accepted(s) && n <= |s|
    ensures Accepted(s[n..])
  {
    if n > 0 {
      RestAccepted(s[1..], n - 1);
      assert s[1..][n - 1..] == s[n..];
    }
  }

  lemma {:induction false} PiecesText(s: string)
    requires Accepted(s)
    ensures Text(Pieces(s)) == s && NoPlainAmp(Pieces(s))
    decreases |s|
  {
    if s != "" {
      if s[0] == '&' {
        var n := |Name(Leading(s).value)|;
        LeadingStarts(s);
        NameShape(Leading(s).value);
        hide Leading, Name;
        RestAccepted(s, n);
        PiecesText(s[n..]);
        assert s == s[..n] + s[n..];
      } else {
        PiecesText(s[1..]);
        assert s == [s[0]] + s[1..];
      }
    }
  }

  // ---- One replacement ----

  /** Characters before the next `&` are copied. */
  lemma {:induction false} Copied(prefix: string, rest: string, from: string, to: string)
    requires from != "" && from[0] == '&' && '&' !in prefix
    ensures ReplaceAll(prefix + rest, from, to) == prefix + ReplaceAll(rest, from, to)
  {
    if prefix == "" {
      assert prefix + rest == rest;
    } else {
      var s := prefix + rest;
      assert s[0] == prefix[0] && prefix[0] in prefix && s[1..] == prefix[1..] + rest;
      Copied(prefix[1..], rest, from, to);
      assert prefix == [prefix[0]] + prefix[1..];
    }
  }

  /** The first three characters tell the entities apart. */
  lemma NameDetermined(s: string, d: Entity, e: Entity)
    requires Starts(s, Name(d)) && Starts(s, Name(e))
    ensures d == e
  {
    var m, n := Name(d), Name(e);
    assert s[..|m|][1] == s[1] && s[..|m|][2] == s[2];
    assert s[..|n|][1] == s[1] && s[..|n|][2] == s[2];
    assert m[1] == n[1] && m[2] == n[2];
  }

  lemma NameShape(e: Entity)
    ensures |Name(e)| >= 4 && Name(e)[0] == '&' && '&' !in Name(e)[1..] && Name(e) == [Name(e)[0]] + Name(e)[1..]
  {}

  /** Another entity's name is copied. */
  lemma OtherCopied(e: Entity, other: Entity, rest: string)
    requires e != other
    ensures Replace(Name(other) + rest, e) == Name(other) + Replace(rest, e)
  {
    var s, n := Name(other) + rest, Name(other);
    NameShape(other);
    NameShape(e);
    hide Name;
    assert s[..|n|] == n && s[0] == n[0] && s[1..] == n[1..] + rest;
    if Starts(s, Name(e)) { NameDetermined(s, e, other); }
    Copied(n[1..], rest, Name(e), [Character(e)]);
  }

  lemma SameReplaced(e: Entity, rest: string)
    ensures Replace(Name(e) + rest, e) == [Character(e)] + Replace(rest, e)
  {
    var s, n := Name(e) + rest, |Name(e)|;
    assert s[..n] == Name(e) && s[n..] == rest;
  }

  /** Replacing one entity in a text turns its references, and nothing else, into its character. */
  lemma {:induction false} ReplaceIsSubstitute(pieces: seq<Piece>, e: Entity)
    requires NoPlainAmp(pieces)
    ensures Replace(Text(pieces), e) == Text(Substitute(pieces, e))
  {
    if pieces != [] {
      var first, rest := pieces[0], Text(pieces[1..]);
      assert forall i :: 0 <= i < |pieces[1..]| ==> pieces[1..][i] == pieces[i + 1];
      ReplaceIsSubstitute(pieces[1..], e);
      hide Name, Replace;
      if first == Ref(e) {
        SameReplaced(e, rest);
      } else if first.Ref? {
        OtherCopied(e, first.e, rest);
      } else {
        PlainCopied(first.c, rest, e);
      }
    }
  }

  lemma PlainCopied(c: char, rest: string, e: Entity)
    requires c != '&'
    ensures Replace([c] + rest, e) == [c] + Replace(rest, e)
  {
    Copied([c], rest, Name(e), [Character(e)]);
  }

  lemma {:induction false} SubstituteFacts(pieces: seq<Piece>, e: Entity)
    requires NoPlainAmp(pieces)
    ensures Value(Substitute(pieces, e)) == Value(pieces)
    ensures e != Amp ==> NoPlainAmp(Substitute(pieces, e))
    ensures forall i :: 0 <= i < |Substitute(pieces, e)| ==> Substitute(pieces, e)[i] != Ref(e)
    ensures forall d :: (forall i :: 0 <= i < |pieces| ==> pieces[i] != Ref(d)) ==>
              forall i :: 0 <= i < |Substitute(pieces, e)| ==> Substitute(pieces, e)[i] != Ref(d)
  {
    SubstituteEach(pieces, e);
    SubstituteValue(pieces, e);
    var after := Substitute(pieces, e);
    if e != Amp {
      forall i | 0 <= i < |after| ensures after[i] != Plain('&') { assert pieces[i] != Plain('&'); }
    }
  }

  lemma {:induction false} SubstituteEach(pieces: seq<Piece>, e: Entity)
    ensures |Substitute(pieces, e)| == |pieces|
    ensures forall i :: 0 <= i < |pieces| ==>
              Substitute(pieces, e)[i] == if pieces[i] == Ref(e) then Plain(Character(e)) else pieces[i]
  {
    if pieces != [] {
      SubstituteEach(pieces[1..], e);
      forall i | 0 <= i < |pieces|
        ensures Substitute(pieces, e)[i] == if pieces[i] == Ref(e) then Plain(Character(e)) else pieces[i] {
        if i > 0 { assert pieces[i] == pieces[1..][i - 1]; }
      }
    }
  }

  lemma {:induction false} SubstituteValue(pieces: seq<Piece>, e: Entity)
    ensures Value(Substitute(pieces, e)) == Value(pieces)
  {
    if pieces != [] { SubstituteValue(pieces[1..], e); }
  }

  /** Without references a text is its value. */
  lemma {:induction false} PlainText(pieces: seq<Piece>)
    requires forall i :: 0 <= i < |pieces| ==> pieces[i].Plain?
    ensures Text(pieces) == Value(pieces)
  {
    if pieces != [] { PlainText(pieces[1..]); }
  }

  predicate Free(pieces: seq<Piece>, e: Entity) { forall i :: 0 <= i < |pieces| ==> pieces[i] != Ref(e) }

  lemma SubstituteFrees(pieces: seq<Piece>, e: Entity)
    requires NoPlainAmp(pieces)
    ensures Value(Substitute(pieces, e)) == Value(pieces) && Free(Substitute(pieces, e), e)
    ensures e != Amp ==> NoPlainAmp(Substitute(pieces, e))
    ensures forall d :: Free(pieces, d) ==> Free(Substitute(pieces, e), d)
  {
    SubstituteFacts(pieces, e);
  }

  /** The five replacements in turn read every reference of an accepted text once, as one pass would. */
  lemma DecodeIsOnePass(s: string)
    requires Accepted(s)
    ensures Decode(s) == Some(Value(Pieces(s)))
  {
    PiecesText(s);
    hide Pieces, Text, Value, Substitute, Replace, Free, NoPlainAmp;
    var p0 := Pieces(s);
    var p1 := Substitute(p0, Quot);
    var p2 := Substitute(p1, Apos);
    var p3 := Substitute(p2, Lt);
    var p4 := Substitute(p3, Gt);
    var p5 := Substitute(p4, Amp);
    SubstituteFrees(p0, Quot);
    SubstituteFrees(p1, Apos);
    SubstituteFrees(p2, Lt);
    SubstituteFrees(p3, Gt);
    SubstituteFrees(p4, Amp);
    ReplaceIsSubstitute(p0, Quot);
    ReplaceIsSubstitute(p1, Apos);
    ReplaceIsSubstitute(p2, Lt);
    ReplaceIsSubstitute(p3, Gt);
    ReplaceIsSubstitute(p4, Amp);
    FreeMeansPlain(p5);
    PlainText(p5);
  }

  lemma FreeMeansPlain(pieces: seq<Piece>)
    requires Free(pieces, Quot) && Free(pieces, Apos) && Free(pieces, Lt) && Free(pieces, Gt) && Free(pieces, Amp)
    ensures forall i :: 0 <= i < |pieces| ==> pieces[i].Plain?
  {
    forall i | 0 <= i < |pieces| ensures pieces[i].Plain? {
      if pieces[i].Ref? { match pieces[i].e { case Quot => case Apos => case Lt => case Gt => case Amp => } }
    }
  }

  // ---- Escaping ----

  function EscapeChar(c: char): Piece {
    if c == '\"' then Ref(Quot)
    else if c == '\'' then Ref(Apos)
    else if c == '<' then Ref(Lt)
    else if c == '>' then Ref(Gt)
    else if c == '&' then Ref(Amp)
    else Plain(c)
  }

  function EscapePieces(s: string): seq<Piece> {
    if s == "" then [] else [EscapeChar(s[0])] + EscapePieces(s[1..])
  }

  /** A text with its five special characters written as entities. */
  function Escape(s: string): string { Text(EscapePieces(s)) }

  lemma {:induction false} PiecesUnique(pieces: seq<Piece>)
    requires NoPlainAmp(pieces)
    ensures Accepted(Text(pieces)) && Pieces(Text(pieces)) == pieces
  {
    if pieces != [] {
      var first, rest := pieces[0], pieces[1..];
      assert forall i :: 0 <= i < |rest| ==> rest[i] == pieces[i + 1];
      PiecesUnique(rest);
      var s := Text(pieces);
      if first.Plain? {
        assert s[1..] == Text(rest);
      } else {
        LeadingName(first.e, Text(rest));
        NameAccepted(first.e, Text(rest));
        assert s[|Name(first.e)|..] == Text(rest);
      }
      assert pieces == [first] + rest;
    }
  }

  lemma LeadingName(e: Entity, rest: string)
    ensures Leading(Name(e) + rest) == Some(e)
  {
    var s, n := Name(e) + rest, Name(e);
    assert s[..|n|] == n;
    LeadingStarts(s);
    assert Leading(s).Some? by { match e { case Quot => case Apos => case Lt => case Gt => case Amp => } }
    NameDetermined(s, e, Leading(s).value);
  }

  lemma LeadingStarts(s: string)
    ensures Leading(s).Some? ==> Starts(s, Name(Leading(s).value))
  {}

  lemma NameAccepted(e: Entity, rest: string)
    requires Accepted(rest)
    ensures Accepted(Name(e) + rest)
  {
    var s, n := Name(e) + rest, Name(e);
    LeadingName(e, rest);
    assert s[1..] == n[1..] + rest;
    TailAccepted(n[1..], rest);
  }

  lemma {:induction false} TailAccepted(prefix: string, rest: string)
    requires '&' !in prefix && Accepted(rest)
    ensures Accepted(prefix + rest)
  {
    if prefix == "" {
      assert prefix + rest == rest;
    } else {
      var s := prefix + rest;
      assert s[0] == prefix[0] && prefix[0] in prefix && s[1..] == prefix[1..] + rest;
      TailAccepted(prefix[1..], rest);
    }
  }

  lemma {:induction false} EscapeFacts(s: string)
    ensures NoPlainAmp(EscapePieces(s)) && Value(EscapePieces(s)) == s
  {
    if s != "" {
      EscapeFacts(s[1..]);
      assert s == [s[0]] + s[1..];
    }
  }

  /** Decoding undoes escaping, for every text. */
  lemma DecodeEscape(s: string)
    ensures Decode(Escape(s)) == Some(s)
  {
    EscapeFacts(s);
    PiecesUnique(EscapePieces(s));
    DecodeIsOnePass(Escape(s));
  }
}
