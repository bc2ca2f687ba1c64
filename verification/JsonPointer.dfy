/**
  lib/rosterpilot/combat-corpus-conformance.ts:676-687: JSON pointers (sections 3 and 4 of
  RFC 6901) and why they name positions without ambiguity.
 */
module JsonPointer {
  import opened Wrappers

  datatype Segment = Key(name: string) | Index(position: nat)

  const DIGITS := "0123456789"

  /** `String(n)` of an index. */
  function Decimal(n: nat): string {
    if n < 10 then [DIGITS[n]] else Decimal(n / 10) + [DIGITS[n % 10]]
  }

  /** Reading digits back, the first one being the highest. */
  function Reading(s: string): int {
    if s == "" then 0 else Reading(s[..|s| - 1]) * 10 + (s[|s| - 1] as int - '0' as int)
  }

  /** An index is written in digits that read as that number, without a leading zero. */
  lemma {:induction false} DecimalReads(n: nat)
    ensures forall c :: c in Decimal(n) ==> '0' <= c <= '9'
    ensures Reading(Decimal(n)) == n && Decimal(n) != "" && (Decimal(n)[0] == '0' ==> n == 0 && |Decimal(n)| == 1)
  {
    var d := n % 10;
    DigitIs(d);
    if n >= 10 {
      DecimalReads(n / 10);
      assert Decimal(n)[..|Decimal(n)| - 1] == Decimal(n / 10);
    } else {
      assert Decimal(n)[..0] == "";
    }
  }

  lemma DigitIs(d: nat)
    requires d < 10
    ensures '0' <= DIGITS[d] <= '9' && DIGITS[d] as int - '0' as int == d
  {}

  lemma DigitsDiffer(i: nat, j: nat)
    requires i < 10 && j < 10 && DIGITS[i] == DIGITS[j]
    ensures i == j
  {}

  lemma {:induction false} DecimalInjective(m: nat, n: nat)
    requires Decimal(m) == Decimal(n)
    ensures m == n
  {
    var a, b := Decimal(m), Decimal(n);
    assert a[|a| - 1] == DIGITS[m % 10] && b[|b| - 1] == DIGITS[n % 10];
    DigitsDiffer(m % 10, n % 10);
    assert a[..|a| - 1] == (if m < 10 then "" else Decimal(m / 10));
    assert b[..|b| - 1] == (if n < 10 then "" else Decimal(n / 10));
    DecimalNotEmpty(m / 10);
    DecimalNotEmpty(n / 10);
    if m >= 10 && n >= 10 { DecimalInjective(m / 10, n / 10); }
  }

  lemma {:induction false} DecimalNotEmpty(n: nat)
    ensures Decimal(n) != "" && forall c :: c in Decimal(n) ==> c != '/' && c != '~'
  {
    if n >= 10 { DecimalNotEmpty(n / 10); }
  }

  function Text(s: Segment): string { if s.Key? then s.name else Decimal(s.position) }

  /** `replaceAll("~", "~0").replaceAll("/", "~1")`, in two passes as written. */
  function EscapeTilde(s: string): string {
    if s == "" then "" else (if s[0] == '~' then "~0" else [s[0]]) + EscapeTilde(s[1..])
  }

  function EscapeSlash(s: string): string {
    if s == "" then "" else (if s[0] == '/' then "~1" else [s[0]]) + EscapeSlash(s[1..])
  }

  function Escape(s: string): string { EscapeSlash(EscapeTilde(s)) }

  /** Section 4: reading a token back. */
  function Unescape(s: string): string {
    if s == "" then ""
    else if |s| >= 2 && s[0] == '~' && s[1] == '1' then "/" + Unescape(s[2..])
    else if |s| >= 2 && s[0] == '~' && s[1] == '0' then "~" + Unescape(s[2..])
    else [s[0]] + Unescape(s[1..])
  }

  lemma EscapeSlashCons(c: char, rest: string)
    ensures EscapeSlash([c] + rest) == (if c == '/' then "~1" else [c]) + EscapeSlash(rest)
  {
    assert ([c] + rest)[1..] == rest;
  }

  lemma UnescapeCons(c: char, rest: string)
    ensures c != '~' ==> Unescape([c] + rest) == [c] + Unescape(rest)
    ensures Unescape("~1" + rest) == "/" + Unescape(rest)
    ensures Unescape("~0" + rest) == "~" + Unescape(rest)
  {
    assert ([c] + rest)[1..] == rest && ("~1" + rest)[2..] == rest && ("~0" + rest)[2..] == rest;
  }

  lemma EscapeTildeCons(c: char, rest: string)
    ensures EscapeTilde([c] + rest) == (if c == '~' then "~0" else [c]) + EscapeTilde(rest)
  {
    assert ([c] + rest)[1..] == rest;
  }

  /** One character of a token, escaped in both passes and read back. */
  lemma RoundTripCons(c: char, rest: string)
    ensures Unescape(Escape([c] + rest)) == [c] + Unescape(Escape(rest))
  {
    hide Unescape, EscapeSlash, EscapeTilde;
    var inner := EscapeTilde(rest);
    EscapeTildeCons(c, rest);
    UnescapeCons(c, EscapeSlash(inner));
    if c == '~' {
      EscapeSlashCons('0', inner);
      EscapeSlashCons('~', "0" + inner);
      assert "~0" + inner == "~" + ("0" + inner);
      assert Escape([c] + rest) == "~0" + EscapeSlash(inner);
    } else {
      EscapeSlashCons(c, inner);
    }
  }

  /** Reading an escaped token back gives the token, so escaping is injective. */
  lemma {:induction false} UnescapeEscape(s: string)
    ensures Unescape(Escape(s)) == s
  {
    if s != "" {
      hide Unescape, Escape;
      UnescapeEscape(s[1..]);
      assert s == [s[0]] + s[1..];
      RoundTripCons(s[0], s[1..]);
    }
  }

  lemma {:induction false} EscapeSlashHasNone(s: string)
    ensures '/' !in EscapeSlash(s)
  {
    if s != "" { EscapeSlashHasNone(s[1..]); }
  }

  /** `appendJsonPointer(base, segments)` is `base + Render(segments)`. */
  function Render(segments: seq<Segment>): string {
    if segments == [] then "" else "/" + Escape(Text(segments[0])) + Render(segments[1..])
  }

  /** What may follow a complete token: nothing, or the next one. */
  predicate Continues(s: string) { s == "" || s[0] == '/' }

  lemma RenderContinues(segments: seq<Segment>)
    ensures Continues(Render(segments))
  {}

  lemma {:induction false} SplitAtSlash(a: string, b: string, u: string, v: string)
    requires '/' !in a && '/' !in b && Continues(u) && Continues(v) && a + u == b + v
    ensures a == b && u == v
  {
    assert a != "" ==> a[0] in a && (a + u)[0] == a[0];
    assert b != "" ==> b[0] in b && (b + v)[0] == b[0];
    assert a == "" ==> a + u == u;
    assert b == "" ==> b + v == v;
    if a != "" && b != "" {
      assert a[1..] + u == (a + u)[1..] && b[1..] + v == (b + v)[1..];
      SplitAtSlash(a[1..], b[1..], u, v);
      assert a == [a[0]] + a[1..] && b == [b[0]] + b[1..];
    }
  }

  /** The first token of two equal pointers is the same token. */
  lemma FirstToken(s: Segment, t: Segment, u: string, v: string)
    requires Continues(u) && Continues(v)
    requires "/" + Escape(Text(s)) + u == "/" + Escape(Text(t)) + v
    ensures Text(s) == Text(t) && u == v
  {
    var a, b := Escape(Text(s)), Escape(Text(t));
    EscapeSlashHasNone(EscapeTilde(Text(s)));
    EscapeSlashHasNone(EscapeTilde(Text(t)));
    assert ("/" + a + u)[1..] == a + u && ("/" + b + v)[1..] == b + v;
    SplitAtSlash(a, b, u, v);
    UnescapeEscape(Text(s));
    UnescapeEscape(Text(t));
  }

  /** Two positions under one node that part at some segment. */
  ghost predicate Apart(a: seq<Segment>, b: seq<Segment>) {
    exists k :: 0 <= k < |a| && k < |b| && Text(a[k]) != Text(b[k])
  }

  lemma RenderTail(a: seq<Segment>, u: string)
    requires a != [] && Continues(u)
    ensures Render(a) + u == "/" + Escape(Text(a[0])) + (Render(a[1..]) + u)
    ensures Continues(Render(a[1..]) + u)
  {
    hide Escape, Text;
    var first, rest := "/" + Escape(Text(a[0])), Render(a[1..]);
    assert Render(a) == first + rest;
    assert (first + rest) + u == first + (rest + u);
  }

  /** Where two pointers agree, their segments agree one by one. */
  lemma {:induction false} SegmentsAgree(a: seq<Segment>, b: seq<Segment>, u: string, v: string)
    requires Continues(u) && Continues(v) && Render(a) + u == Render(b) + v
    ensures forall k :: 0 <= k < |a| && k < |b| ==> Text(a[k]) == Text(b[k])
  {
    hide Render, Escape, Text, Continues;
    if a != [] && b != [] {
      RenderTail(a, u);
      RenderTail(b, v);
      FirstToken(a[0], b[0], Render(a[1..]) + u, Render(b[1..]) + v);
      SegmentsAgree(a[1..], b[1..], u, v);
      forall k | 0 <= k < |a| && k < |b| ensures Text(a[k]) == Text(b[k]) {
        if k > 0 { assert a[k] == a[1..][k - 1] && b[k] == b[1..][k - 1]; }
      }
    }
  }

  /** Pointers that part never meet again, whatever follows. */
  lemma ApartStaysApart(a: seq<Segment>, b: seq<Segment>, u: string, v: string)
    requires Apart(a, b) && Continues(u) && Continues(v)
    ensures Render(a) + u != Render(b) + v
  {
    if Render(a) + u == Render(b) + v { SegmentsAgree(a, b, u, v); }
  }

  /** Rendering is injective on segment texts: equal pointers have equal token lists. */
  lemma {:induction false} RenderInjective(a: seq<Segment>, b: seq<Segment>)
    requires Render(a) == Render(b)
    ensures |a| == |b| && forall k :: 0 <= k < |a| ==> Text(a[k]) == Text(b[k])
  {
    if a != [] && b != [] {
      hide Escape, Text, Continues;
      RenderContinues(a[1..]);
      RenderContinues(b[1..]);
      FirstToken(a[0], b[0], Render(a[1..]), Render(b[1..]));
      RenderInjective(a[1..], b[1..]);
      forall k | 0 <= k < |a| ensures Text(a[k]) == Text(b[k]) {
        if k > 0 { assert a[k] == a[1..][k - 1] && b[k] == b[1..][k - 1]; }
      }
    }
  }
}
