/**
  local/agent/framing.ts:3-31: length-prefixed frames, and a decoder fed with chunks cut anywhere.
 */
module Framing {
  import opened Sequences
  import opened ByteTypes
  import opened Wrappers

  /** local/agent/contracts.ts:23. */
  const MAX_FRAME_BYTES := 33554432

  /** `JSON.stringify` and `JSON.parse` with UTF-8 around them. */
  datatype Codec<!V> = Codec(encode: V -> seq<Byte>, decode: seq<Byte> -> Option<V>)

  ghost predicate Exact<V(!new)>(c: Codec<V>) { forall v :: c.decode(c.encode(v)) == Some(v) }

  // ---- Frames ----

  /** `writeUInt32BE`. */
  function Header(n: nat): (h: seq<Byte>)
    requires n < 0x1_0000_0000
    ensures |h| == 4
  {
    [n / 0x100_0000, n / 0x1_0000 % 256, n / 0x100 % 256, n % 256]
  }

  /** `readUInt32BE(0)`. */
  function ReadLength(buffer: seq<Byte>): nat
    requires |buffer| >= 4
  {
    buffer[0] as nat * 0x100_0000 + buffer[1] as nat * 0x1_0000 + buffer[2] as nat * 0x100 + buffer[3] as nat
  }

  lemma HeaderRead(n: nat, rest: seq<Byte>)
    requires n < 0x1_0000_0000
    ensures ReadLength(Header(n) + rest) == n
  {
    var b := Header(n) + rest;
    assert b[0] == n / 0x100_0000 && b[1] == n / 0x1_0000 % 256 && b[2] == n / 0x100 % 256 && b[3] == n % 256;
    assert n / 0x1_0000 == 256 * (n / 0x100_0000) + n / 0x1_0000 % 256;
    assert n / 0x100 == 256 * (n / 0x1_0000) + n / 0x100 % 256;
    assert n == 256 * (n / 0x100) + n % 256;
  }

  predicate Fits<V>(c: Codec<V>, v: V) { |c.encode(v)| <= MAX_FRAME_BYTES }

  function Frame<V>(c: Codec<V>, v: V): (f: seq<Byte>)
    requires Fits(c, v)
    ensures |f| == 4 + |c.encode(v)|
  {
    Header(|c.encode(v)|) + c.encode(v)
  }

  datatype FrameError = TooLarge | Malformed

  /** `encodeFrame`. */
  function EncodeFrame<V>(c: Codec<V>, v: V): Result<seq<Byte>, FrameError> {
    if |c.encode(v)| > MAX_FRAME_BYTES then Err(TooLarge) else Ok(Header(|c.encode(v)|) + c.encode(v))
  }

  // ---- The decoder ----

  /** What one run over a buffer takes out of it, what it leaves, and how it stops. */
  datatype Drained<V> = Drained(values: seq<V>, rest: seq<Byte>, error: Option<FrameError>)

  function Drain<V>(c: Codec<V>, buffer: seq<Byte>): Drained<V>
    decreases |buffer|
  {
    if |buffer| < 4 then Drained([], buffer, None)
    else
      var length := ReadLength(buffer);
      if length > MAX_FRAME_BYTES then Drained([], buffer, Some(TooLarge))
      else if |buffer| < length + 4 then Drained([], buffer, None)
      else
        var value := c.decode(buffer[4..length + 4]);
        if value.None? then Drained([], buffer[length + 4..], Some(Malformed))
        else
          var later := Drain(c, buffer[length + 4..]);
          Drained([value.value] + later.values, later.rest, later.error)
  }

  class FrameDecoder<V> {
    const codec: Codec<V>
    var buffer: seq<Byte>

    constructor (codec: Codec<V>)
      ensures this.codec == codec && buffer == []
    {
      this.codec := codec;
      buffer := [];
    }

    /** On an error the values read before it in the same call are lost; a malformed payload is gone from the buffer. */
    method Push(chunk: seq<Byte>) returns (r: Result<seq<V>, FrameError>)
      modifies this
      ensures var d := Drain(codec, old(buffer) + chunk);
              buffer == d.rest && r == if d.error.Some? then Err(d.error.value) else Ok(d.values)
    {
      hide ReadLength;
      buffer := buffer + chunk;
      ghost var all := buffer;
      var values: seq<V> := [];
      while |buffer| >= 4
        invariant Drain(codec, all).rest == Drain(codec, buffer).rest
        invariant Drain(codec, all).error == Drain(codec, buffer).error
        invariant Drain(codec, all).values == values + Drain(codec, buffer).values
        decreases |buffer|
      {
        var length := ReadLength(buffer);
        if length > MAX_FRAME_BYTES { return Err(TooLarge); }
        if |buffer| < length + 4 { break; }
        var payload := buffer[4..length + 4];
        ghost var later := Drain(codec, buffer[length + 4..]);
        ghost var taken := values;
        buffer := buffer[length + 4..];
        var value := codec.decode(payload);
        if value.None? { return Err(Malformed); }
        values := values + [value.value];
        assert taken + ([value.value] + later.values) == values + later.values;
      }
      assert values + [] == values;
      r := Ok(values);
    }
  }

  // ---- A stream of frames ----

  predicate AllFit<V>(c: Codec<V>, vs: seq<V>) { forall i :: 0 <= i < |vs| ==> Fits(c, vs[i]) }

  function Stream<V>(c: Codec<V>, vs: seq<V>): seq<Byte>
    requires AllFit(c, vs)
  {
    if vs == [] then [] else Frame(c, vs[0]) + Stream(c, vs[1..])
  }

  /** How many frames of the stream lie within its first `n` bytes. */
  function Complete<V>(c: Codec<V>, vs: seq<V>, n: nat): (k: nat)
    requires AllFit(c, vs)
    ensures k <= |vs|
  {
    if vs == [] || n < |Frame(c, vs[0])| then 0 else 1 + Complete(c, vs[1..], n - |Frame(c, vs[0])|)
  }

  lemma {:induction false} CompleteFits<V>(c: Codec<V>, vs: seq<V>, n: nat)
    requires AllFit(c, vs)
    ensures |Stream(c, vs[..Complete(c, vs, n)])| <= n
    ensures Complete(c, vs, n) < |vs| ==> n < |Stream(c, vs[..Complete(c, vs, n) + 1])|
  {
    if vs != [] && n >= |Frame(c, vs[0])| {
      var k := Complete(c, vs, n);
      CompleteFits(c, vs[1..], n - |Frame(c, vs[0])|);
      assert vs[..k][1..] == vs[1..][..k - 1];
      if k < |vs| { assert vs[..k + 1][1..] == vs[1..][..k]; }
    } else if vs != [] {
      assert vs[..1][1..] == [];
    }
  }

  /** A part of one frame is left alone. */
  lemma PartOfFrame<V>(c: Codec<V>, v: V, n: nat)
    requires Fits(c, v) && n < |Frame(c, v)|
    ensures Drain(c, Frame(c, v)[..n]) == Drained([], Frame(c, v)[..n], None)
  {
    if n >= 4 {
      var part := Frame(c, v)[..n];
      HeaderRead(|c.encode(v)|, c.encode(v)[..n - 4]);
      assert part == Header(|c.encode(v)|) + c.encode(v)[..n - 4];
    }
  }

  /** A whole frame in front is taken out. */
  lemma WholeFrame<V(!new)>(c: Codec<V>, v: V, rest: seq<Byte>)
    requires Exact(c) && Fits(c, v)
    ensures Drain(c, Frame(c, v) + rest) ==
            Drained([v] + Drain(c, rest).values, Drain(c, rest).rest, Drain(c, rest).error)
  {
    var all, n := Frame(c, v) + rest, |c.encode(v)|;
    HeaderRead(n, c.encode(v) + rest);
    assert all == Header(n) + (c.encode(v) + rest);
    assert all[4..n + 4] == c.encode(v) && all[n + 4..] == rest;
    hide Header, ReadLength;
  }

  /** The first frame of a stream, when `n` bytes hold it. */
  lemma FirstFrame<V>(c: Codec<V>, vs: seq<V>, n: nat)
    requires AllFit(c, vs) && vs != [] && n >= |Frame(c, vs[0])|
    ensures Complete(c, vs, n) == 1 + Complete(c, vs[1..], n - |Frame(c, vs[0])|)
    ensures Stream(c, vs) == Frame(c, vs[0]) + Stream(c, vs[1..])
    ensures forall k: nat :: 1 <= k <= |vs| ==> Stream(c, vs[..k]) == Frame(c, vs[0]) + Stream(c, vs[1..][..k - 1])
  {
    hide Frame;
    forall k: nat | 1 <= k <= |vs| ensures Stream(c, vs[..k]) == Frame(c, vs[0]) + Stream(c, vs[1..][..k - 1]) {
      assert vs[..k][1..] == vs[1..][..k - 1];
    }
  }

  /** Draining the start of a stream gives the frames it holds, in order, and keeps the rest. */
  lemma {:induction false} DrainPrefix<V(!new)>(c: Codec<V>, vs: seq<V>, p: seq<Byte>)
    requires Exact(c) && AllFit(c, vs) && p <= Stream(c, vs)
    ensures var k, d := Complete(c, vs, |p|), Drain(c, p);
            d.values == vs[..k] && d.error == None && Stream(c, vs[..k]) + d.rest == p
    decreases |vs|
  {
    if vs == [] {
      assert p == [];
    } else if |p| < |Frame(c, vs[0])| {
      DrainPart(c, vs, p);
    } else {
      TailFits(c, vs, 1);
      PrefixAfter(Frame(c, vs[0]), Stream(c, vs[1..]), p);
      DrainPrefix(c, vs[1..], p[|Frame(c, vs[0])|..]);
      DrainWhole(c, vs, p);
    }
  }

  /** One more frame in front of what is drained. */
  lemma DrainWhole<V(!new)>(c: Codec<V>, vs: seq<V>, p: seq<Byte>)
    requires Exact(c) && AllFit(c, vs) && vs != [] && |Frame(c, vs[0])| <= |p| && p <= Stream(c, vs)
    requires AllFit(c, vs[1..]) && p == Frame(c, vs[0]) + p[|Frame(c, vs[0])|..]
    requires var q := p[|Frame(c, vs[0])|..];
             var j, d := Complete(c, vs[1..], |q|), Drain(c, q);
             d.values == vs[1..][..j] && d.error == None && Stream(c, vs[1..][..j]) + d.rest == q
    ensures var k, d := Complete(c, vs, |p|), Drain(c, p);
            d.values == vs[..k] && d.error == None && Stream(c, vs[..k]) + d.rest == p
  {
    var f, others := Frame(c, vs[0]), vs[1..];
    var q, k := p[|f|..], Complete(c, vs, |p|);
    FirstFrame(c, vs, |p|);
    TailFits(c, vs, 0);
    hide *;
    WholeFrame(c, vs[0], q);
    Associative(f, Stream(c, others[..k - 1]), Drain(c, q).rest);
    FrontTaken(vs, k);
  }

  lemma FrontTaken<T>(s: seq<T>, k: nat)
    requires 1 <= k <= |s|
    ensures [s[0]] + s[1..][..k - 1] == s[..k]
  {}

  lemma DrainPart<V(!new)>(c: Codec<V>, vs: seq<V>, p: seq<Byte>)
    requires AllFit(c, vs) && vs != [] && |p| < |Frame(c, vs[0])| && p <= Stream(c, vs)
    ensures Complete(c, vs, |p|) == 0 && Stream(c, vs[..0]) == [] && Drain(c, p) == Drained([], p, None)
  {
    PartOfFrame(c, vs[0], |p|);
    hide Drain, Frame;
    assert p == Frame(c, vs[0])[..|p|];
  }

  lemma PrefixAfter(f: seq<Byte>, rest: seq<Byte>, p: seq<Byte>)
    requires p <= f + rest && |p| >= |f|
    ensures p == f + p[|f|..] && p[|f|..] <= rest
  {}

  // ---- Any way of cutting the stream ----

  /** The decoder is where one is that received these bytes: what it holds follows the frames it emitted. */
  ghost predicate Caught<V>(c: Codec<V>, buffer: seq<Byte>, vs: seq<V>, received: seq<Byte>)
    requires AllFit(c, vs)
  {
    received <= Stream(c, vs) && Stream(c, vs[..Complete(c, vs, |received|)]) + buffer == received
  }

  lemma {:induction false} StreamConcat<V>(c: Codec<V>, a: seq<V>, b: seq<V>)
    requires AllFit(c, a) && AllFit(c, b)
    ensures AllFit(c, a + b) && Stream(c, a + b) == Stream(c, a) + Stream(c, b)
  {
    if a == [] {
      assert a + b == b;
    } else {
      assert (a + b)[1..] == a[1..] + b;
      StreamConcat(c, a[1..], b);
    }
  }

  lemma {:induction false} CompleteAfter<V>(c: Codec<V>, vs: seq<V>, n: nat, m: nat)
    requires AllFit(c, vs) && n <= m
    ensures var k := Complete(c, vs, n);
            && |Stream(c, vs[..k])| <= n && k <= Complete(c, vs, m)
            && Complete(c, vs, m) == k + Complete(c, vs[k..], m - |Stream(c, vs[..k])|)
  {
    var k := Complete(c, vs, n);
    CompleteFits(c, vs, n);
    if k > 0 {
      FirstFrame(c, vs, n);
      FirstFrame(c, vs, m);
      hide Complete, Stream, Frame, Fits;
      CompleteAfter(c, vs[1..], n - |Frame(c, vs[0])|, m - |Frame(c, vs[0])|);
      assert vs[1..][k - 1..] == vs[k..];
    } else {
      assert vs[0..] == vs && vs[..0] == [];
    }
  }

  /** The buffer with the next bytes starts the stream of frames not yet emitted. */
  lemma BufferGrows<V>(c: Codec<V>, buffer: seq<Byte>, chunk: seq<Byte>, vs: seq<V>, received: seq<Byte>)
    requires AllFit(c, vs) && Caught(c, buffer, vs, received) && received + chunk <= Stream(c, vs)
    ensures var k := Complete(c, vs, |received|);
            Stream(c, vs[..k]) + (buffer + chunk) == received + chunk && buffer + chunk <= Stream(c, vs[k..])
  {
    hide Complete, Stream, Fits;
    var k := Complete(c, vs, |received|);
    var emitted := Stream(c, vs[..k]);
    assert vs == vs[..k] + vs[k..];
    StreamConcat(c, vs[..k], vs[k..]);
    Associative(emitted, buffer, chunk);
    PrefixAfter(emitted, Stream(c, vs[k..]), received + chunk);
    assert (emitted + (buffer + chunk))[|emitted|..] == buffer + chunk;
  }

  /**
    A push of the next bytes of a stream emits exactly the frames they complete, in order, and keeps
    exactly the bytes of the frame that is not complete.
   */
  lemma PushNext<V(!new)>(c: Codec<V>, buffer: seq<Byte>, chunk: seq<Byte>, vs: seq<V>, received: seq<Byte>)
    requires Exact(c) && AllFit(c, vs) && Caught(c, buffer, vs, received) && received + chunk <= Stream(c, vs)
    ensures Complete(c, vs, |received|) <= Complete(c, vs, |received + chunk|)
    ensures Drain(c, buffer + chunk).error == None
    ensures Drain(c, buffer + chunk).values == vs[Complete(c, vs, |received|)..Complete(c, vs, |received + chunk|)]
    ensures Caught(c, Drain(c, buffer + chunk).rest, vs, received + chunk)
  {
    hide *;
    var k := Complete(c, vs, |received|);
    BufferGrows(c, buffer, chunk, vs, received);
    CompleteAfter(c, vs, |received|, |received + chunk|);
    TailFits(c, vs, k);
    var all := buffer + chunk;
    var more := Complete(c, vs[k..], |all|);
    assert |received + chunk| - |Stream(c, vs[..k])| == |all|;
    DrainPrefix(c, vs[k..], all);
    CaughtLater(c, vs, received + chunk, all, k, more, Drain(c, all).rest);
  }

  lemma TailFits<V>(c: Codec<V>, vs: seq<V>, k: nat)
    requires AllFit(c, vs) && k <= |vs|
    ensures AllFit(c, vs[k..]) && AllFit(c, vs[..k]) && (k < |vs| ==> Fits(c, vs[k]))
  {
    hide Fits;
  }

  lemma CaughtLater<V>(c: Codec<V>, vs: seq<V>, received: seq<Byte>, all: seq<Byte>, k: nat, more: nat, rest: seq<Byte>)
    requires AllFit(c, vs) && k + more == Complete(c, vs, |received|) && received <= Stream(c, vs)
    requires Stream(c, vs[..k]) + all == received && Stream(c, vs[k..][..more]) + rest == all
    ensures vs[k..][..more] == vs[k..k + more] && Caught(c, rest, vs, received)
  {
    hide Stream, Fits, Complete;
    EmitsNext(c, vs, k, more, rest);
  }

  /** The frames drained after the first `k`, as part of the whole stream. */
  lemma EmitsNext<V>(c: Codec<V>, vs: seq<V>, k: nat, more: nat, rest: seq<Byte>)
    requires AllFit(c, vs) && k + more <= |vs|
    ensures vs[k..][..more] == vs[k..k + more]
    ensures Stream(c, vs[..k + more]) + rest == Stream(c, vs[..k]) + (Stream(c, vs[k..][..more]) + rest)
  {
    hide Stream, Fits;
    assert vs[..k + more] == vs[..k] + vs[k..][..more];
    StreamConcat(c, vs[..k], vs[k..][..more]);
    Associative(Stream(c, vs[..k]), Stream(c, vs[k..][..more]), rest);
  }

  /** The bytes a caught-up decoder holds are fewer than the frame they begin. */
  lemma BufferIsShort<V>(c: Codec<V>, buffer: seq<Byte>, vs: seq<V>, received: seq<Byte>)
    requires AllFit(c, vs) && Caught(c, buffer, vs, received)
    ensures var k := Complete(c, vs, |received|);
            if k < |vs| then |buffer| < |Frame(c, vs[k])| && buffer <= Frame(c, vs[k]) else buffer == []
  {
    var k := Complete(c, vs, |received|);
    CompleteFits(c, vs, |received|);
    assert vs[|vs|..] == [];
    assert buffer + [] == buffer;
    BufferGrows(c, buffer, [], vs, received);
    if k < |vs| {
      var f, rest := Frame(c, vs[k]), Stream(c, vs[k + 1..]);
      assert vs[k..][1..] == vs[k + 1..] && Stream(c, vs[k..]) == f + rest;
      assert vs[..k + 1] == vs[..k] + [vs[k]] && [vs[k]][1..] == [];
      StreamConcat(c, vs[..k], [vs[k]]);
    }
  }

  /** The decoder fed with chunks: what all pushes together emit, and what it holds after them. */
  method Feed<V(!new)>(codec: Codec<V>, chunks: seq<seq<Byte>>, ghost vs: seq<V>)
    returns (emitted: seq<V>, decoder: FrameDecoder<V>)
    requires Exact(codec) && AllFit(codec, vs) && Joined(chunks) <= Stream(codec, vs)
    ensures emitted == vs[..Complete(codec, vs, |Joined(chunks)|)]
    ensures decoder.codec == codec && Caught(codec, decoder.buffer, vs, Joined(chunks))
  {
    hide Drain, Complete, Stream, Exact, Fits, Caught;
    decoder := new FrameDecoder(codec);
    emitted := [];
    NothingYet(codec, vs);
    for i := 0 to |chunks|
      invariant decoder.codec == codec
      invariant emitted == vs[..Complete(codec, vs, |Joined(chunks[..i])|)]
      invariant Caught(codec, decoder.buffer, vs, Joined(chunks[..i]))
    {
      JoinedAppend(chunks, i);
      PushNext(codec, decoder.buffer, chunks[i], vs, Joined(chunks[..i]));
      var r := decoder.Push(chunks[i]);
      emitted := emitted + r.value;
    }
    assert chunks[..|chunks|] == chunks;
  }

  function Joined(chunks: seq<seq<Byte>>): seq<Byte> {
    if chunks == [] then [] else Joined(chunks[..|chunks| - 1]) + chunks[|chunks| - 1]
  }

  lemma JoinedAppend(chunks: seq<seq<Byte>>, i: nat)
    requires i < |chunks|
    ensures Joined(chunks[..i + 1]) == Joined(chunks[..i]) + chunks[i] && Joined(chunks[..i + 1]) <= Joined(chunks)
  {
    assert chunks[..i + 1][..i] == chunks[..i];
    JoinedPrefix(chunks, i + 1);
  }

  lemma {:induction false} JoinedPrefix(chunks: seq<seq<Byte>>, i: nat)
    requires i <= |chunks|
    ensures Joined(chunks[..i]) <= Joined(chunks)
    decreases |chunks| - i
  {
    if i == |chunks| {
      assert chunks[..i] == chunks;
    } else {
      assert chunks[..i + 1][..i] == chunks[..i];
      JoinedPrefix(chunks, i + 1);
    }
  }

  // ---- From one end to the other ----

  /** The values a sender gets through: those that fit a frame. */
  function Sent<V>(c: Codec<V>, vs: seq<V>): (r: seq<V>)
    ensures AllFit(c, r)
  {
    if vs == [] then []
    else
      var n := |vs| - 1;
      var before := Sent(c, vs[..n]);
      if EncodeFrame(c, vs[n]).Ok? then before + [vs[n]] else before
  }

  /** Every value encoded in turn; one that is refused sends nothing. */
  method SendAll<V>(codec: Codec<V>, vs: seq<V>) returns (bytes: seq<Byte>)
    ensures bytes == Stream(codec, Sent(codec, vs))
  {
    hide EncodeFrame;
    bytes := [];
    for i := 0 to |vs|
      invariant bytes == Stream(codec, Sent(codec, vs[..i]))
    {
      SentNext(codec, vs, i);
      var frame := EncodeFrame(codec, vs[i]);
      if frame.Ok? { bytes := bytes + frame.value; }
    }
    assert vs[..|vs|] == vs;
  }

  lemma SentNext<V>(c: Codec<V>, vs: seq<V>, i: nat)
    requires i < |vs|
    ensures EncodeFrame(c, vs[i]).Ok? <==> Fits(c, vs[i])
    ensures Stream(c, Sent(c, vs[..i + 1])) ==
            Stream(c, Sent(c, vs[..i])) + (if EncodeFrame(c, vs[i]).Ok? then EncodeFrame(c, vs[i]).value else [])
  {
    assert vs[..i + 1][..i] == vs[..i];
    var before := Sent(c, vs[..i]);
    if Fits(c, vs[i]) {
      StreamOne(c, vs[i]);
      StreamConcat(c, before, [vs[i]]);
    }
  }

  lemma StreamOne<V>(c: Codec<V>, v: V)
    requires Fits(c, v)
    ensures Stream(c, [v]) == Frame(c, v) == EncodeFrame(c, v).value
  {
    assert [v][1..] == [];
  }

  /**
    Whatever is sent and however its bytes are cut on the way, the receiver gets exactly the values that fit a
    frame, in order, and holds nothing back.
   */
  method SendAndReceive<V(!new)>(codec: Codec<V>, vs: seq<V>, chunks: seq<seq<Byte>>) returns (received: seq<V>)
    requires Exact(codec) && Joined(chunks) == Stream(codec, Sent(codec, vs))
    ensures received == Sent(codec, vs)
    ensures forall v :: v in received <==> v in vs && Fits(codec, v)
  {
    var decoder;
    received, decoder := Feed(codec, chunks, Sent(codec, vs));
    WholeStream(codec, Sent(codec, vs));
    assert Sent(codec, vs)[..|Sent(codec, vs)|] == Sent(codec, vs);
    SentMembers(codec, vs);
  }

  lemma {:induction false} WholeStream<V>(c: Codec<V>, vs: seq<V>)
    requires AllFit(c, vs)
    ensures Complete(c, vs, |Stream(c, vs)|) == |vs|
  {
    if vs != [] { WholeStream(c, vs[1..]); }
  }

  lemma {:induction false} SentMembers<V>(c: Codec<V>, vs: seq<V>)
    ensures forall v :: v in Sent(c, vs) <==> v in vs && Fits(c, v)
  {
    if vs != [] {
      var n := |vs| - 1;
      SentMembers(c, vs[..n]);
      assert vs == vs[..n] + [vs[n]];
    }
  }

  // ---- After an error ----

  /** An oversized length stays in front of the buffer: every later push fails the same way and emits nothing. */
  lemma TooLargeStays<V>(c: Codec<V>, buffer: seq<Byte>, chunk: seq<Byte>)
    requires Drain(c, buffer).error == Some(TooLarge)
    ensures Drain(c, Drain(c, buffer).rest + chunk) == Drained([], Drain(c, buffer).rest + chunk, Some(TooLarge))
  {
    LargeInFront(c, buffer);
    var rest := Drain(c, buffer).rest;
    SameLength(rest, chunk);
  }

  lemma SameLength(buffer: seq<Byte>, chunk: seq<Byte>)
    requires |buffer| >= 4
    ensures ReadLength(buffer + chunk) == ReadLength(buffer)
  {}

  lemma {:induction false} LargeInFront<V>(c: Codec<V>, buffer: seq<Byte>)
    requires Drain(c, buffer).error == Some(TooLarge)
    ensures |Drain(c, buffer).rest| >= 4 && ReadLength(Drain(c, buffer).rest) > MAX_FRAME_BYTES
    decreases |buffer|
  {
    if ReadLength(buffer) <= MAX_FRAME_BYTES { LargeInFront(c, buffer[ReadLength(buffer) + 4..]); }
  }

  /** A frame around any payload. */
  function Raw(payload: seq<Byte>): seq<Byte>
    requires |payload| <= MAX_FRAME_BYTES
  {
    Header(|payload|) + payload
  }

  /**
    A malformed payload ends the push: the values before it were read but are not returned, its frame is gone,
    and what follows it is what the next push starts from.
   */
  lemma {:induction false} MalformedSkips<V(!new)>(c: Codec<V>, vs: seq<V>, bad: seq<Byte>, rest: seq<Byte>)
    requires Exact(c) && AllFit(c, vs) && |bad| <= MAX_FRAME_BYTES && c.decode(bad) == None
    ensures Drain(c, Stream(c, vs) + (Raw(bad) + rest)) == Drained(vs, rest, Some(Malformed))
  {
    if vs == [] {
      BadFrame(c, bad, rest);
      assert Stream(c, vs) + (Raw(bad) + rest) == Raw(bad) + rest;
    } else {
      hide *;
      TailFits(c, vs, 0);
      TailFits(c, vs, 1);
      MalformedSkips(c, vs[1..], bad, rest);
      StreamFront(c, vs, Raw(bad) + rest);
      WholeFrame(c, vs[0], Stream(c, vs[1..]) + (Raw(bad) + rest));
      assert vs == [vs[0]] + vs[1..];
    }
  }

  lemma StreamFront<V>(c: Codec<V>, vs: seq<V>, tail: seq<Byte>)
    requires AllFit(c, vs) && vs != []
    ensures Fits(c, vs[0]) && Stream(c, vs) + tail == Frame(c, vs[0]) + (Stream(c, vs[1..]) + tail)
  {
    hide Frame;
    Associative(Frame(c, vs[0]), Stream(c, vs[1..]), tail);
  }

  function Raws(payloads: seq<seq<Byte>>): seq<Byte>
    requires forall i :: 0 <= i < |payloads| ==> |payloads[i]| <= MAX_FRAME_BYTES
  {
    if payloads == [] then [] else Raw(payloads[0]) + Raws(payloads[1..])
  }

  /** Not yet a whole frame, and none that is too large. */
  predicate Waiting(rest: seq<Byte>) {
    |rest| < 4 || (ReadLength(rest) <= MAX_FRAME_BYTES && |rest| < ReadLength(rest) + 4)
  }

  /**
    The bytes are frames whose payloads are the values in order, then one malformed frame if that is the
    error, then the rest, which waits for more unless its length is too large.
   */
  ghost predicate ReadsAs<V>(c: Codec<V>, buffer: seq<Byte>, d: Drained<V>, payloads: seq<seq<Byte>>, bad: seq<Byte>) {
    && |payloads| == |d.values| && |bad| <= MAX_FRAME_BYTES
    && (forall i :: 0 <= i < |payloads| ==>
          |payloads[i]| <= MAX_FRAME_BYTES && c.decode(payloads[i]) == Some(d.values[i]))
    && (d.error == Some(Malformed) ==> c.decode(bad) == None)
    && (d.error == None ==> Waiting(d.rest))
    && (d.error == Some(TooLarge) ==> |d.rest| >= 4 && ReadLength(d.rest) > MAX_FRAME_BYTES)
    && buffer == Raws(payloads) + (BadPart(d, bad) + d.rest)
  }

  function BadPart<V>(d: Drained<V>, bad: seq<Byte>): seq<Byte>
    requires |bad| <= MAX_FRAME_BYTES
  {
    if d.error.Some? && d.error.value.Malformed? then Raw(bad) else []
  }

  /** What a push over any bytes at all reads. */
  lemma {:induction false} DrainMeans<V>(c: Codec<V>, buffer: seq<Byte>)
    returns (payloads: seq<seq<Byte>>, bad: seq<Byte>)
    ensures ReadsAs(c, buffer, Drain(c, buffer), payloads, bad)
    decreases |buffer|
  {
    hide ReadsAs, ReadLength, Raw;
    payloads, bad := [], [];
    if |buffer| < 4 || ReadLength(buffer) > MAX_FRAME_BYTES || |buffer| < ReadLength(buffer) + 4 {
      ReadsNothing(c, buffer, Drain(c, buffer));
    } else {
      var payload, later := buffer[4..ReadLength(buffer) + 4], buffer[ReadLength(buffer) + 4..];
      FrontFrame(buffer);
      if c.decode(payload).None? {
        bad := payload;
        ReadsBad(c, bad, later);
      } else {
        var more;
        more, bad := DrainMeans(c, later);
        payloads := [payload] + more;
        ReadsMore(c, payload, later, Drain(c, later), more, bad);
      }
    }
  }

  lemma ReadsNothing<V>(c: Codec<V>, buffer: seq<Byte>, d: Drained<V>)
    requires d.values == [] && d.rest == buffer
    requires if d.error == None then Waiting(buffer)
             else d.error == Some(TooLarge) && |buffer| >= 4 && ReadLength(buffer) > MAX_FRAME_BYTES
    ensures ReadsAs(c, buffer, d, [], [])
  {
    hide ReadLength, Raw;
    assert Raws([]) + ([] + buffer) == buffer;
  }

  lemma ReadsBad<V>(c: Codec<V>, bad: seq<Byte>, rest: seq<Byte>)
    requires |bad| <= MAX_FRAME_BYTES && c.decode(bad) == None
    ensures ReadsAs(c, Raw(bad) + rest, Drained([], rest, Some(Malformed)), [], bad)
  {
    hide ReadLength, Raw;
    assert Raws([]) + (Raw(bad) + rest) == Raw(bad) + rest;
  }

  lemma ReadsMore<V>(c: Codec<V>, payload: seq<Byte>, later: seq<Byte>, d: Drained<V>, more: seq<seq<Byte>>,
                     bad: seq<Byte>)
    requires ReadsAs(c, later, d, more, bad) && |payload| <= MAX_FRAME_BYTES && c.decode(payload).Some?
    ensures ReadsAs(c, Raw(payload) + later, Drained([c.decode(payload).value] + d.values, d.rest, d.error),
                    [payload] + more, bad)
  {
    hide ReadLength, Raw, Waiting;
    var all := [payload] + more;
    assert all[1..] == more && all[0] == payload;
    assert Raws(all) == Raw(payload) + Raws(more);
    hide Raws;
    Associative(Raw(payload), Raws(more), BadPart(d, bad) + d.rest);
  }

  lemma FrontFrame(buffer: seq<Byte>)
    requires |buffer| >= 4 && ReadLength(buffer) <= MAX_FRAME_BYTES && |buffer| >= ReadLength(buffer) + 4
    ensures buffer == Raw(buffer[4..ReadLength(buffer) + 4]) + buffer[ReadLength(buffer) + 4..]
  {
    HeaderBack(buffer[0], buffer[1], buffer[2], buffer[3]);
    assert Header(ReadLength(buffer)) == buffer[..4];
  }

  lemma HeaderBack(a: Byte, b: Byte, c: Byte, d: Byte)
    ensures Header(a as nat * 0x100_0000 + b as nat * 0x1_0000 + c as nat * 0x100 + d as nat) == [a, b, c, d]
  {
    var n: nat := a as nat * 0x100_0000 + b as nat * 0x1_0000 + c as nat * 0x100 + d as nat;
    assert n / 0x100 == a as nat * 0x1_0000 + b as nat * 0x100 + c as nat;
    assert n / 0x1_0000 == a as nat * 0x100 + b as nat;
  }

  lemma BadFrame<V>(c: Codec<V>, bad: seq<Byte>, rest: seq<Byte>)
    requires |bad| <= MAX_FRAME_BYTES && c.decode(bad) == None
    ensures Drain(c, Raw(bad) + rest) == Drained([], rest, Some(Malformed))
  {
    var all, n := Raw(bad) + rest, |bad|;
    HeaderRead(n, bad + rest);
    assert all == Header(n) + (bad + rest);
    assert all[4..n + 4] == bad && all[n + 4..] == rest;
    hide Header, ReadLength;
  }

  lemma NothingYet<V>(c: Codec<V>, vs: seq<V>)
    requires AllFit(c, vs)
    ensures Complete(c, vs, 0) == 0 && Caught(c, [], vs, [])
  {}
}
