/**
  lib/rosterpilot/draft.ts:122-129: the padded message as `Math.ceil((length + 9) / 64) * 64` bytes
  with the bit length in its last eight, against section 5.1.1 of FIPS 180-4, which pads bits.
 */
module Sha256Padding {
  import opened ByteTypes
  import opened Fips180

  /** Below this length every number in the padding code is a safe integer. */
  const MAX_LENGTH := 0x4_0000_0000_0000

  const MARKER: seq<Byte> := [0x80]

  /** `Math.ceil((length + 9) / 64) * 64`. */
  function PaddedLength(length: nat): (r: nat)
    ensures r % 64 == 0 && length + 9 <= r < length + 73
  {
    (length + 72) / 64 * 64
  }

  /** The zero bytes between the marker and the length. */
  function Gap(length: nat): nat { PaddedLength(length) - length - 9 }

  function ZeroBytes(n: nat): (r: seq<Byte>)
    ensures |r| == n
  {
    seq(n, i => 0)
  }

  /** The big-endian bytes of `n`. */
  function Bytes(n: nat, width: nat): (r: seq<Byte>)
    ensures |r| == width
  {
    if width == 0 then [] else Bytes(n / 256, width - 1) + [n % 256]
  }

  /** The array `padded` after the two `setUint32` calls. */
  function Padded(message: seq<Byte>): (r: seq<Byte>)
    ensures |r| == PaddedLength(|message|)
  {
    message + MARKER + ZeroBytes(Gap(|message|)) + Bytes(8 * |message|, 8)
  }

  // ---- Bytes as bits ----

  lemma {:induction false} ByteBitsLength(bytes: seq<Byte>)
    ensures |ByteBits(bytes)| == 8 * |bytes|
  {
    if bytes != [] { ByteBitsLength(bytes[..|bytes| - 1]); }
  }

  lemma {:induction false} ByteBitsConcat(a: seq<Byte>, b: seq<Byte>)
    ensures ByteBits(a + b) == ByteBits(a) + ByteBits(b)
  {
    if b == [] {
      assert a + b == a;
    } else {
      var n := |b| - 1;
      assert (a + b)[..|a + b| - 1] == a + b[..n];
      ByteBitsConcat(a, b[..n]);
    }
  }

  /** Eight more bits are one more byte. */
  lemma BitsStep(n: nat, width: nat)
    ensures Bits(n, width + 8) == Bits(n / 256, width) + Bits(n % 256, 8)
  {
    BitsSplit(n, width, 8);
    assert Power(8) == 256;
  }

  function Power(k: nat): (r: nat)
    ensures r > 0
  {
    if k == 0 then 1 else 2 * Power(k - 1)
  }

  function Quotient(n: nat, p: nat): nat
    requires p > 0
  {
    n / p
  }

  function Remainder(n: nat, p: nat): nat
    requires p > 0
  {
    n % p
  }

  lemma {:induction false} BitsSplit(n: nat, width: nat, low: nat)
    ensures Bits(n, width + low) == Bits(Quotient(n, Power(low)), width) + Bits(Remainder(n, Power(low)), low)
  {
    if low == 0 {
      BitsWhole(n, width);
    } else {
      var p, twice := Power(low - 1), Power(low);
      assert twice == 2 * p;
      hide Bits, Power, Quotient, Remainder;
      BitsSplit(n / 2, width, low - 1);
      HalfSplit(n, p);
      BitsJoin(n, Remainder(n, twice), width, low, Quotient(n, twice));
    }
  }

  lemma BitsWhole(n: nat, width: nat)
    ensures Bits(n, width) == Bits(n / 1, width) + Bits(n % 1, 0)
  {}

  lemma BitsJoin(n: nat, m: nat, width: nat, low: nat, q: nat)
    requires low > 0 && m % 2 == n % 2
    requires Bits(n / 2, width + low - 1) == Bits(q, width) + Bits(m / 2, low - 1)
    ensures Bits(n, width + low) == Bits(q, width) + Bits(m, low)
  {}

  lemma HalfSplit(n: nat, p: nat)
    requires p > 0
    ensures Quotient(n / 2, p) == Quotient(n, 2 * p)
    ensures Remainder(n, 2 * p) / 2 == Remainder(n / 2, p)
    ensures Remainder(n, 2 * p) % 2 == n % 2
  {
    var q, r := Quotient(n, 2 * p), Remainder(n, 2 * p);
    assert n == q * (2 * p) + r;
    assert n / 2 == q * p + r / 2 by { assert q * (2 * p) == 2 * (q * p); }
    QuotientIs(n / 2, p, q, r / 2);
  }

  lemma QuotientIs(n: nat, p: nat, q: nat, r: nat)
    requires n == q * p + r && r < p
    ensures n / p == q && n % p == r
  {
    var d := n / p - q;
    assert n == (n / p) * p + n % p;
    assert d * p == r - n % p by { assert d * p == (n / p) * p - q * p; }
    var size: int := p;
    assert d >= 1 ==> d * size >= size;
    assert d <= -1 ==> d * size <= -size;
  }

  lemma {:induction false} BytesAreBits(n: nat, width: nat)
    ensures ByteBits(Bytes(n, width)) == Bits(n, 8 * width)
  {
    if width != 0 {
      BytesAreBits(n / 256, width - 1);
      BitsStep(n, 8 * (width - 1));
      var bytes := Bytes(n, width);
      assert bytes[..|bytes| - 1] == Bytes(n / 256, width - 1);
    }
  }

  lemma {:induction false} ZeroBitsOfBytes(n: nat)
    ensures ByteBits(ZeroBytes(n)) == Zeros(8 * n)
  {
    if n != 0 {
      ZeroBitsOfBytes(n - 1);
      assert ZeroBytes(n)[..n - 1] == ZeroBytes(n - 1);
      assert Bits(0, 8) == Zeros(8) by { BitsOfZero(8); }
      assert Zeros(8 * n) == Zeros(8 * (n - 1)) + Zeros(8);
    }
  }

  lemma {:induction false} BitsOfZero(width: nat)
    ensures Bits(0, width) == Zeros(width)
  {
    if width != 0 { BitsOfZero(width - 1); }
  }

  lemma MarkerBits()
    ensures ByteBits(MARKER) == [1] + Zeros(7)
  {
    assert MARKER[..0] == [] && ByteBits(MARKER) == Bits(0x80, 8);
    assert Power(7) == 128;
    BitsSplit(0x80, 1, 7);
    hide Bits;
    BitsOfZero(7);
    OneBit();
  }

  lemma OneBit()
    ensures Bits(1, 1) == [1]
  {}

  /** The number of zero bits the code leaves is the smallest that aligns the message. */
  lemma SmallestGap(length: nat)
    ensures ZeroBits(8 * length, 7 + 8 * Gap(length))
  {
    var k, q := 7 + 8 * Gap(length), (length + 72) / 64;
    assert PaddedLength(length) == 64 * q && length + 9 <= 64 * q < length + 73;
    hide *;
    assert 8 * length + 1 + k == 512 * (q - 1) + 448;
    AlignedAt(8 * length, k, q - 1);
    forall j: nat | j < k ensures !Aligned(8 * length, j) { BetweenNotAligned(8 * length, j, q - 1); }
    LeastIsGap(8 * length, k);
  }

  lemma AlignedAt(l: nat, k: nat, q: int)
    requires l + 1 + k == 512 * q + 448
    ensures Aligned(l, k)
  {}

  lemma BetweenNotAligned(l: nat, j: nat, q: int)
    requires 512 * (q - 1) + 448 < l + 1 + j < 512 * q + 448
    ensures !Aligned(l, j)
  {}

  lemma LeastIsGap(l: nat, k: nat)
    requires Aligned(l, k) && forall j: nat :: j < k ==> !Aligned(l, j)
    ensures ZeroBits(l, k)
  {
    hide Aligned;
  }

  ghost predicate JoinOf(padded: seq<Bit>, a: seq<Bit>, b: seq<Bit>, c: seq<Bit>, d: seq<Bit>) {
    padded == a + b + c + d
  }

  ghost predicate OneAndZeros(b: seq<Bit>, zeros: nat) { b == [1] + Zeros(zeros) }

  ghost predicate AllZeros(b: seq<Bit>, zeros: nat) { b == Zeros(zeros) }

  ghost predicate LengthOf(b: seq<Bit>, length: nat) { b == Bits(length, 64) }

  /** The padded bytes are the padded bits of section 5.1.1. */
  lemma PaddedIsFips(message: seq<Byte>)
    ensures PaddedBits(ByteBits(message), ByteBits(Padded(message)))
  {
    hide *;
    var gap: nat := Gap(|message|);
    PaddedPartBits(message);
    MarkerPart();
    ZerosPart(gap);
    LengthPart(message);
    GapPart(message);
    Assembled(ByteBits(message), ByteBits(MARKER), ByteBits(ZeroBytes(gap)), ByteBits(Bytes(8 * |message|, 8)), gap,
              ByteBits(Padded(message)));
  }

  lemma Assembled(message: seq<Bit>, mark: seq<Bit>, zeros: seq<Bit>, tail: seq<Bit>, gap: nat, padded: seq<Bit>)
    requires JoinOf(padded, message, mark, zeros, tail)
    requires OneAndZeros(mark, 7) && AllZeros(zeros, 8 * gap) && LengthOf(tail, |message|) &&
             ZeroBits(|message|, 7 + 8 * gap)
    ensures PaddedBits(message, padded)
  {
    hide Zeros, Bits, ZeroBits, PaddedBits;
    ZerosJoin(message, 7, 8 * gap, tail);
    PaddedBitsAre(message, padded, 7 + 8 * gap);
  }

  lemma MarkerPart()
    ensures OneAndZeros(ByteBits(MARKER), 7)
  {
    MarkerBits();
  }

  lemma ZerosPart(gap: nat)
    ensures AllZeros(ByteBits(ZeroBytes(gap)), 8 * gap)
  {
    ZeroBitsOfBytes(gap);
  }

  lemma LengthPart(message: seq<Byte>)
    ensures LengthOf(ByteBits(Bytes(8 * |message|, 8)), |ByteBits(message)|)
  {
    ByteBitsLength(message);
    hide ByteBits, Bytes, Bits;
    BytesAreBits(8 * |message|, 8);
  }

  lemma GapPart(message: seq<Byte>)
    ensures ZeroBits(|ByteBits(message)|, 7 + 8 * Gap(|message|))
  {
    ByteBitsLength(message);
    SmallestGap(|message|);
  }

  lemma PaddedPartBits(message: seq<Byte>)
    ensures JoinOf(ByteBits(Padded(message)), ByteBits(message), ByteBits(MARKER), ByteBits(ZeroBytes(Gap(|message|))),
                   ByteBits(Bytes(8 * |message|, 8)))
  {
    PaddedParts(message);
    hide ByteBits, Padded, Gap, ZeroBytes, Bytes;
    PartsBits(message, MARKER, ZeroBytes(Gap(|message|)), Bytes(8 * |message|, 8));
  }

  lemma PartsBits(message: seq<Byte>, mark: seq<Byte>, zeros: seq<Byte>, tail: seq<Byte>)
    ensures ByteBits(message + mark + zeros + tail) ==
            ByteBits(message) + ByteBits(mark) + ByteBits(zeros) + ByteBits(tail)
  {
    hide *;
    ByteBitsConcat(message + mark + zeros, tail);
    ByteBitsConcat(message + mark, zeros);
    ByteBitsConcat(message, mark);
  }

  lemma PaddedParts(message: seq<Byte>)
    ensures Padded(message) == message + MARKER + ZeroBytes(Gap(|message|)) + Bytes(8 * |message|, 8)
  {
    hide PaddedLength, ZeroBytes, Bytes;
  }

  lemma PaddedBitsAre(message: seq<Bit>, padded: seq<Bit>, k: nat)
    requires ZeroBits(|message|, k) && padded == message + [1] + Zeros(k) + Bits(|message|, 64)
    ensures PaddedBits(message, padded)
  {}

  lemma ZerosJoin(message: seq<Bit>, m: nat, n: nat, rest: seq<Bit>)
    ensures message + ([1] + Zeros(m)) + Zeros(n) + rest == message + [1] + Zeros(m + n) + rest
  {
    assert Zeros(m) + Zeros(n) == Zeros(m + n);
  }

  // ---- Padding is injective ----

  lemma {:induction false} BytesInjective(m: nat, n: nat, width: nat)
    requires Bytes(m, width) == Bytes(n, width) && m < Power(8 * width) && n < Power(8 * width)
    ensures m == n
  {
    if width != 0 {
      var a, b := Bytes(m, width), Bytes(n, width);
      assert a[..width - 1] == Bytes(m / 256, width - 1) && b[..width - 1] == Bytes(n / 256, width - 1);
      assert a[width - 1] == m % 256 && b[width - 1] == n % 256;
      PowerEight(8 * (width - 1));
      BytesInjective(m / 256, n / 256, width - 1);
    }
  }

  lemma PowerEight(k: nat)
    ensures Power(k + 8) == 256 * Power(k)
  {
    assert Power(k + 4) == 16 * Power(k) by { assert Power(k + 2) == 4 * Power(k); }
    assert Power(k + 8) == 16 * Power(k + 4) by { assert Power(k + 6) == 4 * Power(k + 4); }
  }

  lemma PowerOf64()
    ensures Power(64) == 0x1_0000_0000_0000_0000
  {
    PowerEight(0);
    PowerEight(8);
    PowerEight(16);
    PowerEight(24);
    PowerEight(32);
    PowerEight(40);
    PowerEight(48);
    PowerEight(56);
  }

  lemma PaddedInjective(x: seq<Byte>, y: seq<Byte>)
    requires 8 * |x| < 0x1_0000_0000_0000_0000 && 8 * |y| < 0x1_0000_0000_0000_0000
    requires Padded(x) == Padded(y)
    ensures x == y
  {
    var p, q := Padded(x), Padded(y);
    var n := |p|;
    assert p[n - 8..] == Bytes(8 * |x|, 8) && q[n - 8..] == Bytes(8 * |y|, 8);
    PowerOf64();
    BytesInjective(8 * |x|, 8 * |y|, 8);
    assert p[..|x|] == x && q[..|x|] == y;
  }
}
