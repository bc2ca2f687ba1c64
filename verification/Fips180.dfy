/**
  SHA-256 as FIPS 180-4 defines it: the functions of section 4.1.2, the constants of 4.2.2 and
  5.3.3, the padding of 5.1.1 on bits, and the computation of 6.2.2. lib/rosterpilot/draft.ts:102-180
  is measured against these definitions.
 */
module Fips180 {
  import opened ByteTypes

  const WORD := 0x1_0000_0000

  type Bit = x: nat | x < 2
  type Word = x: nat | x < 0x1_0000_0000

  // ---- Section 3.2: operations on words ----

  function OfBits(z: bv32): Word { z as Word }

  function ToBits(x: Word): bv32 { x as bv32 }

  function And(x: Word, y: Word): Word { OfBits(ToBits(x) & ToBits(y)) }

  function Or(x: Word, y: Word): Word { OfBits(ToBits(x) | ToBits(y)) }

  function Xor(x: Word, y: Word): Word { OfBits(ToBits(x) ^ ToBits(y)) }

  function Not(x: Word): Word { OfBits(!ToBits(x)) }

  function Shr(n: nat, x: Word): Word
    requires n < 32
  {
    OfBits(ToBits(x) >> n)
  }

  function Shl(n: nat, x: Word): Word
    requires n < 32
  {
    OfBits(ToBits(x) << n)
  }

  function Rotr(n: nat, x: Word): Word
    requires 0 < n < 32
  {
    Or(Shr(n, x), Shl(32 - n, x))
  }

  /** Addition modulo 2^32. */
  function Add(x: Word, y: Word): Word { (x + y) % WORD }

  // ---- Section 4.1.2 ----

  function Ch(x: Word, y: Word, z: Word): Word { Xor(And(x, y), And(Not(x), z)) }

  function Maj(x: Word, y: Word, z: Word): Word { Xor(Xor(And(x, y), And(x, z)), And(y, z)) }

  function UpperSigma0(x: Word): Word { Xor(Xor(Rotr(2, x), Rotr(13, x)), Rotr(22, x)) }

  function UpperSigma1(x: Word): Word { Xor(Xor(Rotr(6, x), Rotr(11, x)), Rotr(25, x)) }

  function LowerSigma0(x: Word): Word { Xor(Xor(Rotr(7, x), Rotr(18, x)), Shr(3, x)) }

  function LowerSigma1(x: Word): Word { Xor(Xor(Rotr(17, x), Rotr(19, x)), Shr(10, x)) }

  // ---- Sections 4.2.2 and 5.3.3: constants from the first primes ----

  const PRIMES: seq<nat> :=
    [2, 3, 5, 7, 11, 13, 17, 19] +
    [23, 29, 31, 37, 41, 43, 47, 53] +
    [59, 61, 67, 71, 73, 79, 83, 89] +
    [97, 101, 103, 107, 109, 113, 127, 131] +
    [137, 139, 149, 151, 157, 163, 167, 173] +
    [179, 181, 191, 193, 197, 199, 211, 223] +
    [227, 229, 233, 239, 241, 251, 257, 263] +
    [269, 271, 277, 281, 283, 293, 307, 311]

  /** `word` is the first 32 bits of the fractional part of the cube root of `p`. */
  ghost predicate CubeRootBits(p: nat, word: Word) {
    exists whole: nat :: whole < 8 && Between(Cube(whole * WORD + word), p * Cube(WORD), Cube(whole * WORD + word + 1))
  }

  /** `word` is the first 32 bits of the fractional part of the square root of `p`. */
  ghost predicate SquareRootBits(p: nat, word: Word) {
    exists whole: nat :: whole < 8 &&
      Between(Square(whole * WORD + word), p * Square(WORD), Square(whole * WORD + word + 1))
  }

  function Square(n: nat): nat { n * n }

  function Cube(n: nat): nat { n * n * n }

  predicate Between(low: nat, n: nat, high: nat) { low <= n < high }

  // ---- Section 5.1.1: padding, on bits ----

  function Zeros(n: nat): (r: seq<Bit>)
    ensures |r| == n
  {
    seq(n, i => 0)
  }

  /** The big-endian binary representation of `n` in `width` bits. */
  function Bits(n: nat, width: nat): (r: seq<Bit>)
    ensures |r| == width
  {
    if width == 0 then [] else Bits(n / 2, width - 1) + [n % 2]
  }

  /** The smallest solution of `l + 1 + k = 448 mod 512`. */
  ghost predicate ZeroBits(l: nat, k: nat) { Aligned(l, k) && forall j: nat :: j < k ==> !Aligned(l, j) }

  predicate Aligned(l: nat, k: nat) { (l + 1 + k) % 512 == 448 }

  ghost predicate PaddedBits(message: seq<Bit>, padded: seq<Bit>) {
    exists k: nat :: ZeroBits(|message|, k) && padded == message + [1] + Zeros(k) + Bits(|message|, 64)
  }

  function ByteBits(bytes: seq<Byte>): seq<Bit> {
    if bytes == [] then [] else ByteBits(bytes[..|bytes| - 1]) + Bits(bytes[|bytes| - 1], 8)
  }

  // ---- Section 5.2.1: a padded message as words and blocks ----

  function BigEndian(a: Byte, b: Byte, c: Byte, d: Byte): Word { a * 0x100_0000 + b * 0x1_0000 + c * 0x100 + d }

  function WordAt(bytes: seq<Byte>, at: nat): Word
    requires at + 4 <= |bytes|
  {
    BigEndian(bytes[at], bytes[at + 1], bytes[at + 2], bytes[at + 3])
  }

  /** Block number `i`, sixteen words. */
  function Block(padded: seq<Byte>, i: nat): (r: seq<Word>)
    requires 64 * (i + 1) <= |padded|
    ensures |r| == 16
  {
    seq(16, t requires 0 <= t < 16 => WordAt(padded, 64 * i + 4 * t))
  }

  // ---- Section 6.2.2: the hash computation ----

  /** Step 1: the message schedule. */
  function W(block: seq<Word>, t: nat): Word
    requires |block| == 16
  {
    if t < 16 then block[t]
    else Add(Add(Add(LowerSigma1(W(block, t - 2)), W(block, t - 7)), LowerSigma0(W(block, t - 15))), W(block, t - 16))
  }

  /** The working variables, and a hash value. */
  datatype Words8 = Words8(a: Word, b: Word, c: Word, d: Word, e: Word, f: Word, g: Word, h: Word)

  /** Step 3, once. */
  function Round(v: Words8, k: Word, w: Word): Words8 {
    var t1 := Add(Add(Add(Add(v.h, UpperSigma1(v.e)), Ch(v.e, v.f, v.g)), k), w);
    var t2 := Add(UpperSigma0(v.a), Maj(v.a, v.b, v.c));
    Words8(Add(t1, t2), v.a, v.b, v.c, Add(v.d, t1), v.e, v.f, v.g)
  }

  /** Step 3, for rounds `0 .. t - 1`. */
  function Rounds(v: Words8, block: seq<Word>, t: nat): Words8
    requires |block| == 16 && t <= 64
  {
    if t == 0 then v else Round(Rounds(v, block, t - 1), K[t - 1], W(block, t - 1))
  }

  /** Step 4. */
  function Sum(u: Words8, v: Words8): Words8 {
    Words8(Add(u.a, v.a), Add(u.b, v.b), Add(u.c, v.c), Add(u.d, v.d), Add(u.e, v.e), Add(u.f, v.f), Add(u.g, v.g),
           Add(u.h, v.h))
  }

  /** The hash value after the first `n` blocks. */
  function HashValue(padded: seq<Byte>, n: nat): Words8
    requires 64 * n <= |padded|
  {
    if n == 0 then H0
    else
      var before := HashValue(padded, n - 1);
      Sum(before, Rounds(before, Block(padded, n - 1), 64))
  }

  const H0 := Words8(0x6a09e667, 0xbb67ae85, 0x3c6ef372, 0xa54ff53a, 0x510e527f, 0x9b05688c, 0x1f83d9ab, 0x5be0cd19)

  const K: seq<Word> :=
    [0x428a2f98, 0x71374491, 0xb5c0fbcf, 0xe9b5dba5, 0x3956c25b, 0x59f111f1, 0x923f82a4, 0xab1c5ed5] +
    [0xd807aa98, 0x12835b01, 0x243185be, 0x550c7dc3, 0x72be5d74, 0x80deb1fe, 0x9bdc06a7, 0xc19bf174] +
    [0xe49b69c1, 0xefbe4786, 0x0fc19dc6, 0x240ca1cc, 0x2de92c6f, 0x4a7484aa, 0x5cb0a9dc, 0x76f988da] +
    [0x983e5152, 0xa831c66d, 0xb00327c8, 0xbf597fc7, 0xc6e00bf3, 0xd5a79147, 0x06ca6351, 0x14292967] +
    [0x27b70a85, 0x2e1b2138, 0x4d2c6dfc, 0x53380d13, 0x650a7354, 0x766a0abb, 0x81c2c92e, 0x92722c85] +
    [0xa2bfe8a1, 0xa81a664b, 0xc24b8b70, 0xc76c51a3, 0xd192e819, 0xd6990624, 0xf40e3585, 0x106aa070] +
    [0x19a4c116, 0x1e376c08, 0x2748774c, 0x34b0bcb5, 0x391c0cb3, 0x4ed8aa4a, 0x5b9cca4f, 0x682e6ff3] +
    [0x748f82ee, 0x78a5636f, 0x84c87814, 0x8cc70208, 0x90befffa, 0xa4506ceb, 0xbef9a3f7, 0xc67178f2]

  /** The hash value as 32 bytes, most significant first. */
  function Words(v: Words8): seq<Word> { [v.a, v.b, v.c, v.d, v.e, v.f, v.g, v.h] }
}
