/**
  lib/rosterpilot/draft.ts:102-180: the hand-written SHA-256. Its words live in typed arrays, its
  bitwise operators return signed 32-bit numbers, its sums are plain numbers and each is brought back
  by one `>>> 0`. It computes the digest of FIPS 180-4.
 */
module Sha256 {
  import opened ByteTypes
  import opened Fips180
  import opened Sha256Padding

  // ---- The number operators ----

  /** `x >>> 0`. */
  function ToUint32(x: int): Word { x % WORD }

  /** What a bitwise operator returns: the signed reading of 32 bits. */
  function ToInt32(w: Word): (x: int)
    ensures -0x8000_0000 <= x < 0x8000_0000
  {
    if w < 0x8000_0000 then w else w - WORD
  }

  /** The 32 bits a bitwise operator takes of a number. */
  function Taken(x: int): bv32 { ToBits(ToUint32(x)) }

  function BitAnd(x: int, y: int): int { ToInt32(OfBits(Taken(x) & Taken(y))) }

  function BitOr(x: int, y: int): int { ToInt32(OfBits(Taken(x) | Taken(y))) }

  function BitXor(x: int, y: int): int { ToInt32(OfBits(Taken(x) ^ Taken(y))) }

  function BitNot(x: int): int { ToInt32(OfBits(!Taken(x))) }

  function ShiftedLeft(z: bv32, n: nat): bv32
    requires n < 32
  {
    z << n
  }

  function ShiftedRight(z: bv32, n: nat): bv32
    requires n < 32
  {
    z >> n
  }

  function ShiftLeft(x: int, n: nat): int
    requires n < 32
  {
    ToInt32(OfBits(ShiftedLeft(Taken(x), n)))
  }

  /** `>>>`, which does not return a signed number. */
  function ShiftRight(x: int, n: nat): int
    requires n < 32
  {
    OfBits(ShiftedRight(Taken(x), n))
  }

  function Rotate(word: int, amount: nat): int
    requires 0 < amount < 32
  {
    BitOr(ShiftRight(word, amount), ShiftLeft(word, 32 - amount))
  }

  lemma SignRoundTrip(w: Word)
    ensures ToUint32(ToInt32(w)) == w && ToUint32(w) == w
  {}

  /** Each operator is the word operation of section 3.2 between the two readings. */
  lemma OperatorsAre(x: int, y: int)
    ensures BitAnd(x, y) == ToInt32(And(ToUint32(x), ToUint32(y)))
    ensures BitOr(x, y) == ToInt32(Or(ToUint32(x), ToUint32(y)))
    ensures BitXor(x, y) == ToInt32(Xor(ToUint32(x), ToUint32(y)))
    ensures BitNot(x) == ToInt32(Not(ToUint32(x)))
  {
    hide ToInt32, ToUint32, ToBits, OfBits;
  }

  lemma ShiftedIs(w: Word, n: nat)
    requires n < 32
    ensures OfBits(ShiftedLeft(ToBits(w), n)) == Shl(n, w) && OfBits(ShiftedRight(ToBits(w), n)) == Shr(n, w)
  {
    hide ToBits, OfBits;
  }

  lemma ShiftsAre(x: int, n: nat)
    requires n < 32
    ensures ShiftLeft(x, n) == ToInt32(Shl(n, ToUint32(x))) && ShiftRight(x, n) == Shr(n, ToUint32(x))
  {
    ShiftedIs(ToUint32(x), n);
    hide *;
    ShiftsOf(x, n);
  }

  lemma ShiftsOf(x: int, n: nat)
    requires n < 32
    ensures ShiftLeft(x, n) == ToInt32(OfBits(ShiftedLeft(ToBits(ToUint32(x)), n)))
    ensures ShiftRight(x, n) == OfBits(ShiftedRight(ToBits(ToUint32(x)), n))
  {
    hide ToBits, OfBits, ShiftedLeft, ShiftedRight, ToInt32, ToUint32;
  }

  lemma SumMod(x: int, y: int)
    ensures ToUint32(x + y) == Add(ToUint32(x), ToUint32(y))
  {}

  /** The signed operators agree with the word operators once brought back. */
  lemma XorAgrees(x: int, y: int)
    ensures ToUint32(BitXor(x, y)) == Xor(ToUint32(x), ToUint32(y))
  {
    OperatorsAre(x, y);
    hide BitXor, Xor;
    SignRoundTrip(Xor(ToUint32(x), ToUint32(y)));
  }

  lemma AndAgrees(x: int, y: int)
    ensures ToUint32(BitAnd(x, y)) == And(ToUint32(x), ToUint32(y))
  {
    OperatorsAre(x, y);
    hide BitAnd, And;
    SignRoundTrip(And(ToUint32(x), ToUint32(y)));
  }

  lemma RotateAgrees(word: Word, amount: nat)
    requires 0 < amount < 32
    ensures ToUint32(Rotate(word, amount)) == Rotr(amount, word)
  {
    OperatorsAre(ShiftRight(word, amount), ShiftLeft(word, 32 - amount));
    ShiftsAre(word, amount);
    ShiftsAre(word, 32 - amount);
    hide Or, Shl, Shr, BitOr, ShiftLeft, ShiftRight;
    SignRoundTrip(word);
    SignRoundTrip(Shl(32 - amount, word));
    SignRoundTrip(Shr(amount, word));
    SignRoundTrip(Or(Shr(amount, word), Shl(32 - amount, word)));
  }

  lemma ShiftAgrees(word: Word, n: nat)
    requires n < 32
    ensures ToUint32(ShiftRight(word, n)) == Shr(n, word)
  {
    ShiftsAre(word, n);
    hide Shr, ShiftRight;
    SignRoundTrip(word);
    SignRoundTrip(Shr(n, word));
  }

  lemma AddCommutes(x: Word, y: Word)
    ensures Add(x, y) == Add(y, x)
  {}

  lemma AddAssociates(x: Word, y: Word, z: Word)
    ensures Add(Add(x, y), z) == Add(x, Add(y, z))
  {
    ModTwice(x + y, z);
    ModTwice(y + z, x);
  }

  lemma ModTwice(n: nat, z: nat)
    ensures (n % WORD + z) % WORD == (n + z) % WORD
  {
    var q := n / WORD;
    assert n == q * WORD + n % WORD;
  }

  // ---- The mixing expressions ----

  function Mix3(x: int, y: int, z: int): int { BitXor(BitXor(x, y), z) }

  lemma Mix3Agrees(x: int, y: int, z: int)
    ensures ToUint32(Mix3(x, y, z)) == Xor(Xor(ToUint32(x), ToUint32(y)), ToUint32(z))
  {
    XorAgrees(x, y);
    XorAgrees(BitXor(x, y), z);
  }

  function Choose(e: int, f: int, g: int): int { BitXor(BitAnd(e, f), BitAnd(BitNot(e), g)) }

  function Majority(a: int, b: int, c: int): int { Mix3(BitAnd(a, b), BitAnd(a, c), BitAnd(b, c)) }

  lemma ChooseAgrees(e: Word, f: Word, g: Word)
    ensures ToUint32(Choose(e, f, g)) == Ch(e, f, g)
  {
    OperatorsAre(e, e);
    hide And, Not, Xor, BitNot, BitAnd, BitXor;
    SignRoundTrip(e);
    SignRoundTrip(f);
    SignRoundTrip(g);
    SignRoundTrip(Not(e));
    AndAgrees(e, f);
    AndAgrees(BitNot(e), g);
    XorAgrees(BitAnd(e, f), BitAnd(BitNot(e), g));
  }

  lemma MajorityAgrees(a: Word, b: Word, c: Word)
    ensures ToUint32(Majority(a, b, c)) == Maj(a, b, c)
  {
    hide And, Xor, Mix3;
    SignRoundTrip(a);
    SignRoundTrip(b);
    SignRoundTrip(c);
    AndAgrees(a, b);
    AndAgrees(a, c);
    AndAgrees(b, c);
    Mix3Agrees(BitAnd(a, b), BitAnd(a, c), BitAnd(b, c));
  }

  lemma RotationsAgree(x: Word, i: nat, j: nat, k: nat)
    requires 0 < i < 32 && 0 < j < 32 && 0 < k < 32
    ensures ToUint32(Mix3(Rotate(x, i), Rotate(x, j), Rotate(x, k))) == Xor(Xor(Rotr(i, x), Rotr(j, x)), Rotr(k, x))
  {
    hide Xor, Mix3, Rotate, Rotr, ToUint32;
    RotateAgrees(x, i);
    RotateAgrees(x, j);
    RotateAgrees(x, k);
    Mix3Agrees(Rotate(x, i), Rotate(x, j), Rotate(x, k));
  }

  lemma ShiftedAgree(x: Word, i: nat, j: nat, k: nat)
    requires 0 < i < 32 && 0 < j < 32 && 0 < k < 32
    ensures ToUint32(Mix3(Rotate(x, i), Rotate(x, j), ShiftRight(x, k))) == Xor(Xor(Rotr(i, x), Rotr(j, x)), Shr(k, x))
  {
    ShiftAgrees(x, k);
    hide Xor, Mix3, Rotate, Rotr, ToUint32, ShiftRight;
    RotateAgrees(x, i);
    RotateAgrees(x, j);
    Mix3Agrees(Rotate(x, i), Rotate(x, j), ShiftRight(x, k));
  }

  // ---- One word of the schedule, one round ----

  function ScheduleWord(w16: Word, w15: Word, w7: Word, w2: Word): Word {
    var left := Mix3(Rotate(w15, 7), Rotate(w15, 18), ShiftRight(w15, 3));
    var right := Mix3(Rotate(w2, 17), Rotate(w2, 19), ShiftRight(w2, 10));
    ToUint32(w16 + left + w7 + right)
  }

  lemma FourAgree(a: Word, x: int, b: Word, y: int)
    ensures ToUint32(a + x + b + y) == Add(Add(Add(ToUint32(y), b), ToUint32(x)), a)
  {
    SignRoundTrip(a);
    SignRoundTrip(b);
    SumMod(a + x + b, y);
    SumMod(a + x, b);
    SumMod(a, x);
    hide Add, ToUint32;
    var s, u := ToUint32(x), ToUint32(y);
    AddCommutes(a, s);
    AddAssociates(s, a, b);
    AddCommutes(a, b);
    AddAssociates(s, b, a);
    AddCommutes(Add(Add(s, b), a), u);
    AddAssociates(u, Add(s, b), a);
    AddCommutes(s, b);
    AddAssociates(u, b, s);
  }

  lemma ScheduleWordAgrees(w16: Word, w15: Word, w7: Word, w2: Word)
    ensures ScheduleWord(w16, w15, w7, w2) == Add(Add(Add(LowerSigma1(w2), w7), LowerSigma0(w15)), w16)
  {
    hide Mix3, Rotate, ShiftRight, Xor, Rotr, Shr, ToUint32, Add;
    ShiftedAgree(w15, 7, 18, 3);
    ShiftedAgree(w2, 17, 19, 10);
    FourAgree(w16, Mix3(Rotate(w15, 7), Rotate(w15, 18), ShiftRight(w15, 3)), w7,
              Mix3(Rotate(w2, 17), Rotate(w2, 19), ShiftRight(w2, 10)));
  }

  function Temporary1(e: Word, f: Word, g: Word, h: Word, k: Word, w: Word): Word {
    ToUint32(h + Mix3(Rotate(e, 6), Rotate(e, 11), Rotate(e, 25)) + Choose(e, f, g) + k + w)
  }

  function Temporary2(a: Word, b: Word, c: Word): Word {
    ToUint32(Mix3(Rotate(a, 2), Rotate(a, 13), Rotate(a, 22)) + Majority(a, b, c))
  }

  lemma FiveAgree(h: Word, x: int, y: int, k: Word, w: Word)
    ensures ToUint32(h + x + y + k + w) == Add(Add(Add(Add(h, ToUint32(x)), ToUint32(y)), k), w)
  {
    SignRoundTrip(h);
    SignRoundTrip(k);
    SignRoundTrip(w);
    hide Add, ToUint32;
    SumMod(h + x + y + k, w);
    SumMod(h + x + y, k);
    SumMod(h + x, y);
    SumMod(h, x);
  }

  lemma TemporariesAgree(v: Words8, k: Word, w: Word)
    ensures Temporary1(v.e, v.f, v.g, v.h, k, w) == Add(Add(Add(Add(v.h, UpperSigma1(v.e)), Ch(v.e, v.f, v.g)), k), w)
    ensures Temporary2(v.a, v.b, v.c) == Add(UpperSigma0(v.a), Maj(v.a, v.b, v.c))
  {
    hide Mix3, Rotate, Xor, Rotr, ToUint32, Add, Choose, Ch, Majority, Maj;
    RotationsAgree(v.e, 6, 11, 25);
    ChooseAgrees(v.e, v.f, v.g);
    FiveAgree(v.h, Mix3(Rotate(v.e, 6), Rotate(v.e, 11), Rotate(v.e, 25)), Choose(v.e, v.f, v.g), k, w);
    RotationsAgree(v.a, 2, 13, 22);
    MajorityAgrees(v.a, v.b, v.c);
    SumMod(Mix3(Rotate(v.a, 2), Rotate(v.a, 13), Rotate(v.a, 22)), Majority(v.a, v.b, v.c));
  }

  // ---- The loops ----

  lemma FourMore(n: nat, width: nat)
    ensures Bytes(n, width + 4) ==
            Bytes(n / 0x1_0000_0000, width) + [n / 0x100_0000 % 256, n / 0x1_0000 % 256, n / 0x100 % 256, n % 256]
  {
    TwoMore(n, width + 2);
    TwoMore(n / 0x1_0000, width);
    hide Bytes;
    QuotientChain(n);
  }

  lemma QuotientChain(n: nat)
    ensures n / 0x1_0000 / 0x100 == n / 0x100_0000 && n / 0x1_0000 / 0x1_0000 == n / 0x1_0000_0000
  {}

  lemma TwoMore(n: nat, width: nat)
    ensures Bytes(n, width + 2) == Bytes(n / 0x1_0000, width) + [n / 0x100 % 256, n % 256]
  {
    assert Bytes(n / 256, width + 1) == Bytes(n / 256 / 256, width) + [n / 256 % 256];
  }

  /** The two words written last are the 64-bit length. */
  lemma LengthBytes(bitLength: nat)
    requires bitLength < 0x20_0000_0000_0000
    ensures Bytes(ToUint32(bitLength / WORD), 4) + Bytes(ToUint32(bitLength), 4) == Bytes(bitLength, 8)
  {
    TopWord(bitLength);
    FourBytes(bitLength / 0x1_0000_0000);
    FourBytes(bitLength % 0x1_0000_0000);
    FourMore(bitLength, 4);
    LowDigits(bitLength);
    hide Bytes;
  }

  lemma TopWord(n: nat)
    requires n < 0x20_0000_0000_0000
    ensures ToUint32(n / WORD) == n / 0x1_0000_0000 && ToUint32(n) == n % 0x1_0000_0000
  {}

  lemma FourBytes(n: nat)
    ensures Bytes(n, 4) == [n / 0x100_0000 % 256, n / 0x1_0000 % 256, n / 0x100 % 256, n % 256]
  {
    FourMore(n, 0);
    NoBytes(n / 0x1_0000_0000);
  }

  lemma NoBytes(n: nat)
    ensures Bytes(n, 0) == []
  {}

  lemma LowDigits(n: nat)
    ensures var low := n % WORD;
            && low / 0x100_0000 % 256 == n / 0x100_0000 % 256 && low / 0x1_0000 % 256 == n / 0x1_0000 % 256
            && low / 0x100 % 256 == n / 0x100 % 256 && low % 256 == n % 256
  {
    var q, low := n / 0x1_0000_0000, n % 0x1_0000_0000;
    assert n / 0x100_0000 == 256 * q + low / 0x100_0000;
    assert n / 0x1_0000 == 256 * (256 * q) + low / 0x1_0000;
    assert n / 0x100 == 256 * (256 * 256 * q) + low / 0x100;
    Mod256(q, low / 0x100_0000);
    Mod256(256 * q, low / 0x1_0000);
    Mod256(256 * 256 * q, low / 0x100);
    Mod256(256 * 256 * 256 * q, low);
  }

  lemma Mod256(q: nat, r: nat)
    ensures (256 * q + r) % 256 == r % 256
  {}

  /** `DataView.setUint32(at, value)`. */
  method SetUint32(view: array<Byte>, at: nat, value: nat)
    requires at + 4 <= view.Length && value < WORD
    modifies view
    ensures view[..] == old(view[..at]) + Bytes(value, 4) + old(view[at + 4..])
  {
    view[at] := value / 0x100_0000;
    view[at + 1] := value / 0x1_0000 % 256;
    view[at + 2] := value / 0x100 % 256;
    view[at + 3] := value % 256;
    FourMore(value, 0);
    NoBytes(value / 0x1_0000_0000);
  }

  /** A zeroed array with the message and the marker byte in front. */
  method CopyAndMark(bytes: seq<Byte>, paddedLength: nat) returns (padded: array<Byte>)
    requires |bytes| < paddedLength
    ensures fresh(padded) && padded[..] == bytes + [0x80] + ZeroBytes(paddedLength - |bytes| - 1)
  {
    padded := new Byte[paddedLength](i => 0);
    for i := 0 to |bytes|
      invariant padded[..] == bytes[..i] + ZeroBytes(paddedLength - i)
    {
      padded[i] := bytes[i];
    }
    padded[|bytes|] := 0x80;
  }

  /** The two `setUint32` calls for the length. */
  method WriteLength(padded: array<Byte>, bitLength: nat)
    requires padded.Length >= 8 && bitLength < 0x20_0000_0000_0000
    modifies padded
    ensures padded[..] == old(padded[..padded.Length - 8]) + Bytes(bitLength, 8)
  {
    hide Bytes, ToUint32;
    ghost var before := padded[..];
    var n := padded.Length;
    var high, low := ToUint32(bitLength / WORD), ToUint32(bitLength);
    SetUint32(padded, n - 8, high);
    SetUint32(padded, n - 4, low);
    TailWritten(before, n, Bytes(high, 4), Bytes(low, 4));
    LengthBytes(bitLength);
  }

  /** The padded message. */
  method Pad(bytes: seq<Byte>) returns (padded: array<Byte>)
    requires |bytes| < MAX_LENGTH
    ensures fresh(padded) && padded[..] == Padded(bytes)
  {
    hide Bytes, ZeroBytes, PaddedLength, Padded;
    var paddedLength := PaddedLength(|bytes|);
    padded := CopyAndMark(bytes, paddedLength);
    ghost var filled := padded[..];
    WriteLength(padded, |bytes| * 8);
    PaddedFrom(bytes, filled, Bytes(|bytes| * 8, 8));
  }

  lemma PaddedFrom(bytes: seq<Byte>, filled: seq<Byte>, length: seq<Byte>)
    requires filled == bytes + [0x80] + ZeroBytes(PaddedLength(|bytes|) - |bytes| - 1) &&
             length == Bytes(8 * |bytes|, 8)
    ensures filled[..PaddedLength(|bytes|) - 8] + length == Padded(bytes)
  {
    hide Bytes, PaddedLength;
    assert filled[..PaddedLength(|bytes|) - 8] == bytes + [0x80] + ZeroBytes(Gap(|bytes|));
  }

  lemma TailWritten(s: seq<Byte>, n: nat, x: seq<Byte>, y: seq<Byte>)
    requires |s| == n && n >= 8 && |x| == 4 && |y| == 4
    ensures var t := s[..n - 8] + x + s[n - 4..]; t[..n - 4] + y + t[n..] == s[..n - 8] + (x + y)
  {}

  /** The first sixteen words of the block at `offset`. */
  method LoadBlock(padded: array<Byte>, n: nat, words: array<Word>)
    requires words.Length == 64 && 64 * (n + 1) <= padded.Length && padded as object != words as object
    modifies words
    ensures forall t :: 0 <= t < 16 ==> words[t] == Block(padded[..], n)[t]
  {
    ghost var bytes := padded[..];
    for index := 0 to 16
      invariant padded[..] == bytes
      invariant forall t :: 0 <= t < index ==> words[t] == WordAt(bytes, 64 * n + 4 * t)
    {
      var at := 64 * n + 4 * index;
      var first: int, second: int, third: int := padded[at], padded[at + 1], padded[at + 2];
      words[index] := first * 0x100_0000 + second * 0x1_0000 + third * 0x100 + padded[at + 3];
    }
  }

  /** `words` for the block at `offset`. */
  method FillSchedule(padded: array<Byte>, n: nat, words: array<Word>)
    requires words.Length == 64 && 64 * (n + 1) <= padded.Length && padded as object != words as object
    modifies words
    ensures forall t :: 0 <= t < 64 ==> words[t] == W(Block(padded[..], n), t)
  {
    hide Block, ScheduleWord, LowerSigma0, LowerSigma1, Add;
    ghost var block := Block(padded[..], n);
    LoadBlock(padded, n, words);
    for index := 16 to 64
      invariant padded[..] == old(padded[..])
      invariant forall t :: 0 <= t < index ==> words[t] == W(block, t)
    {
      ScheduleWordAgrees(words[index - 16], words[index - 15], words[index - 7], words[index - 2]);
      words[index] := ScheduleWord(words[index - 16], words[index - 15], words[index - 7], words[index - 2]);
    }
  }

  ghost predicate Holds(state: array<Word>, v: Words8)
    reads state
  {
    state.Length == 8 && state[..] == Words(v)
  }

  /** The sixty-four rounds over one block. */
  method RunRounds(v: Words8, words: array<Word>, ghost block: seq<Word>) returns (r: Words8)
    requires words.Length == 64 && |block| == 16 && forall t :: 0 <= t < 64 ==> words[t] == W(block, t)
    ensures r == Rounds(v, block, 64)
  {
    hide Temporary1, Temporary2, UpperSigma0, UpperSigma1, Ch, Maj, Add, Plus, W;
    var a, b, c, d, e, f, g, h := v.a, v.b, v.c, v.d, v.e, v.f, v.g, v.h;
    for index := 0 to 64
      invariant Words8(a, b, c, d, e, f, g, h) == Rounds(v, block, index)
    {
      var temporary1 := Temporary1(e, f, g, h, K[index], words[index]);
      var temporary2 := Temporary2(a, b, c);
      TemporariesAgree(Words8(a, b, c, d, e, f, g, h), K[index], words[index]);
      OneSum(d, temporary1);
      OneSum(temporary1, temporary2);
      h := g;
      g := f;
      f := e;
      e := Plus(d, temporary1);
      d := c;
      c := b;
      b := a;
      a := Plus(temporary1, temporary2);
    }
    r := Words8(a, b, c, d, e, f, g, h);
  }

  /** `(x + y) >>> 0`. */
  function Plus(x: Word, y: Word): Word { ToUint32(x + y) }

  lemma OneSum(x: Word, y: Word)
    ensures Plus(x, y) == Add(x, y)
  {}

  method AddTo(state: array<Word>, ghost u: Words8, v: Words8)
    requires Holds(state, u)
    modifies state
    ensures Holds(state, Sum(u, v))
  {
    hide Add, Plus;
    var entries, before := Words(v), Words(u);
    for index := 0 to 8
      invariant state.Length == 8
      invariant forall j :: 0 <= j < index ==> state[j] == Add(before[j], entries[j])
      invariant forall j :: index <= j < 8 ==> state[j] == before[j]
    {
      OneSum(state[index], entries[index]);
      state[index] := Plus(state[index], entries[index]);
    }
    assert state[..] == Words(Sum(u, v));
  }

  // ---- The digest as text ----

  const HEX := "0123456789abcdef"

  /** `word.toString(16)`. */
  function Hexadecimal(n: nat): (r: string)
    ensures r != ""
  {
    if n < 16 then [HEX[n]] else Hexadecimal(n / 16) + [HEX[n % 16]]
  }

  function PadStart(s: string, width: nat): string {
    seq(if |s| < width then width - |s| else 0, i => '0') + s
  }

  /** The `width` hexadecimal digits of `n`. */
  function Digits(n: nat, width: nat): (r: string)
    ensures |r| == width
  {
    if width == 0 then "" else Digits(n / 16, width - 1) + [HEX[n % 16]]
  }

  lemma {:induction false} DigitsOfZero(width: nat)
    ensures Digits(0, width) == seq(width, i => '0')
  {
    if width != 0 { DigitsOfZero(width - 1); }
  }

  lemma {:induction false} PaddedDigits(n: nat, width: nat)
    requires width > 0 && n < Power(4 * width)
    ensures |Hexadecimal(n)| <= width && PadStart(Hexadecimal(n), width) == Digits(n, width)
  {
    hide PadStart;
    if n < 16 {
      DigitsOfZero(width - 1);
      PadStartAppend("", width, HEX[n]);
      assert "" + [HEX[n]] == [HEX[n]] && n / 16 == 0 && n % 16 == n;
      PadStartNothing(width - 1);
    } else {
      assert Power(4 * width) == 16 * Power(4 * (width - 1)) by { PowerFour(4 * (width - 1)); }
      assert width > 1;
      PaddedDigits(n / 16, width - 1);
      PadStartAppend(Hexadecimal(n / 16), width, HEX[n % 16]);
    }
  }

  lemma PadStartAppend(s: string, width: nat, c: char)
    requires width > 0
    ensures PadStart(s + [c], width) == PadStart(s, width - 1) + [c]
  {}

  lemma PadStartNothing(width: nat)
    ensures PadStart("", width) == seq(width, i => '0')
  {}

  lemma PowerFour(k: nat)
    ensures Power(k + 4) == 16 * Power(k)
  {
    assert Power(k + 2) == 4 * Power(k);
  }

  function DigestOf(words: seq<Word>): string {
    if words == [] then "" else DigestOf(words[..|words| - 1]) + Digits(words[|words| - 1], 8)
  }

  /** The digest of FIPS 180-4 for a message of bytes, in hexadecimal. */
  function FipsDigest(message: seq<Byte>): string {
    DigestOf(Words(HashValue(Padded(message), |Padded(message)| / 64)))
  }

  lemma WordDigits(w: Word)
    ensures PadStart(Hexadecimal(w), 8) == Digits(w, 8)
  {
    PowerEight(0);
    PowerEight(8);
    PowerEight(16);
    PowerEight(24);
    hide Hexadecimal, PadStart, Digits;
    PaddedDigits(w, 8);
  }

  method Join(state: array<Word>) returns (digest: string)
    ensures digest == DigestOf(state[..])
  {
    digest := "";
    for i := 0 to state.Length
      invariant digest == DigestOf(state[..i])
    {
      WordDigits(state[i]);
      assert state[..i + 1][..i] == state[..i];
      digest := digest + PadStart(Hexadecimal(state[i]), 8);
    }
    assert state[..state.Length] == state[..];
  }

  /** `sha256`, from the encoded bytes on: the digest FIPS 180-4 defines, for every message. */
  method Sha256Of(bytes: seq<Byte>) returns (digest: string)
    requires |bytes| < MAX_LENGTH
    ensures digest == FipsDigest(bytes)
  {
    hide Block, W, Rounds, Padded, DigestOf, Holds, PaddedLength;
    var padded := Pad(bytes);
    var words := new Word[64](i => 0);
    var state := new Word[8](i requires 0 <= i < 8 => Words(H0)[i]);
    assert Holds(state, H0) by { InitialState(state); }
    var blocks := padded.Length / 64;
    for n := 0 to blocks
      invariant padded[..] == Padded(bytes)
      invariant Holds(state, HashValue(padded[..], n))
    {
      ghost var before := HashValue(padded[..], n);
      FillSchedule(padded, n, words);
      HeldWords(state, before);
      var v := RunRounds(Words8(state[0], state[1], state[2], state[3], state[4], state[5], state[6], state[7]), words,
                         Block(padded[..], n));
      AddTo(state, before, v);
    }
    HeldWords(state, HashValue(padded[..], blocks));
    digest := Join(state);
  }

  lemma InitialState(state: array<Word>)
    requires state.Length == 8 && forall i :: 0 <= i < 8 ==> state[i] == Words(H0)[i]
    ensures Holds(state, H0)
  {
    var held, h0: seq<Word> := state[..], Words(H0);
    assert |held| == 8 && |h0| == 8;
    assert forall i :: 0 <= i < 8 ==> held[i] == state[i];
    assert held == h0;
  }

  lemma HeldWords(state: array<Word>, v: Words8)
    requires Holds(state, v)
    ensures state.Length == 8 && state[..] == Words(v)
    ensures Words8(state[0], state[1], state[2], state[3], state[4], state[5], state[6], state[7]) == v
  {
    assert forall i :: 0 <= i < 8 ==> state[i] == state[..][i];
  }
}
