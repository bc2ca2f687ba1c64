/**
  lib/rosterpilot/draft.ts:103-120 and 130-133: the tables of constants are the ones sections 4.2.2
  and 5.3.3 of FIPS 180-4 derive from the first primes.
 */
module Sha256Constants {
  import opened Fips180

  function CubeRoot(p: nat): nat {
    if p < 8 then 1 else if p < 27 then 2 else if p < 64 then 3 else if p < 125 then 4 else if p < 216 then 5 else 6
  }

  function SquareRoot(p: nat): nat { if p < 4 then 1 else if p < 9 then 2 else if p < 16 then 3 else 4 }

  predicate CubesFit(primes: seq<nat>, k: seq<Word>)
    requires |primes| == |k|
  {
    primes == [] || (CubeFits(primes[0], k[0]) && CubesFit(primes[1..], k[1..]))
  }

  predicate CubeFits(p: nat, k: Word) {
    var r := CubeRoot(p) * 0x1_0000_0000 + k;
    Between(Cube(r), p * Cube(0x1_0000_0000), Cube(r + 1))
  }

  predicate SquareFits(p: nat, h: Word) {
    var r := SquareRoot(p) * 0x1_0000_0000 + h;
    Between(Square(r), p * Square(0x1_0000_0000), Square(r + 1))
  }

  lemma {:induction false} CubesFitConcat(p: seq<nat>, q: seq<nat>, k: seq<Word>, m: seq<Word>)
    requires |p| == |k| && |q| == |m| && CubesFit(p, k) && CubesFit(q, m)
    ensures CubesFit(p + q, k + m)
  {
    if p == [] {
      assert p + q == q && k + m == m;
    } else {
      assert (p + q)[1..] == p[1..] + q && (k + m)[1..] == k[1..] + m;
      CubesFitConcat(p[1..], q, k[1..], m);
    }
  }

  lemma {:induction false} CubesFitAt(p: seq<nat>, k: seq<Word>, t: nat)
    requires |p| == |k| && CubesFit(p, k) && t < |p|
    ensures CubeFits(p[t], k[t])
  {
    if t > 0 { CubesFitAt(p[1..], k[1..], t - 1); }
  }

  lemma Row0()
    ensures CubesFit([2, 3, 5, 7, 11, 13, 17, 19],
                     [0x428a2f98, 0x71374491, 0xb5c0fbcf, 0xe9b5dba5, 0x3956c25b, 0x59f111f1, 0x923f82a4, 0xab1c5ed5])
  {}

  lemma Row1()
    ensures CubesFit([23, 29, 31, 37, 41, 43, 47, 53],
                     [0xd807aa98, 0x12835b01, 0x243185be, 0x550c7dc3, 0x72be5d74, 0x80deb1fe, 0x9bdc06a7, 0xc19bf174])
  {}

  lemma Row2()
    ensures CubesFit([59, 61, 67, 71, 73, 79, 83, 89],
                     [0xe49b69c1, 0xefbe4786, 0x0fc19dc6, 0x240ca1cc, 0x2de92c6f, 0x4a7484aa, 0x5cb0a9dc, 0x76f988da])
  {}

  lemma Row3()
    ensures CubesFit([97, 101, 103, 107, 109, 113, 127, 131],
                     [0x983e5152, 0xa831c66d, 0xb00327c8, 0xbf597fc7, 0xc6e00bf3, 0xd5a79147, 0x06ca6351, 0x14292967])
  {}

  lemma Row4()
    ensures CubesFit([137, 139, 149, 151, 157, 163, 167, 173],
                     [0x27b70a85, 0x2e1b2138, 0x4d2c6dfc, 0x53380d13, 0x650a7354, 0x766a0abb, 0x81c2c92e, 0x92722c85])
  {}

  lemma Row5()
    ensures CubesFit([179, 181, 191, 193, 197, 199, 211, 223],
                     [0xa2bfe8a1, 0xa81a664b, 0xc24b8b70, 0xc76c51a3, 0xd192e819, 0xd6990624, 0xf40e3585, 0x106aa070])
  {}

  lemma Row6()
    ensures CubesFit([227, 229, 233, 239, 241, 251, 257, 263],
                     [0x19a4c116, 0x1e376c08, 0x2748774c, 0x34b0bcb5, 0x391c0cb3, 0x4ed8aa4a, 0x5b9cca4f, 0x682e6ff3])
  {}

  lemma Row7()
    ensures CubesFit([269, 271, 277, 281, 283, 293, 307, 311],
                     [0x748f82ee, 0x78a5636f, 0x84c87814, 0x8cc70208, 0x90befffa, 0xa4506ceb, 0xbef9a3f7, 0xc67178f2])
  {}

  lemma AllCubesFit()
    ensures |PRIMES| == |K| == 64 && CubesFit(PRIMES, K)
  {
    hide CubesFit, CubeFits;
    Row0();
    Row1();
    Row2();
    Row3();
    Row4();
    Row5();
    Row6();
    Row7();
    var p0: seq<nat>, k0: seq<Word> := [2, 3, 5, 7, 11, 13, 17, 19],
                                       [0x428a2f98, 0x71374491, 0xb5c0fbcf, 0xe9b5dba5, 0x3956c25b, 0x59f111f1,
                                        0x923f82a4, 0xab1c5ed5];
    var p1: seq<nat>, k1: seq<Word> := [23, 29, 31, 37, 41, 43, 47, 53],
                                       [0xd807aa98, 0x12835b01, 0x243185be, 0x550c7dc3, 0x72be5d74, 0x80deb1fe,
                                        0x9bdc06a7, 0xc19bf174];
    var p2: seq<nat>, k2: seq<Word> := [59, 61, 67, 71, 73, 79, 83, 89],
                                       [0xe49b69c1, 0xefbe4786, 0x0fc19dc6, 0x240ca1cc, 0x2de92c6f, 0x4a7484aa,
                                        0x5cb0a9dc, 0x76f988da];
    var p3: seq<nat>, k3: seq<Word> := [97, 101, 103, 107, 109, 113, 127, 131],
                                       [0x983e5152, 0xa831c66d, 0xb00327c8, 0xbf597fc7, 0xc6e00bf3, 0xd5a79147,
                                        0x06ca6351, 0x14292967];
    var p4: seq<nat>, k4: seq<Word> := [137, 139, 149, 151, 157, 163, 167, 173],
                                       [0x27b70a85, 0x2e1b2138, 0x4d2c6dfc, 0x53380d13, 0x650a7354, 0x766a0abb,
                                        0x81c2c92e, 0x92722c85];
    var p5: seq<nat>, k5: seq<Word> := [179, 181, 191, 193, 197, 199, 211, 223],
                                       [0xa2bfe8a1, 0xa81a664b, 0xc24b8b70, 0xc76c51a3, 0xd192e819, 0xd6990624,
                                        0xf40e3585, 0x106aa070];
    var p6: seq<nat>, k6: seq<Word> := [227, 229, 233, 239, 241, 251, 257, 263],
                                       [0x19a4c116, 0x1e376c08, 0x2748774c, 0x34b0bcb5, 0x391c0cb3, 0x4ed8aa4a,
                                        0x5b9cca4f, 0x682e6ff3];
    var p7: seq<nat>, k7: seq<Word> := [269, 271, 277, 281, 283, 293, 307, 311],
                                       [0x748f82ee, 0x78a5636f, 0x84c87814, 0x8cc70208, 0x90befffa, 0xa4506ceb,
                                        0xbef9a3f7, 0xc67178f2];
    CubesFitConcat(p0, p1, k0, k1);
    CubesFitConcat(p0 + p1, p2, k0 + k1, k2);
    CubesFitConcat(p0 + p1 + p2, p3, k0 + k1 + k2, k3);
    CubesFitConcat(p0 + p1 + p2 + p3, p4, k0 + k1 + k2 + k3, k4);
    CubesFitConcat(p0 + p1 + p2 + p3 + p4, p5, k0 + k1 + k2 + k3 + k4, k5);
    CubesFitConcat(p0 + p1 + p2 + p3 + p4 + p5, p6, k0 + k1 + k2 + k3 + k4 + k5, k6);
    CubesFitConcat(p0 + p1 + p2 + p3 + p4 + p5 + p6, p7, k0 + k1 + k2 + k3 + k4 + k5 + k6, k7);
  }

  /** Every round constant is the first 32 bits of the fractional part of the cube root of its prime. */
  lemma RoundConstants(t: nat)
    requires t < 64
    ensures |PRIMES| == |K| == 64 && CubeRootBits(PRIMES[t], K[t])
  {
    AllCubesFit();
    hide CubesFit, CubeFits;
    CubesFitAt(PRIMES, K, t);
    CubeFitsMeans(PRIMES[t], K[t]);
  }

  lemma CubeFitsMeans(p: nat, k: Word)
    requires CubeFits(p, k)
    ensures CubeRootBits(p, k)
  {
    assert Between(Cube(CubeRoot(p) * WORD + k), p * Cube(WORD), Cube(CubeRoot(p) * WORD + k + 1));
  }

  lemma SquareFitsMeans(p: nat, h: Word)
    requires SquareFits(p, h)
    ensures SquareRootBits(p, h)
  {
    assert Between(Square(SquareRoot(p) * WORD + h), p * Square(WORD), Square(SquareRoot(p) * WORD + h + 1));
  }

  /** The initial hash value is made of the square roots of the first eight primes. */
  lemma InitialConstants()
    ensures SquareRootBits(2, H0.a) && SquareRootBits(3, H0.b) && SquareRootBits(5, H0.c) && SquareRootBits(7, H0.d)
    ensures SquareRootBits(11, H0.e) && SquareRootBits(13, H0.f) && SquareRootBits(17, H0.g) && SquareRootBits(19, H0.h)
  {
    SquaresFit();
    hide SquareFits;
    SquareFitsMeans(2, H0.a);
    SquareFitsMeans(3, H0.b);
    SquareFitsMeans(5, H0.c);
    SquareFitsMeans(7, H0.d);
    SquareFitsMeans(11, H0.e);
    SquareFitsMeans(13, H0.f);
    SquareFitsMeans(17, H0.g);
    SquareFitsMeans(19, H0.h);
  }

  lemma SquaresFit()
    ensures SquareFits(2, 0x6a09e667) && SquareFits(3, 0xbb67ae85) && SquareFits(5, 0x3c6ef372) &&
            SquareFits(7, 0xa54ff53a)
    ensures SquareFits(11, 0x510e527f) && SquareFits(13, 0x9b05688c) && SquareFits(17, 0x1f83d9ab) &&
            SquareFits(19, 0x5be0cd19)
  {}
}
