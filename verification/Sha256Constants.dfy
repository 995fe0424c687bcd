/** The constants and functions of SHA-256 by what the standard says they are. */
module Sha256Constants {
  import opened Words
  import opened Arith
  import opened Sha256

  /** The first sixty-four prime numbers. */
  const P0: seq<nat> := [2, 3, 5, 7, 11, 13, 17, 19]
  const P1: seq<nat> := [23, 29, 31, 37, 41, 43, 47, 53]
  const P2: seq<nat> := [59, 61, 67, 71, 73, 79, 83, 89]
  const P3: seq<nat> := [97, 101, 103, 107, 109, 113, 127, 131]
  const P4: seq<nat> := [137, 139, 149, 151, 157, 163, 167, 173]
  const P5: seq<nat> := [179, 181, 191, 193, 197, 199, 211, 223]
  const P6: seq<nat> := [227, 229, 233, 239, 241, 251, 257, 263]
  const P7: seq<nat> := [269, 271, 277, 281, 283, 293, 307, 311]
  const PRIMES: seq<nat> := P0 + P1 + P2 + P3 + P4 + P5 + P6 + P7

  /** `k` is the first 32 bits of the fractional part of the cube root of `p`, whose whole part is `whole`. */
  predicate CubeRootBits(p: nat, whole: nat, k: u32)
  {
    var r := whole * 0x1_0000_0000 + k;
    r * r * r <= p * 0x1_0000_0000_0000_0000_0000_0000 < (r + 1) * (r + 1) * (r + 1)
  }

  /** The same of the square root. */
  predicate SquareRootBits(p: nat, whole: nat, k: u32)
  {
    var r := whole * 0x1_0000_0000 + k;
    r * r <= p * 0x1_0000_0000_0000_0000 < (r + 1) * (r + 1)
  }

  /** The whole parts of the roots of numbers below 343 and 25. */
  function CubeWhole(p: nat): nat { if p < 8 then 1 else if p < 27 then 2 else if p < 64 then 3 else if p < 125 then 4 else if p < 216 then 5 else 6 }
  function SquareWhole(p: nat): nat { if p < 4 then 1 else if p < 9 then 2 else if p < 16 then 3 else 4 }

  lemma Roots0()
    ensures CubeRootBits(2, 1, 0x428a2f98) && CubeWhole(2) == 1
    ensures CubeRootBits(3, 1, 0x71374491) && CubeWhole(3) == 1
    ensures CubeRootBits(5, 1, 0xb5c0fbcf) && CubeWhole(5) == 1
    ensures CubeRootBits(7, 1, 0xe9b5dba5) && CubeWhole(7) == 1
  {
  }

  lemma Table0()
    ensures PRIMES[0] == 2 && PRIMES[1] == 3 && PRIMES[2] == 5 && PRIMES[3] == 7
    ensures K[0] == 0x428a2f98 && K[1] == 0x71374491 && K[2] == 0xb5c0fbcf && K[3] == 0xe9b5dba5
  {
  }

  lemma RoundConstants0(i: nat)
    requires 0 <= i < 4
    ensures CubeRootBits(PRIMES[i], CubeWhole(PRIMES[i]), K[i])
  {
    hide CubeRootBits, CubeWhole;
    Roots0();
    Table0();
  }

  lemma Roots4()
    ensures CubeRootBits(11, 2, 0x3956c25b) && CubeWhole(11) == 2
    ensures CubeRootBits(13, 2, 0x59f111f1) && CubeWhole(13) == 2
    ensures CubeRootBits(17, 2, 0x923f82a4) && CubeWhole(17) == 2
    ensures CubeRootBits(19, 2, 0xab1c5ed5) && CubeWhole(19) == 2
  {
  }

  lemma Table4()
    ensures PRIMES[4] == 11 && PRIMES[5] == 13 && PRIMES[6] == 17 && PRIMES[7] == 19
    ensures K[4] == 0x3956c25b && K[5] == 0x59f111f1 && K[6] == 0x923f82a4 && K[7] == 0xab1c5ed5
  {
  }

  lemma RoundConstants4(i: nat)
    requires 4 <= i < 8
    ensures CubeRootBits(PRIMES[i], CubeWhole(PRIMES[i]), K[i])
  {
    hide CubeRootBits, CubeWhole;
    Roots4();
    Table4();
  }

  lemma Roots8()
    ensures CubeRootBits(23, 2, 0xd807aa98) && CubeWhole(23) == 2
    ensures CubeRootBits(29, 3, 0x12835b01) && CubeWhole(29) == 3
    ensures CubeRootBits(31, 3, 0x243185be) && CubeWhole(31) == 3
    ensures CubeRootBits(37, 3, 0x550c7dc3) && CubeWhole(37) == 3
  {
  }

  lemma Table8()
    ensures PRIMES[8] == 23 && PRIMES[9] == 29 && PRIMES[10] == 31 && PRIMES[11] == 37
    ensures K[8] == 0xd807aa98 && K[9] == 0x12835b01 && K[10] == 0x243185be && K[11] == 0x550c7dc3
  {
  }

  lemma RoundConstants8(i: nat)
    requires 8 <= i < 12
    ensures CubeRootBits(PRIMES[i], CubeWhole(PRIMES[i]), K[i])
  {
    hide CubeRootBits, CubeWhole;
    Roots8();
    Table8();
  }

  lemma Roots12()
    ensures CubeRootBits(41, 3, 0x72be5d74) && CubeWhole(41) == 3
    ensures CubeRootBits(43, 3, 0x80deb1fe) && CubeWhole(43) == 3
    ensures CubeRootBits(47, 3, 0x9bdc06a7) && CubeWhole(47) == 3
    ensures CubeRootBits(53, 3, 0xc19bf174) && CubeWhole(53) == 3
  {
  }

  lemma Table12()
    ensures PRIMES[12] == 41 && PRIMES[13] == 43 && PRIMES[14] == 47 && PRIMES[15] == 53
    ensures K[12] == 0x72be5d74 && K[13] == 0x80deb1fe && K[14] == 0x9bdc06a7 && K[15] == 0xc19bf174
  {
  }

  lemma RoundConstants12(i: nat)
    requires 12 <= i < 16
    ensures CubeRootBits(PRIMES[i], CubeWhole(PRIMES[i]), K[i])
  {
    hide CubeRootBits, CubeWhole;
    Roots12();
    Table12();
  }

  lemma Roots16()
    ensures CubeRootBits(59, 3, 0xe49b69c1) && CubeWhole(59) == 3
    ensures CubeRootBits(61, 3, 0xefbe4786) && CubeWhole(61) == 3
    ensures CubeRootBits(67, 4, 0x0fc19dc6) && CubeWhole(67) == 4
    ensures CubeRootBits(71, 4, 0x240ca1cc) && CubeWhole(71) == 4
  {
  }

  lemma Table16()
    ensures PRIMES[16] == 59 && PRIMES[17] == 61 && PRIMES[18] == 67 && PRIMES[19] == 71
    ensures K[16] == 0xe49b69c1 && K[17] == 0xefbe4786 && K[18] == 0x0fc19dc6 && K[19] == 0x240ca1cc
  {
  }

  lemma RoundConstants16(i: nat)
    requires 16 <= i < 20
    ensures CubeRootBits(PRIMES[i], CubeWhole(PRIMES[i]), K[i])
  {
    hide CubeRootBits, CubeWhole;
    Roots16();
    Table16();
  }

  lemma Roots20()
    ensures CubeRootBits(73, 4, 0x2de92c6f) && CubeWhole(73) == 4
    ensures CubeRootBits(79, 4, 0x4a7484aa) && CubeWhole(79) == 4
    ensures CubeRootBits(83, 4, 0x5cb0a9dc) && CubeWhole(83) == 4
    ensures CubeRootBits(89, 4, 0x76f988da) && CubeWhole(89) == 4
  {
  }

  lemma Table20()
    ensures PRIMES[20] == 73 && PRIMES[21] == 79 && PRIMES[22] == 83 && PRIMES[23] == 89
    ensures K[20] == 0x2de92c6f && K[21] == 0x4a7484aa && K[22] == 0x5cb0a9dc && K[23] == 0x76f988da
  {
  }

  lemma RoundConstants20(i: nat)
    requires 20 <= i < 24
    ensures CubeRootBits(PRIMES[i], CubeWhole(PRIMES[i]), K[i])
  {
    hide CubeRootBits, CubeWhole;
    Roots20();
    Table20();
  }

  lemma Roots24()
    ensures CubeRootBits(97, 4, 0x983e5152) && CubeWhole(97) == 4
    ensures CubeRootBits(101, 4, 0xa831c66d) && CubeWhole(101) == 4
    ensures CubeRootBits(103, 4, 0xb00327c8) && CubeWhole(103) == 4
    ensures CubeRootBits(107, 4, 0xbf597fc7) && CubeWhole(107) == 4
  {
  }

  lemma Table24()
    ensures PRIMES[24] == 97 && PRIMES[25] == 101 && PRIMES[26] == 103 && PRIMES[27] == 107
    ensures K[24] == 0x983e5152 && K[25] == 0xa831c66d && K[26] == 0xb00327c8 && K[27] == 0xbf597fc7
  {
  }

  lemma RoundConstants24(i: nat)
    requires 24 <= i < 28
    ensures CubeRootBits(PRIMES[i], CubeWhole(PRIMES[i]), K[i])
  {
    hide CubeRootBits, CubeWhole;
    Roots24();
    Table24();
  }

  lemma Roots28()
    ensures CubeRootBits(109, 4, 0xc6e00bf3) && CubeWhole(109) == 4
    ensures CubeRootBits(113, 4, 0xd5a79147) && CubeWhole(113) == 4
    ensures CubeRootBits(127, 5, 0x06ca6351) && CubeWhole(127) == 5
    ensures CubeRootBits(131, 5, 0x14292967) && CubeWhole(131) == 5
  {
  }

  lemma Table28()
    ensures PRIMES[28] == 109 && PRIMES[29] == 113 && PRIMES[30] == 127 && PRIMES[31] == 131
    ensures K[28] == 0xc6e00bf3 && K[29] == 0xd5a79147 && K[30] == 0x06ca6351 && K[31] == 0x14292967
  {
  }

  lemma RoundConstants28(i: nat)
    requires 28 <= i < 32
    ensures CubeRootBits(PRIMES[i], CubeWhole(PRIMES[i]), K[i])
  {
    hide CubeRootBits, CubeWhole;
    Roots28();
    Table28();
  }

  lemma Roots32()
    ensures CubeRootBits(137, 5, 0x27b70a85) && CubeWhole(137) == 5
    ensures CubeRootBits(139, 5, 0x2e1b2138) && CubeWhole(139) == 5
    ensures CubeRootBits(149, 5, 0x4d2c6dfc) && CubeWhole(149) == 5
    ensures CubeRootBits(151, 5, 0x53380d13) && CubeWhole(151) == 5
  {
  }

  lemma Table32()
    ensures PRIMES[32] == 137 && PRIMES[33] == 139 && PRIMES[34] == 149 && PRIMES[35] == 151
    ensures K[32] == 0x27b70a85 && K[33] == 0x2e1b2138 && K[34] == 0x4d2c6dfc && K[35] == 0x53380d13
  {
  }

  lemma RoundConstants32(i: nat)
    requires 32 <= i < 36
    ensures CubeRootBits(PRIMES[i], CubeWhole(PRIMES[i]), K[i])
  {
    hide CubeRootBits, CubeWhole;
    Roots32();
    Table32();
  }

  lemma Roots36()
    ensures CubeRootBits(157, 5, 0x650a7354) && CubeWhole(157) == 5
    ensures CubeRootBits(163, 5, 0x766a0abb) && CubeWhole(163) == 5
    ensures CubeRootBits(167, 5, 0x81c2c92e) && CubeWhole(167) == 5
    ensures CubeRootBits(173, 5, 0x92722c85) && CubeWhole(173) == 5
  {
  }

  lemma Table36()
    ensures PRIMES[36] == 157 && PRIMES[37] == 163 && PRIMES[38] == 167 && PRIMES[39] == 173
    ensures K[36] == 0x650a7354 && K[37] == 0x766a0abb && K[38] == 0x81c2c92e && K[39] == 0x92722c85
  {
  }

  lemma RoundConstants36(i: nat)
    requires 36 <= i < 40
    ensures CubeRootBits(PRIMES[i], CubeWhole(PRIMES[i]), K[i])
  {
    hide CubeRootBits, CubeWhole;
    Roots36();
    Table36();
  }

  lemma Roots40()
    ensures CubeRootBits(179, 5, 0xa2bfe8a1) && CubeWhole(179) == 5
    ensures CubeRootBits(181, 5, 0xa81a664b) && CubeWhole(181) == 5
    ensures CubeRootBits(191, 5, 0xc24b8b70) && CubeWhole(191) == 5
    ensures CubeRootBits(193, 5, 0xc76c51a3) && CubeWhole(193) == 5
  {
  }

  lemma Table40()
    ensures PRIMES[40] == 179 && PRIMES[41] == 181 && PRIMES[42] == 191 && PRIMES[43] == 193
    ensures K[40] == 0xa2bfe8a1 && K[41] == 0xa81a664b && K[42] == 0xc24b8b70 && K[43] == 0xc76c51a3
  {
  }

  lemma RoundConstants40(i: nat)
    requires 40 <= i < 44
    ensures CubeRootBits(PRIMES[i], CubeWhole(PRIMES[i]), K[i])
  {
    hide CubeRootBits, CubeWhole;
    Roots40();
    Table40();
  }

  lemma Roots44()
    ensures CubeRootBits(197, 5, 0xd192e819) && CubeWhole(197) == 5
    ensures CubeRootBits(199, 5, 0xd6990624) && CubeWhole(199) == 5
    ensures CubeRootBits(211, 5, 0xf40e3585) && CubeWhole(211) == 5
    ensures CubeRootBits(223, 6, 0x106aa070) && CubeWhole(223) == 6
  {
  }

  lemma Table44()
    ensures PRIMES[44] == 197 && PRIMES[45] == 199 && PRIMES[46] == 211 && PRIMES[47] == 223
    ensures K[44] == 0xd192e819 && K[45] == 0xd6990624 && K[46] == 0xf40e3585 && K[47] == 0x106aa070
  {
  }

  lemma RoundConstants44(i: nat)
    requires 44 <= i < 48
    ensures CubeRootBits(PRIMES[i], CubeWhole(PRIMES[i]), K[i])
  {
    hide CubeRootBits, CubeWhole;
    Roots44();
    Table44();
  }

  lemma Roots48()
    ensures CubeRootBits(227, 6, 0x19a4c116) && CubeWhole(227) == 6
    ensures CubeRootBits(229, 6, 0x1e376c08) && CubeWhole(229) == 6
    ensures CubeRootBits(233, 6, 0x2748774c) && CubeWhole(233) == 6
    ensures CubeRootBits(239, 6, 0x34b0bcb5) && CubeWhole(239) == 6
  {
  }

  lemma Table48()
    ensures PRIMES[48] == 227 && PRIMES[49] == 229 && PRIMES[50] == 233 && PRIMES[51] == 239
    ensures K[48] == 0x19a4c116 && K[49] == 0x1e376c08 && K[50] == 0x2748774c && K[51] == 0x34b0bcb5
  {
  }

  lemma RoundConstants48(i: nat)
    requires 48 <= i < 52
    ensures CubeRootBits(PRIMES[i], CubeWhole(PRIMES[i]), K[i])
  {
    hide CubeRootBits, CubeWhole;
    Roots48();
    Table48();
  }

  lemma Roots52()
    ensures CubeRootBits(241, 6, 0x391c0cb3) && CubeWhole(241) == 6
    ensures CubeRootBits(251, 6, 0x4ed8aa4a) && CubeWhole(251) == 6
    ensures CubeRootBits(257, 6, 0x5b9cca4f) && CubeWhole(257) == 6
    ensures CubeRootBits(263, 6, 0x682e6ff3) && CubeWhole(263) == 6
  {
  }

  lemma Table52()
    ensures PRIMES[52] == 241 && PRIMES[53] == 251 && PRIMES[54] == 257 && PRIMES[55] == 263
    ensures K[52] == 0x391c0cb3 && K[53] == 0x4ed8aa4a && K[54] == 0x5b9cca4f && K[55] == 0x682e6ff3
  {
  }

  lemma RoundConstants52(i: nat)
    requires 52 <= i < 56
    ensures CubeRootBits(PRIMES[i], CubeWhole(PRIMES[i]), K[i])
  {
    hide CubeRootBits, CubeWhole;
    Roots52();
    Table52();
  }

  lemma Roots56()
    ensures CubeRootBits(269, 6, 0x748f82ee) && CubeWhole(269) == 6
    ensures CubeRootBits(271, 6, 0x78a5636f) && CubeWhole(271) == 6
    ensures CubeRootBits(277, 6, 0x84c87814) && CubeWhole(277) == 6
    ensures CubeRootBits(281, 6, 0x8cc70208) && CubeWhole(281) == 6
  {
  }

  lemma Table56()
    ensures PRIMES[56] == 269 && PRIMES[57] == 271 && PRIMES[58] == 277 && PRIMES[59] == 281
    ensures K[56] == 0x748f82ee && K[57] == 0x78a5636f && K[58] == 0x84c87814 && K[59] == 0x8cc70208
  {
  }

  lemma RoundConstants56(i: nat)
    requires 56 <= i < 60
    ensures CubeRootBits(PRIMES[i], CubeWhole(PRIMES[i]), K[i])
  {
    hide CubeRootBits, CubeWhole;
    Roots56();
    Table56();
  }

  lemma Roots60()
    ensures CubeRootBits(283, 6, 0x90befffa) && CubeWhole(283) == 6
    ensures CubeRootBits(293, 6, 0xa4506ceb) && CubeWhole(293) == 6
    ensures CubeRootBits(307, 6, 0xbef9a3f7) && CubeWhole(307) == 6
    ensures CubeRootBits(311, 6, 0xc67178f2) && CubeWhole(311) == 6
  {
  }

  lemma Table60()
    ensures PRIMES[60] == 283 && PRIMES[61] == 293 && PRIMES[62] == 307 && PRIMES[63] == 311
    ensures K[60] == 0x90befffa && K[61] == 0xa4506ceb && K[62] == 0xbef9a3f7 && K[63] == 0xc67178f2
  {
  }

  lemma RoundConstants60(i: nat)
    requires 60 <= i < 64
    ensures CubeRootBits(PRIMES[i], CubeWhole(PRIMES[i]), K[i])
  {
    hide CubeRootBits, CubeWhole;
    Roots60();
    Table60();
  }

  /** Every round constant is the one of section 4.2.2. */
  lemma RoundConstants(i: nat)
    requires i < 64
    ensures CubeRootBits(PRIMES[i], CubeWhole(PRIMES[i]), KAt(i))
  {
    hide CubeRootBits, CubeWhole;
    if i < 4 {
      RoundConstants0(i);
    } else if i < 8 {
      RoundConstants4(i);
    } else if i < 12 {
      RoundConstants8(i);
    } else if i < 16 {
      RoundConstants12(i);
    } else if i < 20 {
      RoundConstants16(i);
    } else if i < 24 {
      RoundConstants20(i);
    } else if i < 28 {
      RoundConstants24(i);
    } else if i < 32 {
      RoundConstants28(i);
    } else if i < 36 {
      RoundConstants32(i);
    } else if i < 40 {
      RoundConstants36(i);
    } else if i < 44 {
      RoundConstants40(i);
    } else if i < 48 {
      RoundConstants44(i);
    } else if i < 52 {
      RoundConstants48(i);
    } else if i < 56 {
      RoundConstants52(i);
    } else if i < 60 {
      RoundConstants56(i);
    } else {
      RoundConstants60(i);
    }
  }

  /** And the initial hash value that of section 5.3.3. */
  lemma InitialHash()
    ensures SquareRootBits(2, SquareWhole(2), H0.a)
    ensures SquareRootBits(3, SquareWhole(3), H0.b)
    ensures SquareRootBits(5, SquareWhole(5), H0.c)
    ensures SquareRootBits(7, SquareWhole(7), H0.d)
    ensures SquareRootBits(11, SquareWhole(11), H0.e)
    ensures SquareRootBits(13, SquareWhole(13), H0.f)
    ensures SquareRootBits(17, SquareWhole(17), H0.g)
    ensures SquareRootBits(19, SquareWhole(19), H0.h)
  {
  }

  // ---- The functions, bit by bit ----

  lemma {:induction false} BitOfQuotient(x: nat, n: nat, q: nat, i: nat)
    requires q == x / Pow2(n)
    ensures Bit(q, i) == Bit(x, i + n)
  {
    if n > 0 {
      Halves(x, Pow2(n - 1));
      BitOfQuotient(x / 2, n - 1, q, i);
    } else {
      assert Pow2(0) == 1;
    }
  }

  /** The bits of a number put together from a low and a high part. */
  lemma {:induction false} BitOfJoin(low: nat, k: nat, high: nat, i: nat)
    requires low < Pow2(k)
    ensures Bit(low + high * Pow2(k), i) == if i < k then Bit(low, i) else Bit(high, i - k)
  {
    if k == 0 {
      assert Pow2(0) == 1 && low == 0;
    } else {
      HalvesOf(high, Pow2(k - 1));
      assert (low + high * Pow2(k)) / 2 == low / 2 + high * Pow2(k - 1);
      if i > 0 { BitOfJoin(low / 2, k - 1, high, i - 1); }
    }
  }

  lemma BitOfRemainder(x: nat, n: nat, i: nat)
    requires i < n
    ensures Bit(x % Pow2(n), i) == Bit(x, i)
  {
    hide Pow2, Bit;
    assert x == x % Pow2(n) + x / Pow2(n) * Pow2(n);
    BitOfJoin(x % Pow2(n), n, x / Pow2(n), i);
  }

  /** Bit `i`, counted around the word. */
  predicate Around(x: u32, i: nat) { Bit(x, i % 32) }

  /** Rotating right by `n` brings bit `i + n`, counted around, to place `i`. */
  lemma RotatedBit(n: nat, x: u32, i: nat)
    requires 0 < n < 32 && i < 32
    ensures Bit(RotR(n, x), i) == Around(x, i + n)
  {
    hide Pow2, Bit;
    RotationFits(n, x);
    BitOfJoin(x / Pow2(n), 32 - n, x % Pow2(n), i);
    if i + n < 32 {
      BitOfQuotient(x, n, x / Pow2(n), i);
    } else {
      BitOfRemainder(x, n, i - (32 - n));
    }
  }

  lemma ThreeBits(a: u32, b: u32, c: u32, i: nat)
    requires i < 32
    ensures Bit(Xor32(Xor32(a, b), c), i) == ((Bit(a, i) != Bit(b, i)) != Bit(c, i))
  {
    BitwiseAt(Xor, 32, a, b, i);
    BitwiseAt(Xor, 32, Xor32(a, b), c, i);
  }

  lemma ShiftedBits(x: u32, i: nat)
    ensures Bit(x / 0x8, i) == Bit(x, i + 3) && Bit(x / 0x400, i) == Bit(x, i + 10)
  {
    hide Bit;
    assert Pow2(3) == 8 && Pow2(10) == 0x400;
    BitOfQuotient(x, 3, x / 0x8, i);
    BitOfQuotient(x, 10, x / 0x400, i);
  }

  /** The four sigma functions of section 4.1.2, bit by bit. */
  lemma SigmaBits(x: u32, i: nat)
    requires i < 32
    ensures Bit(BigSigma0(x), i) == ((Around(x, i + 2) != Around(x, i + 13)) != Around(x, i + 22))
    ensures Bit(BigSigma1(x), i) == ((Around(x, i + 6) != Around(x, i + 11)) != Around(x, i + 25))
    ensures Bit(SmallSigma0(x), i) == ((Around(x, i + 7) != Around(x, i + 18)) != Bit(x, i + 3))
    ensures Bit(SmallSigma1(x), i) == ((Around(x, i + 17) != Around(x, i + 19)) != Bit(x, i + 10))
  {
    hide RotR, Combine32, Bit, Around;
    BigSigmaBits(x, i);
    RotatedBit(7, x, i);
    RotatedBit(18, x, i);
    RotatedBit(17, x, i);
    RotatedBit(19, x, i);
    ShiftedBits(x, i);
    ThreeBits(RotR(7, x), RotR(18, x), x / 0x8, i);
    ThreeBits(RotR(17, x), RotR(19, x), x / 0x400, i);
  }

  lemma BigSigmaBits(x: u32, i: nat)
    requires i < 32
    ensures Bit(BigSigma0(x), i) == ((Around(x, i + 2) != Around(x, i + 13)) != Around(x, i + 22))
    ensures Bit(BigSigma1(x), i) == ((Around(x, i + 6) != Around(x, i + 11)) != Around(x, i + 25))
  {
    hide RotR, Combine32, Bit, Around;
    RotatedBit(2, x, i);
    RotatedBit(13, x, i);
    RotatedBit(22, x, i);
    RotatedBit(6, x, i);
    RotatedBit(11, x, i);
    RotatedBit(25, x, i);
    ThreeBits(RotR(2, x), RotR(13, x), RotR(22, x), i);
    ThreeBits(RotR(6, x), RotR(11, x), RotR(25, x), i);
  }

  /** Choice and majority. */
  lemma ChoiceBits(x: u32, y: u32, z: u32, i: nat)
    requires i < 32
    ensures Bit(Ch(x, y, z), i) == if Bit(x, i) then Bit(y, i) else Bit(z, i)
    ensures Bit(Maj(x, y, z), i) <==> (Bit(x, i) && Bit(y, i)) || (Bit(x, i) && Bit(z, i)) || (Bit(y, i) && Bit(z, i))
  {
    hide Bitwise, Bit;
    BitwiseAt(And, 32, x, y, i);
    BitwiseAt(And, 32, x, z, i);
    BitwiseAt(And, 32, y, z, i);
    BitwiseAt(AndNot, 32, z, x, i);
    BitwiseAt(Xor, 32, And32(x, y), AndNot32(z, x), i);
    ThreeBits(And32(x, y), And32(x, z), And32(y, z), i);
  }
}
