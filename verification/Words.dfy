/** Machine words as bounded integers, and the bitwise operators on them.

    Every bitwise law used elsewhere follows from two facts proved here: what each
    bit of a result is (`BitwiseAt`) and that a word is determined by its bits
    (`Extensional`). */
module Words {
  import Arith

  type byte = x: int | 0 <= x < 0x100
  type u16 = x: int | 0 <= x < 0x1_0000
  type u32 = x: int | 0 <= x < 0x1_0000_0000
  type u64 = x: int | 0 <= x < 0x1_0000_0000_0000_0000

  const MAX32: u32 := 0xFFFF_FFFF
  const MAX64: u64 := 0xFFFF_FFFF_FFFF_FFFF

  function Min(a: int, b: int): int { if a < b then a else b }

  function Pow2(n: nat): (r: nat)
    ensures r > 0
  {
    if n == 0 then 1 else 2 * Pow2(n - 1)
  }

  predicate Bit(x: nat, i: nat)
  {
    if i == 0 then x % 2 == 1 else Bit(x / 2, i - 1)
  }

  datatype Gate = And | Or | Xor | AndNot {
    predicate Out(p: bool, q: bool)
    {
      match this
      case And => p && q
      case Or => p || q
      case Xor => p != q
      case AndNot => p && !q
    }
  }

  /** The low `n` bits of `a` and `b` combined bit by bit. */
  function Bitwise(g: Gate, n: nat, a: nat, b: nat): (r: nat)
    ensures r < Pow2(n)
  {
    if n == 0 then 0
    else (if g.Out(a % 2 == 1, b % 2 == 1) then 1 else 0) + 2 * Bitwise(g, n - 1, a / 2, b / 2)
  }

  lemma {:induction false} BitwiseAt(g: Gate, n: nat, a: nat, b: nat, i: nat)
    requires i < n
    ensures Bit(Bitwise(g, n, a, b), i) == g.Out(Bit(a, i), Bit(b, i))
  {
    if i > 0 {
      BitwiseAt(g, n - 1, a / 2, b / 2, i - 1);
    }
  }

  lemma {:induction false} Extensional(n: nat, a: nat, b: nat)
    requires a < Pow2(n) && b < Pow2(n)
    requires forall i :: 0 <= i < n ==> Bit(a, i) == Bit(b, i)
    ensures a == b
  {
    if n > 0 {
      assert Bit(a, 0) == Bit(b, 0);
      forall i | 0 <= i < n - 1 ensures Bit(a / 2, i) == Bit(b / 2, i) {
        assert Bit(a, i + 1) == Bit(b, i + 1);
      }
      Extensional(n - 1, a / 2, b / 2);
    }
  }

  lemma Pow2Of32()
    ensures Pow2(32) == 0x1_0000_0000
  {
    assert Pow2(8) == 0x100;
    assert Pow2(16) == 0x1_0000;
    assert Pow2(24) == 0x100_0000;
  }

  function Combine32(g: Gate, a: u32, b: u32): u32
  {
    Pow2Of32();
    Bitwise(g, 32, a, b)
  }

  function And32(a: u32, b: u32): u32 { Combine32(And, a, b) }
  function Or32(a: u32, b: u32): u32 { Combine32(Or, a, b) }
  function Xor32(a: u32, b: u32): u32 { Combine32(Xor, a, b) }

  /** `a & ~b`. */
  function AndNot32(a: u32, b: u32): u32 { Combine32(AndNot, a, b) }

  /** All 32 bits of a combined word at once, in the form the laws below consume. */
  lemma Bits32(g: Gate, a: u32, b: u32)
    ensures forall i :: 0 <= i < 32 ==> Bit(Combine32(g, a, b), i) == g.Out(Bit(a, i), Bit(b, i))
  {
    forall i | 0 <= i < 32 ensures Bit(Combine32(g, a, b), i) == g.Out(Bit(a, i), Bit(b, i)) {
      BitwiseAt(g, 32, a, b, i);
    }
  }

  lemma Equal32(a: u32, b: u32)
    requires forall i :: 0 <= i < 32 ==> Bit(a, i) == Bit(b, i)
    ensures a == b
  {
    Pow2Of32();
    Extensional(32, a, b);
  }

  lemma {:induction false} ZeroHasNoBits(i: nat)
    ensures !Bit(0, i)
  {
    if i > 0 { ZeroHasNoBits(i - 1); }
  }

  ghost predicate BitsWithin(a: u32, b: u32)
  {
    forall i :: 0 <= i < 32 && Bit(a, i) ==> Bit(b, i)
  }

  /** `a & ~b == 0` says exactly that `a`'s bits are among `b`'s. */
  lemma SubsetOfMask(a: u32, b: u32)
    ensures AndNot32(a, b) == 0 <==> BitsWithin(a, b)
  {
    forall i | 0 <= i < 32
      ensures Bit(AndNot32(a, b), i) == (Bit(a, i) && !Bit(b, i)) && !Bit(0, i)
    {
      BitwiseAt(AndNot, 32, a, b, i);
      ZeroHasNoBits(i);
    }
    if BitsWithin(a, b) {
      Equal32(AndNot32(a, b), 0);
    }
  }

  /** Replacing the bits of `old` under `mask` changes nothing outside any mask that contains it. */
  lemma MergePreservesOutside(old_: u32, value: u32, mask: u32, outer: u32)
    requires AndNot32(mask, outer) == 0
    ensures AndNot32(Or32(AndNot32(old_, mask), And32(value, mask)), outer) == AndNot32(old_, outer)
  {
    var kept, put := AndNot32(old_, mask), And32(value, mask);
    SubsetOfMask(mask, outer);
    forall i | 0 <= i < 32
      ensures Bit(AndNot32(Or32(kept, put), outer), i) == Bit(AndNot32(old_, outer), i)
    {
      BitwiseAt(AndNot, 32, old_, mask, i);
      BitwiseAt(And, 32, value, mask, i);
      BitwiseAt(Or, 32, kept, put, i);
      BitwiseAt(AndNot, 32, Or32(kept, put), outer, i);
      BitwiseAt(AndNot, 32, old_, outer, i);
    }
    Equal32(AndNot32(Or32(kept, put), outer), AndNot32(old_, outer));
  }

  lemma SubsetTrans(a: u32, b: u32, c: u32)
    requires AndNot32(a, b) == 0 && AndNot32(b, c) == 0
    ensures AndNot32(a, c) == 0
  {
    SubsetOfMask(a, b);
    SubsetOfMask(b, c);
    SubsetOfMask(a, c);
  }

  lemma XorAssoc(a: u32, b: u32, c: u32)
    ensures Xor32(Xor32(a, b), c) == Xor32(a, Xor32(b, c))
  {
    Bits32(Xor, a, b);
    Bits32(Xor, b, c);
    Bits32(Xor, Xor32(a, b), c);
    Bits32(Xor, a, Xor32(b, c));
    Equal32(Xor32(Xor32(a, b), c), Xor32(a, Xor32(b, c)));
  }

  lemma XorComm(a: u32, b: u32)
    ensures Xor32(a, b) == Xor32(b, a)
  {
    Bits32(Xor, a, b);
    Bits32(Xor, b, a);
    Equal32(Xor32(a, b), Xor32(b, a));
  }

  lemma XorZero(a: u32)
    ensures Xor32(a, 0) == a && Xor32(0, a) == a
  {
    XorComm(a, 0);
    Bits32(Xor, a, 0);
    forall i | 0 <= i < 32 ensures !Bit(0, i) { ZeroHasNoBits(i); }
    Equal32(Xor32(a, 0), a);
  }

  /** Only equal words cancel. */
  lemma XorCancels(a: u32, b: u32)
    ensures Xor32(a, b) == 0 <==> a == b
  {
    Bits32(Xor, a, b);
    forall i | 0 <= i < 32 ensures !Bit(0, i) { ZeroHasNoBits(i); }
    if a == b {
      Equal32(Xor32(a, b), 0);
    } else if Xor32(a, b) == 0 {
      Equal32(a, b);
    }
  }

  /** The subset test on masks as a computation that literals evaluate. */
  predicate Submask(a: nat, b: nat)
  {
    a == 0 || ((a % 2 == 1 ==> b % 2 == 1) && Submask(a / 2, b / 2))
  }

  lemma {:induction false} SubmaskClears(n: nat, a: nat, b: nat)
    requires Submask(a, b)
    ensures Bitwise(AndNot, n, a, b) == 0
  {
    if n > 0 {
      SubmaskClears(n - 1, a / 2, b / 2);
    }
  }

  lemma {:induction false} SubmaskRefl(a: nat)
    ensures Submask(a, a)
  {
    if a > 0 { SubmaskRefl(a / 2); }
  }

  lemma Submask32(a: u32, b: u32)
    requires Submask(a, b)
    ensures AndNot32(a, b) == 0
  {
    SubmaskClears(32, a, b);
  }

  /** A mask of the low `k` bits admits exactly the values below `Pow2(k)`. */
  lemma {:induction false} LowMask(n: nat, x: nat, k: nat)
    requires x < Pow2(n) && k <= n
    ensures Bitwise(AndNot, n, x, Pow2(k) - 1) == 0 <==> x < Pow2(k)
  {
    if n > 0 {
      if k > 0 {
        assert (Pow2(k) - 1) / 2 == Pow2(k - 1) - 1;
        LowMask(n - 1, x / 2, k - 1);
      } else {
        LowMask(n - 1, x / 2, 0);
      }
    }
  }

  function Xor64(a: u64, b: u64): (r: u64)
  {
    Pow2Of64();
    Bitwise(Xor, 64, a, b)
  }

  lemma Pow2Of64()
    ensures Pow2(64) == 0x1_0000_0000_0000_0000
  {
    Pow2Of32();
    assert Pow2(40) == 0x100_0000_0000;
    assert Pow2(48) == 0x1_0000_0000_0000;
    assert Pow2(56) == 0x100_0000_0000_0000;
  }

  /** A word splits into a low and a high part, and so do the operators. */
  lemma {:induction false} BitwiseSplit(g: Gate, m: nat, n: nat, aLow: nat, aHigh: nat, bLow: nat, bHigh: nat)
    requires aLow < Pow2(m) && bLow < Pow2(m)
    ensures Bitwise(g, m + n, aLow + Pow2(m) * aHigh, bLow + Pow2(m) * bHigh) ==
            Bitwise(g, m, aLow, bLow) + Pow2(m) * Bitwise(g, n, aHigh, bHigh)
  {
    hide Bitwise;
    if m > 0 {
      var p, high := Pow2(m - 1), Bitwise(g, n, aHigh, bHigh);
      var a, b := aLow + Pow2(m) * aHigh, bLow + Pow2(m) * bHigh;
      Halve(aLow, p, aHigh);
      Halve(bLow, p, bHigh);
      BitwiseSplit(g, m - 1, n, aLow / 2, aHigh, bLow / 2, bHigh);
      Unfold(g, m + n, a, b);
      Unfold(g, m, aLow, bLow);
      Doubled(p, high);
    } else {
      BitwiseNone(g, aLow, bLow);
    }
  }

  lemma Unfold(g: Gate, n: nat, a: nat, b: nat)
    requires n > 0
    ensures Bitwise(g, n, a, b) ==
            (if g.Out(a % 2 == 1, b % 2 == 1) then 1 else 0) + 2 * Bitwise(g, n - 1, a / 2, b / 2)
  {
  }

  lemma BitwiseNone(g: Gate, a: nat, b: nat)
    ensures Bitwise(g, 0, a, b) == 0
  {
  }

  lemma Doubled(p: nat, x: nat)
    ensures 2 * (p * x) == (2 * p) * x
  {
  }

  lemma Halve(low: nat, p: nat, high: nat)
    ensures (low + (2 * p) * high) / 2 == low / 2 + p * high
    ensures (low + (2 * p) * high) % 2 == low % 2
  {
    var k := p * high;
    assert (2 * p) * high == 2 * k;
  }

  /** The two halves of a 64-bit exclusive or. */
  lemma Xor64Halves(a: u64, b: u64)
    ensures Xor64(a, b) % 0x1_0000_0000 == Xor32(a % 0x1_0000_0000, b % 0x1_0000_0000)
    ensures Xor64(a, b) / 0x1_0000_0000 == Xor32(a / 0x1_0000_0000, b / 0x1_0000_0000)
  {
    hide Bitwise, Pow2;
    Pow2Of32();
    BitwiseSplit(Xor, 32, 32, a % 0x1_0000_0000, a / 0x1_0000_0000, b % 0x1_0000_0000, b / 0x1_0000_0000);
  }

  /** Folding both halves commutes with exclusive or. */
  lemma XorSwap(a: u32, b: u32, c: u32, d: u32)
    ensures Xor32(Xor32(a, b), Xor32(c, d)) == Xor32(Xor32(a, c), Xor32(b, d))
  {
    hide Combine32;
    XorAssoc(a, b, Xor32(c, d));
    XorAssoc(b, c, d);
    XorComm(b, c);
    XorAssoc(c, b, d);
    XorAssoc(a, c, Xor32(b, d));
  }

  // ---- Bits as arithmetic ----

  lemma {:induction false} BitIs(x: nat, i: nat)
    ensures Bit(x, i) <==> x / Pow2(i) % 2 == 1
  {
    if i > 0 {
      BitIs(x / 2, i - 1);
      Halves(x, Pow2(i - 1));
    }
  }

  lemma Halves(x: nat, p: nat)
    requires p > 0
    ensures x / 2 / p == x / (2 * p)
  {
    var q, r := x / 2 / p, x / 2 % p;
    assert x / 2 == q * p + r;
    assert x == q * (2 * p) + (2 * r + x % 2);
    Arith.DivModUnique(x, 2 * p, q, 2 * r + x % 2);
  }

  lemma {:induction false} Ones(n: nat, i: nat)
    requires i < n
    ensures Bit(Pow2(n) - 1, i)
  {
    assert Pow2(n) - 1 == 2 * (Pow2(n - 1) - 1) + 1;
    if i > 0 { Ones(n - 1, i - 1); }
  }

  lemma FullBits(i: nat)
    requires i < 32
    ensures Bit(MAX32, i)
  {
    Pow2Of32();
    Ones(32, i);
  }

  lemma {:induction false} LowBits(a: nat, b: nat, k: nat)
    requires forall i :: 0 <= i < k ==> Bit(a, i) == Bit(b, i)
    ensures a % Pow2(k) == b % Pow2(k)
  {
    if k > 0 {
      assert Bit(a, 0) == Bit(b, 0);
      forall i | 0 <= i < k - 1 ensures Bit(a / 2, i) == Bit(b / 2, i) { assert Bit(a, i + 1) == Bit(b, i + 1); }
      LowBits(a / 2, b / 2, k - 1);
      HalfMod(a, Pow2(k - 1));
      HalfMod(b, Pow2(k - 1));
    }
  }

  lemma HalfMod(x: nat, p: nat)
    requires p > 0
    ensures x % (2 * p) == 2 * (x / 2 % p) + x % 2
  {
    var q, r := x / 2 / p, x / 2 % p;
    assert x / 2 == q * p + r;
    assert x == q * (2 * p) + (2 * r + x % 2);
    Arith.DivModUnique(x, 2 * p, q, 2 * r + x % 2);
  }

  lemma {:induction false} OneBit(k: nat, i: nat)
    ensures Bit(Pow2(k), i) <==> i == k
  {
    if k == 0 {
      if i > 0 { ZeroHasNoBits(i - 1); }
    } else if i > 0 {
      OneBit(k - 1, i - 1);
    }
  }
}
