/** What an executed plan can reach, by register number and bit. */
module WriteReach {
  import opened Words
  import opened Wrappers
  import opened Falcon
  import opened FalconPolicy
  import opened FalconExec
  import opened Mmio

  /** The bits of each engine register that may be written. */
  predicate MaySet(offset: int, bit: nat)
  {
    match offset
    case 0x03C0 => bit == 0
    case 0x1668 => bit in {0, 4, 8}
    case 0x0624 => bit == 7
    case 0x010C => bit < 3
    case 0x0600 => bit < 3
    case 0x0128 => bit < 9
    case 0x0114 => bit < 24
    case 0x0118 => bit < 17 && bit !in {6, 7, 11, 15}
    case 0x1198 => bit < 8
    case 0x1180 => bit < 8
    case 0x0100 => bit == 1
    case 0x0130 => bit == 1
    case _ => offset in {0x0040, 0x0044, 0x0080, 0x0084, 0x0104, 0x0110, 0x011C, 0x119C, 0x1210}
  }

  /** A bit of the register at an address in one of the two engines. */
  predicate Reaches(address: int, bit: nat)
  {
    if 0x11_0000 <= address < 0x11_2000 then MaySet(address - 0x11_0000, bit)
    else 0x84_0000 <= address < 0x84_2000 && MaySet(address - 0x84_0000, bit)
  }

  lemma {:induction false} NoneAbove(x: nat, n: nat, bit: nat)
    requires x < Pow2(n) && n <= bit
    ensures !Bit(x, bit)
  {
    if n > 0 {
      NoneAbove(x / 2, n - 1, bit - 1);
    } else {
      ZeroHasNoBits(bit);
    }
  }

  lemma SmallPowers()
    ensures Pow2(1) == 2 && Pow2(2) == 4 && Pow2(3) == 8 && Pow2(8) == 0x100 && Pow2(9) == 0x200
    ensures Pow2(17) == 0x2_0000 && Pow2(24) == 0x100_0000
  {
    assert Pow2(6) == 64;
    assert Pow2(12) == 0x1000;
    assert Pow2(15) == 0x8000;
    assert Pow2(20) == 0x10_0000;
  }

  lemma MaskBit(offset: u32, bit: nat)
    requires bit < 32
    ensures MaySet(offset, bit) <==> WriteMask(offset).Some? && Bit(WriteMask(offset).value, bit)
  {
    hide Pow2, Bit;
    SmallPowers();
    match offset
    case 0x03C0 => LowOnes(1, bit);
    case 0x1668 => ResetControlBit(bit);
    case 0x0624 => InterfaceBit(bit);
    case 0x010C => LowOnes(3, bit);
    case 0x0600 => LowOnes(3, bit);
    case 0x0128 => LowOnes(9, bit);
    case 0x0114 => LowOnes(24, bit);
    case 0x0118 => CommandBit(bit);
    case 0x1198 => LowOnes(8, bit);
    case 0x1180 => LowOnes(8, bit);
    case 0x0100 => StartBit(bit);
    case 0x0130 => StartBit(bit);
    case _ => FullBits(bit);
  }

  lemma LowOnes(n: nat, bit: nat)
    ensures Bit(Pow2(n) - 1, bit) <==> bit < n
  {
    if bit < n { Ones(n, bit); } else { NoneAbove(Pow2(n) - 1, n, bit); }
  }

  lemma StartBit(bit: nat)
    ensures Bit(2, bit) <==> bit == 1
  {
    SmallPowers();
    OneBit(1, bit);
  }

  lemma InterfaceBit(bit: nat)
    ensures Bit(0x80, bit) <==> bit == 7
  {
    assert Pow2(7) == 0x80;
    OneBit(7, bit);
  }

  lemma ResetControlBit(bit: nat)
    ensures Bit(0x111, bit) <==> bit in {0, 4, 8}
  {
    SmallPowers();
    if bit >= 9 { NoneAbove(0x111, 9, bit); }
    assert Bit(0x111, 0) && Bit(0x111, 4) && Bit(0x111, 8);
    assert !Bit(0x111, 1) && !Bit(0x111, 2) && !Bit(0x111, 3) && !Bit(0x111, 5) && !Bit(0x111, 6) && !Bit(0x111, 7);
  }

  lemma CommandBit(bit: nat)
    ensures Bit(0x1_773F, bit) <==> bit < 17 && bit !in {6, 7, 11, 15}
  {
    hide Bit;
    SmallPowers();
    BitIs(0x1_773F, bit);
    if bit >= 17 { NoneAbove(0x1_773F, 17, bit); } else { CommandShift(bit); }
  }

  lemma CommandShift(bit: nat)
    requires bit < 17
    ensures 0x1_773F / Pow2(bit) % 2 == 1 <==> bit !in {6, 7, 11, 15}
  {
    SmallPowers();
    assert Pow2(5) == 0x20;
    assert Pow2(12) == 0x1000;
    assert Pow2(15) == 0x8000;
  }

  lemma WritableBit(address: u32, bit: nat)
    requires bit < 32
    ensures Reaches(address, bit) <==> WritableBits(address).Some? && Bit(WritableBits(address).value, bit)
  {
    hide WriteMask, MaySet;
    if DecodeEngineAddress(address).Some? { MaskBit(DecodeEngineAddress(address).value, bit); }
  }

  /** A write sets, or changes when it is merged, only bits on the list. */
  predicate Touches(log: Log, i: nat, bit: nat)
    requires i < |log| && log[i].Write?
  {
    if log[i].merged then i > 0 && log[i - 1].Read? && Bit(log[i].value, bit) != Bit(log[i - 1].value, bit) else Bit(log[i].value, bit)
  }

  lemma LegalReaches(log: Log, i: nat, bit: nat)
    requires i < |log| && log[i].Write? && LegalWriteAt(log, i) && bit < 32 && Touches(log, i, bit)
    ensures Reaches(log[i].address, bit)
  {
    hide WritableBits, Bit, AndNot32;
    var mask := WritableBits(log[i].address).value;
    if log[i].merged {
      SameOutside(log[i].value, log[i - 1].value, mask, bit);
    } else {
      SubsetOfMask(log[i].value, mask);
      assert BitsWithin(log[i].value, mask);
    }
    WritableBit(log[i].address, bit);
  }

  lemma SameOutside(a: u32, b: u32, mask: u32, bit: nat)
    requires AndNot32(a, mask) == AndNot32(b, mask) && bit < 32 && Bit(a, bit) != Bit(b, bit)
    ensures Bit(mask, bit)
  {
    BitwiseAt(AndNot, 32, a, mask, bit);
    BitwiseAt(AndNot, 32, b, mask, bit);
  }

  // ---- What the audit admits ----

  /** The bits of each engine register that a poll or a condition may test. */
  predicate MayTest(offset: int, bit: nat)
  {
    match offset
    case 0x00F4 => bit in {10, 12}
    case 0x0100 => true
    case 0x0118 => bit < 2
    case 0x1668 => bit in {0, 4, 8}
    case _ => false
  }

  predicate Observes(address: int, bit: nat)
  {
    if 0x11_0000 <= address < 0x11_2000 then MayTest(address - 0x11_0000, bit)
    else 0x84_0000 <= address < 0x84_2000 && MayTest(address - 0x84_0000, bit)
  }

  lemma TestMaskBit(offset: u32, bit: nat)
    requires bit < 32
    ensures MayTest(offset, bit) <==> ReadMask(offset).Some? && Bit(ReadMask(offset).value, bit)
  {
    hide Pow2, Bit;
    SmallPowers();
    match offset
    case 0x00F4 => SelectBit(bit);
    case 0x0118 => LowOnes(2, bit);
    case 0x1668 => ResetControlBit(bit);
    case 0x0100 => FullBits(bit);
    case _ =>
  }

  lemma SelectBit(bit: nat)
    ensures Bit(0x1400, bit) <==> bit in {10, 12}
  {
    hide Bit;
    assert Pow2(13) == 0x2000;
    BitIs(0x1400, bit);
    if bit >= 13 { NoneAbove(0x1400, 13, bit); } else { SelectShift(bit); }
  }

  lemma SelectShift(bit: nat)
    requires bit < 13
    ensures 0x1400 / Pow2(bit) % 2 == 1 <==> bit in {10, 12}
  {
    SmallPowers();
    assert Pow2(5) == 0x20;
    assert Pow2(12) == 0x1000;
  }

  lemma TestableBit(address: u32, bit: nat)
    requires bit < 32
    ensures Observes(address, bit) <==> TestableBits(address).Some? && Bit(TestableBits(address).value, bit)
  {
    hide ReadMask, MayTest;
    if DecodeEngineAddress(address).Some? { TestMaskBit(DecodeEngineAddress(address).value, bit); }
  }

  ghost predicate SomeBit(mask: u32) { exists i :: 0 <= i < 32 && Bit(mask, i) }

  ghost predicate AllReach(a: Action) { forall i :: 0 <= i < 32 && Bit(a.mask, i) ==> Reaches(a.address, i) }

  ghost predicate AllObserve(a: Action) { forall i :: 0 <= i < 32 && Bit(a.mask, i) ==> Observes(a.address, i) }

  /** The mask is not empty, and the value has bits under it alone. */
  ghost predicate Masked(a: Action) { SomeBit(a.mask) && BitsWithin(a.value, a.mask) }

  /** What may be in a plan, by register number and bit. */
  ghost predicate Lawful(a: Action)
  {
    match a.kind
    case Write32 => Masked(a) && AllReach(a) && a.timeoutMs == 0
    case MaskedWrite => Masked(a) && AllReach(a) && a.timeoutMs == 0
    case PollMaskEqual =>
      Masked(a) && AllObserve(a) && 0 < a.timeoutMs <= 60000
    case IfMaskEqualBegin =>
      Masked(a) && AllObserve(a) && a.timeoutMs == 0
    case DelayMilliseconds => a.address == 0 && a.mask == 0 && a.timeoutMs == 0 && 0 < a.value <= 10000
    case StartCpuRespectAlias => a.address in {0x11_0100, 0x84_0100} && a.value == 0 && a.mask == 0 && a.timeoutMs == 0
    case EndIf => a.address == 0 && a.value == 0 && a.mask == 0 && a.timeoutMs == 0
  }

  lemma EmptyMask(mask: u32)
    ensures mask != 0 <==> SomeBit(mask)
  {
    hide Bit;
    forall i | 0 <= i < 32 ensures !Bit(0, i) { ZeroHasNoBits(i); }
    if !SomeBit(mask) { Equal32(mask, 0); }
  }

  lemma ReachMask(a: Action)
    requires SomeBit(a.mask)
    ensures AllReach(a) <==> WritableBits(a.address).Some? && AndNot32(a.mask, WritableBits(a.address).value) == 0
  {
    hide WritableBits, Bit, AndNot32, Reaches;
    forall i | 0 <= i < 32
      ensures Reaches(a.address, i) <==> WritableBits(a.address).Some? && Bit(WritableBits(a.address).value, i)
    {
      WritableBit(a.address, i);
    }
    if WritableBits(a.address).Some? { SubsetOfMask(a.mask, WritableBits(a.address).value); }
  }

  lemma ObserveMask(a: Action)
    requires SomeBit(a.mask)
    ensures AllObserve(a) <==> TestableBits(a.address).Some? && AndNot32(a.mask, TestableBits(a.address).value) == 0
  {
    hide TestableBits, Bit, AndNot32, Observes;
    forall i | 0 <= i < 32
      ensures Observes(a.address, i) <==> TestableBits(a.address).Some? && Bit(TestableBits(a.address).value, i)
    {
      TestableBit(a.address, i);
    }
    if TestableBits(a.address).Some? { SubsetOfMask(a.mask, TestableBits(a.address).value); }
  }

  /** The allow-list admits exactly the lawful actions. */
  lemma AllowedExactly(a: Action)
    ensures Decide(a).Permits() <==> Lawful(a)
  {
    hide WritableBits, TestableBits, AndNot32, AllReach, AllObserve, SomeBit, BitsWithin;
    EmptyMask(a.mask);
    SubsetOfMask(a.value, a.mask);
    if SomeBit(a.mask) {
      ReachMask(a);
      ObserveMask(a);
    }
  }
}
