/** The write-protected region's layout: a chain of subtractions and alignments from the top of VRAM down. */
module Wpr {
  import opened Words
  import opened Wrappers
  import opened Arith
  import opened Gsp

  const KIB4: u64 := 0x1000
  const KIB64: u64 := 0x1_0000
  const KIB128: u64 := 0x2_0000
  const MIB: u64 := 0x10_0000

  datatype WprLayoutInputs = WprLayoutInputs(
    fbSize: u64,
    vgaWorkspaceOffset: u64,
    vbiosReservedOffset: u64,
    wprEndMargin: u64,
    frtsSize: u64,
    bootloaderSize: u64,
    radix3ElfSize: u64,
    nonWprHeapSize: u64,
    requestedWprHeapSize: u64)

  /** The largest multiple of `a` that is at most `v`. */
  function AlignDown(v: int, a: u64): (r: int)
    requires a > 0
    ensures r % a == 0 && r <= v < r + a
  {
    RoundsDown(v, a);
    v - v % a
  }

  lemma RoundsDown(v: int, a: u64)
    requires a > 0
    ensures (v - v % a) % a == 0
  {
    assert v - v % a == v / a * a;
    DivModUnique(v - v % a, a, v / a, 0);
  }

  /** The smallest multiple of `a` that is at least `v`, unless it exceeds 64 bits. */
  function AlignUp(v: u64, a: u64): (r: Option<u64>)
    ensures a > 0 ==> (r.Some? <==> AlignedUp(v, a) <= MAX64) && (r.Some? ==> r.value == AlignedUp(v, a))
  {
    if a == 0 then None
    else if v % a == 0 then Some(v)
    else if v > MAX64 - (a - v % a) then None
    else Some(v + (a - v % a))
  }

  function AlignedUp(v: nat, a: u64): (r: nat)
    requires a > 0
    ensures r % a == 0 && v <= r < v + a
  {
    RoundsUp(v, a);
    if v % a == 0 then v else v + (a - v % a)
  }

  lemma RoundsUp(v: nat, a: u64)
    requires a > 0
    ensures v % a != 0 ==> (v + (a - v % a)) % a == 0
  {
    assert v == v / a * a + v % a;
    if v % a != 0 {
      DivModUnique(v + (a - v % a), a, v / a + 1, 0);
    }
  }

  // ---- The chain, over unbounded integers ----

  function WprEnd(i: WprLayoutInputs): int { AlignDown(i.vbiosReservedOffset - i.wprEndMargin, KIB128) }
  function FrtsOffset(i: WprLayoutInputs): int { WprEnd(i) - i.frtsSize }
  function BootBin(i: WprLayoutInputs): int { AlignDown(FrtsOffset(i) - i.bootloaderSize, KIB4) }
  function FirmwareOffset(i: WprLayoutInputs): int { AlignDown(BootBin(i) - i.radix3ElfSize, KIB64) }
  function HeapOffset(i: WprLayoutInputs): int { AlignDown(FirmwareOffset(i) - i.requestedWprHeapSize, MIB) }
  function HeapSize(i: WprLayoutInputs): int { AlignDown(FirmwareOffset(i) - HeapOffset(i), MIB) }
  function WprStart(i: WprLayoutInputs): int { HeapOffset(i) - MIB }
  function NonWprSize(i: WprLayoutInputs): nat { AlignedUp(i.nonWprHeapSize, MIB) }
  function ReservedStart(i: WprLayoutInputs): int { WprStart(i) - NonWprSize(i) }

  predicate InputsOk(i: WprLayoutInputs)
  {
    && i.fbSize != 0 && i.vgaWorkspaceOffset <= i.fbSize && i.vbiosReservedOffset <= i.fbSize
    && i.bootloaderSize != 0 && i.radix3ElfSize != 0 && i.requestedWprHeapSize != 0
    && i.wprEndMargin <= i.vbiosReservedOffset
  }

  /** A layout exists exactly when the whole chain stays within VRAM and the heap keeps a MiB. */
  predicate Accepts(i: WprLayoutInputs)
  {
    InputsOk(i) && 0 <= ReservedStart(i) && HeapSize(i) > 0
  }

  /** Each step of the chain is at or below the one before it. */
  lemma Chain(i: WprLayoutInputs)
    requires i.bootloaderSize > 0 && i.radix3ElfSize > 0 && i.requestedWprHeapSize > 0
    ensures ReservedStart(i) <= WprStart(i) < HeapOffset(i) < FirmwareOffset(i) < BootBin(i) < FrtsOffset(i)
            <= WprEnd(i) <= i.vbiosReservedOffset - i.wprEndMargin
    ensures 0 <= HeapSize(i) <= FirmwareOffset(i) - HeapOffset(i)
  {
  }

  function LayoutOf(i: WprLayoutInputs): WprLayout
    requires Accepts(i)
  {
    Chain(i);
    WprLayout(i.fbSize, i.vgaWorkspaceOffset, i.fbSize - i.vgaWorkspaceOffset, ReservedStart(i), ReservedStart(i),
              NonWprSize(i), WprStart(i), HeapOffset(i), HeapSize(i), FirmwareOffset(i), BootBin(i), FrtsOffset(i),
              i.frtsSize, WprEnd(i), i.radix3ElfSize, i.bootloaderSize)
  }

  /** The source's cursor, stepping down and stopping at the first underflow. The ordering test before the
      result is kept; that acceptance is exactly `Accepts` shows it never rejects anything. */
  method PlanWprLayout(i: WprLayoutInputs) returns (out: Option<WprLayout>)
    ensures out == if Accepts(i) then Some(LayoutOf(i)) else None
  {
    hide AlignDown, AlignedUp;
    if i.fbSize == 0 || i.vgaWorkspaceOffset > i.fbSize || i.vbiosReservedOffset > i.fbSize {
      return None;
    }
    if i.bootloaderSize == 0 || i.radix3ElfSize == 0 || i.requestedWprHeapSize == 0 {
      return None;
    }
    if i.vbiosReservedOffset < i.wprEndMargin {
      return None;
    }
    Chain(i);
    var cursor: int := i.vbiosReservedOffset - i.wprEndMargin;
    var wprEnd := AlignDown(cursor, KIB128);
    if wprEnd < i.frtsSize {
      return None;
    }
    var frtsOffset := wprEnd - i.frtsSize;
    if frtsOffset < i.bootloaderSize {
      return None;
    }
    cursor := frtsOffset - i.bootloaderSize;
    var bootBinOffset := AlignDown(cursor, KIB4);
    if bootBinOffset < i.radix3ElfSize {
      return None;
    }
    cursor := bootBinOffset - i.radix3ElfSize;
    var fwOffset := AlignDown(cursor, KIB64);
    var nonWprAligned := AlignUp(i.nonWprHeapSize, MIB);
    if nonWprAligned.None? {
      return None;
    }
    if fwOffset < i.requestedWprHeapSize {
      return None;
    }
    cursor := fwOffset - i.requestedWprHeapSize;
    var heapOffset := AlignDown(cursor, MIB);
    var heapSize := AlignDown(fwOffset - heapOffset, MIB);
    if heapSize == 0 {
      return None;
    }
    if heapOffset < MIB {
      return None;
    }
    var wprStart := heapOffset - MIB;
    if wprStart < nonWprAligned.value {
      return None;
    }
    var nonWprOffset := wprStart - nonWprAligned.value;
    if !(nonWprOffset <= wprStart <= heapOffset < fwOffset < bootBinOffset <= frtsOffset <= wprEnd
         <= i.vbiosReservedOffset <= i.fbSize) {
      return None;
    }
    out := Some(WprLayout(i.fbSize, i.vgaWorkspaceOffset, i.fbSize - i.vgaWorkspaceOffset, nonWprOffset, nonWprOffset,
                          nonWprAligned.value, wprStart, heapOffset, heapSize, fwOffset, bootBinOffset, frtsOffset,
                          i.frtsSize, wprEnd, i.radix3ElfSize, i.bootloaderSize));
  }

  // ---- What a layout promises ----

  /** The regions tile downward from the WPR end without overlap, each aligned and large enough for
      what it holds. */
  lemma RegionsAreDisjointAndAligned(i: WprLayoutInputs)
    requires Accepts(i)
    ensures var l := LayoutOf(i);
      && l.gspFwRsvdStart == l.nonWprHeapOffset
      && l.nonWprHeapOffset + l.nonWprHeapSize == l.gspFwWprStart
      && l.gspFwWprStart + MIB == l.gspFwHeapOffset
      && l.gspFwHeapOffset + l.gspFwHeapSize <= l.gspFwOffset
      && l.gspFwOffset + l.sizeOfRadix3Elf <= l.bootBinOffset
      && l.bootBinOffset + l.sizeOfBootloader <= l.frtsOffset
      && l.frtsOffset + l.frtsSize == l.gspFwWprEnd <= i.vbiosReservedOffset - i.wprEndMargin <= l.fbSize
      && l.vgaWorkspaceOffset + l.vgaWorkspaceSize == l.fbSize
      && i.nonWprHeapSize <= l.nonWprHeapSize < i.nonWprHeapSize + MIB
      && l.gspFwWprEnd % KIB128 == 0 && l.bootBinOffset % KIB4 == 0 && l.gspFwOffset % KIB64 == 0
      && l.gspFwHeapOffset % MIB == 0 && l.gspFwHeapSize % MIB == 0 && l.nonWprHeapSize % MIB == 0
      && l.gspFwWprStart % MIB == 0 && l.gspFwRsvdStart % MIB == 0
  {
    hide AlignDown, AlignedUp;
    Chain(i);
    ModShift(HeapOffset(i), -1, MIB);
    var h, n := WprStart(i) / MIB, NonWprSize(i) / MIB;
    assert WprStart(i) == h * MIB && NonWprSize(i) == n * MIB;
    DivModUnique(ReservedStart(i), MIB, h - n, 0);
  }

  /** And no lower than it must: each part starts at the last boundary of its own that leaves room for it. */
  lemma LayoutIsTight(i: WprLayoutInputs)
    requires Accepts(i)
    ensures var l, top := LayoutOf(i), i.vbiosReservedOffset - i.wprEndMargin;
      && l.fbSize == i.fbSize && l.vgaWorkspaceOffset == i.vgaWorkspaceOffset
      && l.sizeOfRadix3Elf == i.radix3ElfSize && l.sizeOfBootloader == i.bootloaderSize && l.frtsSize == i.frtsSize
      && l.gspFwWprEnd % 0x2_0000 == 0 && l.gspFwWprEnd <= top < l.gspFwWprEnd + 0x2_0000
      && l.frtsOffset + i.frtsSize == l.gspFwWprEnd
      && l.bootBinOffset % 0x1000 == 0 && l.bootBinOffset + i.bootloaderSize <= l.frtsOffset < l.bootBinOffset + i.bootloaderSize + 0x1000
      && l.gspFwOffset % 0x1_0000 == 0 && l.gspFwOffset + i.radix3ElfSize <= l.bootBinOffset < l.gspFwOffset + i.radix3ElfSize + 0x1_0000
      && l.gspFwHeapOffset % 0x10_0000 == 0
      && l.gspFwHeapOffset + i.requestedWprHeapSize <= l.gspFwOffset < l.gspFwHeapOffset + i.requestedWprHeapSize + 0x10_0000
      && l.gspFwHeapOffset + l.gspFwHeapSize <= l.gspFwOffset < l.gspFwHeapOffset + l.gspFwHeapSize + 0x10_0000
      && l.gspFwHeapSize % 0x10_0000 == 0
      && l.gspFwWprStart + 0x10_0000 == l.gspFwHeapOffset && l.nonWprHeapOffset + l.nonWprHeapSize == l.gspFwWprStart
      && l.nonWprHeapSize % 0x10_0000 == 0 && i.nonWprHeapSize <= l.nonWprHeapSize < i.nonWprHeapSize + 0x10_0000
      && l.gspFwRsvdStart == l.nonWprHeapOffset
  {
    hide AlignDown, AlignedUp;
    Chain(i);
  }

  /** The heap is the request rounded to a MiB, up or down: it covers the request exactly when the
      request is whole MiB or the firmware starts earlier in its MiB than the request's remainder. */
  lemma HeapCoversRequest(i: WprLayoutInputs)
    ensures var rest := i.requestedWprHeapSize % MIB;
      && HeapSize(i) == i.requestedWprHeapSize - rest + (if FirmwareOffset(i) % MIB < rest then MIB else 0)
      && (HeapSize(i) >= i.requestedWprHeapSize <==> rest == 0 || FirmwareOffset(i) % MIB < rest)
  {
    hide AlignDown;
    var f, r := FirmwareOffset(i), i.requestedWprHeapSize;
    var a, b := f % MIB, r % MIB;
    var qf, qr := f / MIB, r / MIB;
    assert f == qf * MIB + a && r == qr * MIB + b;
    var borrow := if a < b then 1 else 0;
    AlignsTo(f - r, MIB, qf - qr - borrow, a - b + borrow * MIB);
    AlignsTo(f - HeapOffset(i), MIB, qr + borrow, a);
  }

  lemma AlignsTo(v: int, a: u64, q: int, r: int)
    requires a > 0 && 0 <= r < a && v == q * a + r
    ensures AlignDown(v, a) == q * a
  {
    DivModUnique(v, a, q, r);
  }

  /** A request that is not whole MiB can be planned with a smaller heap than asked for. */
  lemma SmallerHeapExample()
    ensures var i := WprLayoutInputs(0x2_0000_0000, 0x1_FFF0_0000, 0x1_FFF0_0000, 0, 0x10_0000, 0x1000, 0x100_0000, 0x10_0000, 0x818_0000);
      Accepts(i) && LayoutOf(i).gspFwHeapSize == 0x810_0000 < i.requestedWprHeapSize
  {
    hide AlignDown, AlignedUp;
    var i := WprLayoutInputs(0x2_0000_0000, 0x1_FFF0_0000, 0x1_FFF0_0000, 0, 0x10_0000, 0x1000, 0x100_0000, 0x10_0000, 0x818_0000);
    AlignsTo(0x1_FFF0_0000, KIB128, 0xFFF8, 0);
    AlignsTo(0x1_FFDF_F000, KIB4, 0x1F_FDFF, 0);
    AlignsTo(0x1_FEDF_F000, KIB64, 0x1_FEDF, 0xF000);
    assert FirmwareOffset(i) == 0x1_FEDF_0000;
    HeapCoversRequest(i);
  }

  // ---- Moving the boundary ----

  function Lowered(i: WprLayoutInputs, bytes: nat): WprLayoutInputs
    requires bytes <= i.vbiosReservedOffset
  {
    i.(vbiosReservedOffset := i.vbiosReservedOffset - bytes)
  }

  lemma AlignDownShifts(v: int, a: u64, k: int)
    requires a > 0
    ensures AlignDown(v - k * a, a) == AlignDown(v, a) - k * a
  {
    ModShift(v, -k, a);
    assert v + (-k) * a == v - k * a;
  }

  /** Lowering the boundary by whole MiB moves every part from the WPR end down by exactly that much. */
  lemma LoweringShifts(i: WprLayoutInputs, mib: nat)
    requires mib * MIB <= i.vbiosReservedOffset
    ensures var j := Lowered(i, mib * MIB);
      && WprEnd(j) == WprEnd(i) - mib * MIB
      && FrtsOffset(j) == FrtsOffset(i) - mib * MIB
      && BootBin(j) == BootBin(i) - mib * MIB
      && FirmwareOffset(j) == FirmwareOffset(i) - mib * MIB
      && HeapOffset(j) == HeapOffset(i) - mib * MIB
      && HeapSize(j) == HeapSize(i)
      && WprStart(j) == WprStart(i) - mib * MIB
      && NonWprSize(j) == NonWprSize(i)
      && ReservedStart(j) == ReservedStart(i) - mib * MIB
  {
    hide AlignDown, AlignedUp;
    var j := Lowered(i, mib * MIB);
    AlignDownShifts(i.vbiosReservedOffset - i.wprEndMargin, KIB128, 8 * mib);
    AlignDownShifts(FrtsOffset(i) - i.bootloaderSize, KIB4, 256 * mib);
    AlignDownShifts(BootBin(i) - i.radix3ElfSize, KIB64, 16 * mib);
    AlignDownShifts(FirmwareOffset(i) - i.requestedWprHeapSize, MIB, mib);
  }

  lemma AlignDownMonotone(v: int, w: int, a: u64)
    requires a > 0 && v <= w
    ensures AlignDown(v, a) <= AlignDown(w, a)
  {
    var p, q := v / a, w / a;
    assert AlignDown(v, a) == p * a && AlignDown(w, a) == q * a;
    assert (q + 1) * a == q * a + a;
    if p > q {
      MulMono(q + 1, p, a);
    } else {
      MulMono(p, q, a);
    }
  }

  function Raised(i: WprLayoutInputs, higher: u64): WprLayoutInputs { i.(vbiosReservedOffset := higher) }

  /** Raising the boundary within VRAM keeps a layout exactly when the request is whole MiB or more, or the
      firmware still starts earlier in its MiB than the request reaches. Only the empty heap can lose it. */
  lemma RaisingKeepsLayout(i: WprLayoutInputs, higher: u64)
    requires Accepts(i) && i.vbiosReservedOffset <= higher <= i.fbSize
    ensures var j := Raised(i, higher);
      Accepts(j) <==> i.requestedWprHeapSize >= MIB || FirmwareOffset(j) % MIB < i.requestedWprHeapSize
  {
    hide AlignDown, AlignedUp;
    var j := Raised(i, higher);
    AlignDownMonotone(i.vbiosReservedOffset - i.wprEndMargin, higher - i.wprEndMargin, KIB128);
    AlignDownMonotone(FrtsOffset(i) - i.bootloaderSize, FrtsOffset(j) - i.bootloaderSize, KIB4);
    AlignDownMonotone(BootBin(i) - i.radix3ElfSize, BootBin(j) - i.radix3ElfSize, KIB64);
    AlignDownMonotone(FirmwareOffset(i) - i.requestedWprHeapSize, FirmwareOffset(j) - i.requestedWprHeapSize, MIB);
    HeapCoversRequest(j);
  }

  /** The latest a firmware, aligned to 64 KiB, can start in its MiB. */
  const LAST_START: u64 := 0xF_0000

  /** No boundary raised within VRAM loses a layout with this heap request. */
  ghost predicate NeverLost(request: u64)
  {
    forall i: WprLayoutInputs, higher: u64 ::
      i.requestedWprHeapSize == request && Accepts(i) && i.vbiosReservedOffset <= higher <= i.fbSize
      ==> Accepts(Raised(i, higher))
  }

  lemma StartsOn64K(v: int)
    ensures AlignDown(v, KIB64) % MIB <= LAST_START
  {
  }

  /** An accepted layout for a small request, its firmware 0 or 64 KiB into a MiB. */
  function SmallLayout(request: u64): WprLayoutInputs
  {
    WprLayoutInputs(0x1000_0000, 0x1000_0000, 0x800_0000, 0, 0, 0x1_0000, if request <= 0x1_0000 then 0xF_0000 else 0xE_0000, 0, request)
  }

  const HIGHER: u64 := 0x80E_0000

  lemma SmallFirmware(request: u64)
    ensures FirmwareOffset(SmallLayout(request)) == if request <= 0x1_0000 then 0x7F0_0000 else 0x7F1_0000
    ensures FirmwareOffset(Raised(SmallLayout(request), HIGHER)) == if request <= 0x1_0000 then 0x7FE_0000 else 0x7FF_0000
  {
    hide AlignDown;
    AlignsTo(0x800_0000, KIB128, 0x400, 0);
    AlignsTo(0x7FF_0000, KIB4, 0x7FF0, 0);
    AlignsTo(HIGHER, KIB128, 0x407, 0);
    AlignsTo(0x80D_0000, KIB4, 0x80D0, 0);
    if request <= 0x1_0000 {
      AlignsTo(0x7F0_0000, KIB64, 0x7F0, 0);
      AlignsTo(0x7FE_0000, KIB64, 0x7FE, 0);
    } else {
      AlignsTo(0x7F1_0000, KIB64, 0x7F1, 0);
      AlignsTo(0x7FF_0000, KIB64, 0x7FF, 0);
    }
  }

  /** A raised boundary takes it away: the firmware now starts 14 or 15 times 64 KiB into its MiB. */
  lemma SmallLayoutIsLost(request: u64)
    requires 0 < request <= LAST_START
    ensures Accepts(SmallLayout(request)) && !Accepts(Raised(SmallLayout(request), HIGHER))
  {
    hide AlignDown, AlignedUp, FirmwareOffset;
    SmallFirmware(request);
    HeapCoversRequest(SmallLayout(request));
    HeapCoversRequest(Raised(SmallLayout(request), HIGHER));
  }

  /** Acceptance is monotone in the boundary exactly for requests above 15 times 64 KiB. */
  lemma AcceptanceIsMonotone(request: u64)
    requires request != 0
    ensures NeverLost(request) <==> request > LAST_START
  {
    hide AlignDown, AlignedUp, Accepts;
    if request > LAST_START {
      forall i: WprLayoutInputs, higher: u64 |
        i.requestedWprHeapSize == request && Accepts(i) && i.vbiosReservedOffset <= higher <= i.fbSize
        ensures Accepts(Raised(i, higher))
      {
        RaisingKeepsLayout(i, higher);
        var j := Raised(i, higher);
        StartsOn64K(BootBin(j) - j.radix3ElfSize);
      }
    } else {
      SmallLayoutIsLost(request);
      assert SmallLayout(request).requestedWprHeapSize == request;
    }
  }
}
