/** Preparing a cold boot: the generated host buffers, the scratch VRAM below the reserved region, and
    the agreement on where FRTS lies. */
module Prepare {
  import opened Words
  import opened Gsp
  import opened Wpr
  import opened Manifest
  import opened Prototype
  import Frts

  const LOG_REGION: u64 := 0x1_0000
  const GENERATED: nat := 10

  datatype GeneratedKind =
    | GeneratedQueue
    | GeneratedCachedArguments
    | GeneratedLibosInit
    | GeneratedWprMetadata
    | GeneratedRadix3
    | LogInit
    | LogIntr
    | LogRm
    | LogMnoc
    | LogKrnl

  datatype GeneratedRequirement = GeneratedRequirement(
    kind: GeneratedKind,
    linear: bool,
    logicalBytes: u64,
    allocationBytes: u64,
    pageCount: u64)

  datatype ScratchPlan = ScratchPlan(
    frtsFwsecOffset: u64,
    frtsFwsecBytes: u64,
    sec2BooterOffset: u64,
    sec2BooterBytes: u64,
    frtsRegionOffset: u64,
    frtsRegionBytes: u64)

  datatype PrepareStatus =
    | PrepareOk
    | InvalidProfile
    | InvalidManifest
    | PrepareSizeOverflow
    | FramebufferScratchUnderflow
    | FrtsPlacementMismatch

  datatype PreparationPlan = PreparationPlan(
    status: PrepareStatus,
    generated: seq<GeneratedRequirement>,
    totalBytes: u64,
    reusedSignatureBytes: u64,
    reusedBootloaderBytes: u64,
    framebuffer: ScratchPlan)

  const NO_SCRATCH := ScratchPlan(0, 0, 0, 0, 0, 0)

  /** The next page boundary, or 0 when there is none or nothing to align. */
  function AlignUpPage(v: u64): (r: u64)
    ensures r != 0 <==> v != 0 && AlignedUp(v, PAGE) <= MAX64
    ensures r != 0 ==> r == AlignedUp(v, PAGE)
  {
    if v == 0 || v > MAX64 - (PAGE - 1) then 0 else (v + PAGE - 1) / PAGE * PAGE
  }

  // ---- Generated buffers ----

  predicate ManifestBuffer(m: BootManifest, kind: AllocationKind, layout: DmaLayout)
  {
    && Find(m.allocations, kind).Some?
    && var r := Find(m.allocations, kind).value;
    && r.domain == System && r.requiresDmaMapping && r.logicalBytes != 0 && r.allocationBytes != 0
    && r.dmaLayout == layout && r.allocationBytes >= r.logicalBytes && r.allocationBytes % PAGE == 0
  }

  function BufferFor(m: BootManifest, kind: AllocationKind, generated: GeneratedKind): GeneratedRequirement
    requires Find(m.allocations, kind).Some?
  {
    var r := Find(m.allocations, kind).value;
    GeneratedRequirement(generated, r.dmaLayout == Linear, r.logicalBytes, r.allocationBytes, r.allocationBytes / PAGE)
  }

  function LogBuffer(kind: GeneratedKind): GeneratedRequirement
  {
    GeneratedRequirement(kind, true, LOG_REGION, LOG_REGION, LOG_REGION / PAGE)
  }

  /** The five buffers taken from the manifest, in order. */
  function ManifestKind(i: nat): (AllocationKind, GeneratedKind, DmaLayout)
    requires i < 5
  {
    if i == 0 then (QueueBacking, GeneratedQueue, PageList)
    else if i == 1 then (CachedArguments, GeneratedCachedArguments, Linear)
    else if i == 2 then (LibosInitArguments, GeneratedLibosInit, Linear)
    else if i == 3 then (WprMetadata, GeneratedWprMetadata, Linear)
    else (Radix3Firmware, GeneratedRadix3, PageList)
  }

  function LogKind(i: nat): GeneratedKind
    requires i < 5
  {
    if i == 0 then LogInit else if i == 1 then LogIntr else if i == 2 then LogRm else if i == 3 then LogMnoc else LogKrnl
  }

  predicate BufferOk(m: BootManifest, i: nat)
    requires i < 5
  {
    ManifestBuffer(m, ManifestKind(i).0, ManifestKind(i).2)
  }

  /** The first `k` generated buffers: five from the manifest, then the five logs. */
  function GeneratedTo(m: BootManifest, k: nat): (r: seq<GeneratedRequirement>)
    requires k <= GENERATED && forall i :: 0 <= i < k && i < 5 ==> BufferOk(m, i)
    ensures |r| == k
  {
    if k == 0 then []
    else if k <= 5 then
      assert BufferOk(m, k - 1);
      GeneratedTo(m, k - 1) + [BufferFor(m, ManifestKind(k - 1).0, ManifestKind(k - 1).1)]
    else GeneratedTo(m, k - 1) + [LogBuffer(LogKind(k - 6))]
  }

  function BytesTo(rs: seq<GeneratedRequirement>, k: nat): nat
    requires k <= |rs|
  {
    if k == 0 then 0 else BytesTo(rs, k - 1) + rs[k - 1].allocationBytes
  }

  predicate BuffersOk(m: BootManifest) { forall i :: 0 <= i < 5 ==> BufferOk(m, i) }

  function Generated(m: BootManifest): (r: seq<GeneratedRequirement>)
    requires BuffersOk(m)
    ensures |r| == GENERATED
  {
    GeneratedTo(m, GENERATED)
  }

  lemma {:induction false} BytesOfPrefix(rs: seq<GeneratedRequirement>, r: GeneratedRequirement, i: nat)
    requires i <= |rs|
    ensures BytesTo(rs + [r], i) == BytesTo(rs, i)
  {
    if i > 0 { BytesOfPrefix(rs, r, i - 1); }
  }

  /** The bytes of the first `k` generated buffers. */
  function GeneratedBytes(m: BootManifest, k: nat): nat
    requires BuffersOk(m) && k <= GENERATED
  {
    BytesTo(GeneratedTo(m, k), k)
  }

  lemma GeneratedStep(m: BootManifest, k: nat, rs: seq<GeneratedRequirement>, r: GeneratedRequirement)
    requires BuffersOk(m) && k < GENERATED && rs == GeneratedTo(m, k)
    requires k < 5 ==> BufferOk(m, k)
    requires r == if k < 5 then BufferFor(m, ManifestKind(k).0, ManifestKind(k).1) else LogBuffer(LogKind(k - 5))
    ensures GeneratedTo(m, k + 1) == rs + [r]
    ensures GeneratedBytes(m, k + 1) == GeneratedBytes(m, k) + r.allocationBytes
  {
    BytesOfPrefix(rs, r, k);
  }

  lemma {:induction false} GeneratedBytesGrow(m: BootManifest, i: nat, k: nat)
    requires BuffersOk(m) && i <= k <= GENERATED
    ensures GeneratedBytes(m, i) <= GeneratedBytes(m, k)
  {
    if i < k {
      GeneratedBytesGrow(m, i, k - 1);
      GeneratedStep(m, k - 1, GeneratedTo(m, k - 1), GeneratedTo(m, k)[k - 1]);
    }
  }

  /** Appends one requirement when its sizes are sound and the total still fits. */
  method AddRequirement(rs: seq<GeneratedRequirement>, total: u64, r: GeneratedRequirement)
    returns (ok: bool, out: seq<GeneratedRequirement>, sum: u64)
    ensures ok <==> |rs| < GENERATED && r.logicalBytes != 0 && r.allocationBytes != 0 && r.allocationBytes >= r.logicalBytes
                    && r.allocationBytes % PAGE == 0 && total + r.allocationBytes <= MAX64
    ensures ok ==> out == rs + [r] && sum == total + r.allocationBytes
  {
    if |rs| >= GENERATED || r.logicalBytes == 0 || r.allocationBytes == 0 || r.allocationBytes < r.logicalBytes
       || r.allocationBytes % PAGE != 0 {
      return false, rs, total;
    }
    if total > MAX64 - r.allocationBytes {
      return false, rs, total;
    }
    ok, out, sum := true, rs + [r], total + r.allocationBytes;
  }

  /** Collects the generated buffers: the manifest's five in order, then the logs. */
  method CollectGenerated(m: BootManifest) returns (status: PrepareStatus, rs: seq<GeneratedRequirement>, total: u64)
    ensures status == GeneratedStatus(m)
    ensures status == PrepareOk ==> rs == Generated(m) && total == GeneratedBytes(m, GENERATED)
  {
    hide BufferFor, GeneratedTo, GeneratedBytes, BytesTo;
    rs, total := [], 0;
    NoneGenerated(m);
    for i := 0 to 5
      invariant forall k :: 0 <= k < i ==> BufferOk(m, k)
      invariant |rs| == i
      invariant BuffersOk(m) ==> rs == GeneratedTo(m, i) && total == GeneratedBytes(m, i)
    {
      var (kind, generated, layout) := ManifestKind(i);
      if !ManifestBuffer(m, kind, layout) {
        assert !BufferOk(m, i);
        return InvalidManifest, rs, total;
      }
      var r := BufferFor(m, kind, generated);
      BufferShape(m, kind, generated, layout);
      var ok: bool;
      if BuffersOk(m) {
        GeneratedStep(m, i, rs, r);
        GeneratedBytesGrow(m, i + 1, 5);
      }
      ok, rs, total := AddRequirement(rs, total, r);
      if !ok {
        return InvalidManifest, rs, total;
      }
    }
    for i := 5 to GENERATED
      invariant |rs| == i && BuffersOk(m) && GeneratedBytes(m, 5) <= MAX64
      invariant rs == GeneratedTo(m, i) && total == GeneratedBytes(m, i)
    {
      GeneratedStep(m, i, rs, LogBuffer(LogKind(i - 5)));
      GeneratedBytesGrow(m, i + 1, GENERATED);
      var ok: bool;
      ok, rs, total := AddRequirement(rs, total, LogBuffer(LogKind(i - 5)));
      if !ok {
        return PrepareSizeOverflow, rs, total;
      }
    }
    status := PrepareOk;
  }

  /** The outcome of collecting them. */
  function GeneratedStatus(m: BootManifest): PrepareStatus
  {
    if !BuffersOk(m) || GeneratedBytes(m, 5) > MAX64 then InvalidManifest
    else if GeneratedBytes(m, GENERATED) > MAX64 then PrepareSizeOverflow
    else PrepareOk
  }

  lemma NoneGenerated(m: BootManifest)
    ensures GeneratedTo(m, 0) == [] && (BuffersOk(m) ==> GeneratedBytes(m, 0) == 0)
  {
  }

  lemma BufferShape(m: BootManifest, kind: AllocationKind, generated: GeneratedKind, layout: DmaLayout)
    requires ManifestBuffer(m, kind, layout)
    ensures var r := BufferFor(m, kind, generated);
      r.logicalBytes != 0 && r.allocationBytes != 0 && r.allocationBytes >= r.logicalBytes && r.allocationBytes % PAGE == 0
  {
  }

  // ---- The whole plan ----

  predicate ReusedOk(m: BootManifest, kind: AllocationKind)
  {
    && Find(m.allocations, kind).Some?
    && var r := Find(m.allocations, kind).value;
    r.domain == System && r.dmaLayout == Linear && r.allocationBytes != 0
  }

  function FwsecBytes(p: Profile): u64 { AlignUpPage(p.manifest.inputs.frtsFwsecImageBytes) }
  function Sec2Bytes(p: Profile): u64 { AlignUpPage(p.manifest.inputs.sec2BooterImageBytes) }

  /** Both images fit below the reserved region. */
  predicate ScratchFits(p: Profile)
  {
    Sec2Bytes(p) + FwsecBytes(p) <= p.manifest.wpr.gspFwRsvdStart
  }

  function Sec2Offset(p: Profile): u64
    requires ScratchFits(p)
  {
    p.manifest.wpr.gspFwRsvdStart - Sec2Bytes(p)
  }

  function FwsecOffset(p: Profile): u64
    requires ScratchFits(p)
  {
    Sec2Offset(p) - FwsecBytes(p)
  }

  /** The command, the layout and the constants name one FRTS region. */
  predicate FrtsAgrees(p: Profile)
  {
    && Frts.RegionExists(p.manifest.inputs.fbSize)
    && p.manifest.inputs.fbSize - Frts.RESERVE == p.manifest.wpr.frtsOffset
    && p.manifest.wpr.frtsSize == FRTS_BYTES
  }

  function StatusFor(p: Profile): PrepareStatus
  {
    if p.status != ProfileOk then InvalidProfile
    else if !p.manifest.valid || |p.manifest.allocations| != 9 then InvalidManifest
    else if GeneratedStatus(p.manifest) != PrepareOk then GeneratedStatus(p.manifest)
    else if !ReusedOk(p.manifest, FirmwareSignature) || !ReusedOk(p.manifest, GspBootloader) then InvalidManifest
    else if FwsecBytes(p) == 0 || Sec2Bytes(p) == 0 then PrepareSizeOverflow
    else if !ScratchFits(p) then FramebufferScratchUnderflow
    else if Sec2Offset(p) % PAGE != 0 || FwsecOffset(p) % PAGE != 0 then InvalidManifest
    else if !FrtsAgrees(p) then FrtsPlacementMismatch
    else PrepareOk
  }

  function PlanFor(p: Profile): PreparationPlan
    requires StatusFor(p) == PrepareOk
  {
    PreparationPlan(
      PrepareOk,
      Generated(p.manifest),
      GeneratedBytes(p.manifest, GENERATED),
      Find(p.manifest.allocations, FirmwareSignature).value.allocationBytes,
      Find(p.manifest.allocations, GspBootloader).value.allocationBytes,
      ScratchPlan(FwsecOffset(p), FwsecBytes(p), Sec2Offset(p), Sec2Bytes(p), p.manifest.wpr.frtsOffset, p.manifest.wpr.frtsSize))
  }

  method PlanBootPreparation(p: Profile) returns (out: PreparationPlan)
    ensures out.status == StatusFor(p)
    ensures out.status == PrepareOk ==> out == PlanFor(p)
  {
    hide Find, Generated, GeneratedStatus, GeneratedBytes, AlignUpPage, BuffersOk;
    out := PreparationPlan(InvalidProfile, [], 0, 0, 0, NO_SCRATCH);
    if p.status != ProfileOk {
      return;
    }
    if !p.manifest.valid || |p.manifest.allocations| != 9 {
      return out.(status := InvalidManifest);
    }
    var status, rs, total := CollectGenerated(p.manifest);
    if status != PrepareOk {
      return out.(status := status);
    }
    var signature, bootloader := Find(p.manifest.allocations, FirmwareSignature), Find(p.manifest.allocations, GspBootloader);
    if signature.None? || bootloader.None? || signature.value.domain != System || bootloader.value.domain != System
       || signature.value.dmaLayout != Linear || bootloader.value.dmaLayout != Linear
       || signature.value.allocationBytes == 0 || bootloader.value.allocationBytes == 0 {
      return out.(status := InvalidManifest);
    }
    out := PreparationPlan(PrepareOk, rs, total, signature.value.allocationBytes, bootloader.value.allocationBytes, NO_SCRATCH);
    var placed, scratch := PlaceScratch(p);
    if placed != PrepareOk {
      return out.(status := placed);
    }
    out := out.(framebuffer := scratch);
  }

  /** Places SEC2 directly below the reserved region and FWSEC below it, then checks the FRTS region. */
  method PlaceScratch(p: Profile) returns (status: PrepareStatus, scratch: ScratchPlan)
    ensures status == if FwsecBytes(p) == 0 || Sec2Bytes(p) == 0 then PrepareSizeOverflow
                      else if !ScratchFits(p) then FramebufferScratchUnderflow
                      else if Sec2Offset(p) % PAGE != 0 || FwsecOffset(p) % PAGE != 0 then InvalidManifest
                      else if !FrtsAgrees(p) then FrtsPlacementMismatch
                      else PrepareOk
    ensures status == PrepareOk ==>
              scratch == ScratchPlan(FwsecOffset(p), FwsecBytes(p), Sec2Offset(p), Sec2Bytes(p), p.manifest.wpr.frtsOffset,
                                     p.manifest.wpr.frtsSize)
  {
    hide AlignUpPage;
    scratch := NO_SCRATCH;
    var fwsec, sec2 := AlignUpPage(p.manifest.inputs.frtsFwsecImageBytes), AlignUpPage(p.manifest.inputs.sec2BooterImageBytes);
    if fwsec == 0 || sec2 == 0 {
      return PrepareSizeOverflow, scratch;
    }
    var reserved := p.manifest.wpr.gspFwRsvdStart;
    if reserved < sec2 || reserved - sec2 < fwsec {
      return FramebufferScratchUnderflow, scratch;
    }
    var sec2Offset := reserved - sec2;
    var fwsecOffset := sec2Offset - fwsec;
    if sec2Offset % PAGE != 0 || fwsecOffset % PAGE != 0 {
      return InvalidManifest, scratch;
    }
    var command := Frts.BuildFrtsCommand(p.manifest.inputs.fbSize);
    if command.None? || command.value.regionOffsetBytes != p.manifest.wpr.frtsOffset || p.manifest.wpr.frtsSize != FRTS_BYTES {
      return FrtsPlacementMismatch, scratch;
    }
    status := PrepareOk;
    scratch := ScratchPlan(fwsecOffset, fwsec, sec2Offset, sec2, p.manifest.wpr.frtsOffset, p.manifest.wpr.frtsSize);
  }
}
