/** The boot manifest: what is allocated, where framebuffer images may be staged, and the artifacts
    built once every address is resolved. */
module Manifest {
  import opened Words
  import opened Wrappers
  import opened Bytes
  import opened Gsp
  import opened Wpr
  import Radix3
  import Q = QueueMemory
  import M = Metadata
  import P = Pramin
  import D = Dma

  const PAGE: u64 := 0x1000

  // ---- Planning ----

  function WprInputs(i: ManifestInputs): WprLayoutInputs
  {
    WprLayoutInputs(i.fbSize, i.vgaWorkspaceOffset, i.vbiosReservedOffset, i.wprEndMargin, i.frtsSize,
                    i.gspBootloaderBytes, i.gspFirmwareImageBytes, i.nonWprHeapSize, i.requestedWprHeapSize)
  }

  predicate Rounds(bytes: u64) { AlignedUp(bytes, PAGE) <= MAX64 }

  predicate ManifestOk(i: ManifestInputs)
  {
    && i.gspFirmwareImageBytes != 0 && i.gspSignatureBytes != 0 && i.gspBootloaderBytes != 0
    && i.frtsFwsecImageBytes != 0 && i.sec2BooterImageBytes != 0
    && Q.PlanQueueMemory(i.queueBytes).Some?
    && i.gspFirmwareImageBytes <= Radix3.MAX_IMAGE
    && Accepts(WprInputs(i))
    && Rounds(i.gspSignatureBytes) && Rounds(i.gspBootloaderBytes)
    && Rounds(i.frtsFwsecImageBytes) && Rounds(i.sec2BooterImageBytes)
  }

  function Requirement(kind: AllocationKind, domain: MemoryDomain, bytes: u64, layout: DmaLayout): Gsp.Allocation
    requires Rounds(bytes)
  {
    Gsp.Allocation(kind, domain, bytes, AlignedUp(bytes, PAGE), PAGE, layout != NoDma, layout)
  }

  /** The nine allocations of every manifest, in order. */
  function Allocations(i: ManifestInputs): (r: seq<Gsp.Allocation>)
    requires ManifestOk(i)
    ensures |r| == 9
  {
    TableAllocationsRound(i);
    [ Requirement(QueueBacking, System, Q.PlanQueueMemory(i.queueBytes).value.totalBytes, PageList),
      Requirement(CachedArguments, System, Q.CACHED_ARGUMENTS, Linear),
      Requirement(LibosInitArguments, System, M.LIBOS_PAGE, Linear),
      Requirement(WprMetadata, System, M.WPR_META_BYTES, Linear),
      Requirement(Radix3Firmware, System, Radix3.LayoutOf(i.gspFirmwareImageBytes).allocationBytes, PageList),
      Requirement(FirmwareSignature, System, i.gspSignatureBytes, Linear),
      Requirement(GspBootloader, System, i.gspBootloaderBytes, Linear),
      Requirement(FrtsFwsecImage, Framebuffer, i.frtsFwsecImageBytes, NoDma),
      Requirement(Sec2BooterImage, Framebuffer, i.sec2BooterImageBytes, NoDma) ]
  }

  /** The sizes the planner computes itself always round up to pages. */
  lemma TableAllocationsRound(i: ManifestInputs)
    requires ManifestOk(i)
    ensures Rounds(Q.PlanQueueMemory(i.queueBytes).value.totalBytes)
    ensures Rounds(Radix3.LayoutOf(i.gspFirmwareImageBytes).allocationBytes)
    ensures Rounds(Q.CACHED_ARGUMENTS) && Rounds(M.LIBOS_PAGE) && Rounds(M.WPR_META_BYTES)
  {
    hide Accepts, Q.PlanQueueMemory;
    Q.QueueLayoutShape(i.queueBytes);
    SmallImage(i.gspFirmwareImageBytes);
  }

  lemma SmallImage(imageBytes: u64)
    requires 1 <= imageBytes <= Radix3.MAX_IMAGE
    ensures imageBytes < Radix3.LayoutOf(imageBytes).allocationBytes <= 0x100_0000_0000
  {
    Radix3.RootCapacity(imageBytes);
  }

  function ManifestOf(i: ManifestInputs): BootManifest
    requires ManifestOk(i)
  {
    BootManifest(true, i, Q.PlanQueueMemory(i.queueBytes).value, Radix3.LayoutOf(i.gspFirmwareImageBytes),
                 LayoutOf(WprInputs(i)), Allocations(i), true)
  }

  /** Appends one requirement, or invalidates the manifest when its size cannot be rounded. */
  method AddAlloc(m: BootManifest, kind: AllocationKind, domain: MemoryDomain, bytes: u64, layout: DmaLayout)
    returns (out: BootManifest)
    ensures out == if Rounds(bytes) then m.(allocations := m.allocations + [Requirement(kind, domain, bytes, layout)])
                   else m.(valid := false)
  {
    var rounded := AlignUp(bytes, PAGE);
    if rounded.None? {
      return m.(valid := false);
    }
    out := m.(allocations := m.allocations + [Gsp.Allocation(kind, domain, bytes, rounded.value, PAGE, layout != NoDma, layout)]);
  }

  const NO_QUEUES := QueueMemoryLayout(0, 0, 0, 0, 0, 0, 0, 0, 0)
  const NO_RADIX3 := Radix3Layout([0, 0, 0, 0], [0, 0, 0, 0], 0, 0, 0, 0)
  const NO_WPR := WprLayout(0, 0, 0, 0, 0, 0, 0, 0, 0, 0, 0, 0, 0, 0, 0, 0)

  method PlanBootManifest(i: ManifestInputs) returns (m: BootManifest)
    ensures m.valid <==> ManifestOk(i)
    ensures m.valid ==> m == ManifestOf(i)
    ensures m.inputs == i
  {
    hide AlignedUp, Accepts, LayoutOf, Q.PlanQueueMemory, Radix3.LayoutOf;
    m := BootManifest(false, i, NO_QUEUES, NO_RADIX3, NO_WPR, [], false);
    if i.gspFirmwareImageBytes == 0 || i.gspSignatureBytes == 0 || i.gspBootloaderBytes == 0 || i.frtsFwsecImageBytes == 0
       || i.sec2BooterImageBytes == 0 {
      return;
    }
    var q := Q.PlanQueueMemory(i.queueBytes);
    var r := Radix3.PlanRadix3(i.gspFirmwareImageBytes);
    var w := PlanWprLayout(WprInputs(i));
    if q.None? || r.None? || w.None? {
      return;
    }
    m := BootManifest(true, i, q.value, r.value, w.value, [], true);
    m := AddAlloc(m, QueueBacking, System, q.value.totalBytes, PageList);
    m := AddAlloc(m, CachedArguments, System, Q.CACHED_ARGUMENTS, Linear);
    m := AddAlloc(m, LibosInitArguments, System, M.LIBOS_PAGE, Linear);
    m := AddAlloc(m, WprMetadata, System, M.WPR_META_BYTES, Linear);
    m := AddAlloc(m, Radix3Firmware, System, r.value.allocationBytes, PageList);
    m := AddAlloc(m, FirmwareSignature, System, i.gspSignatureBytes, Linear);
    m := AddAlloc(m, GspBootloader, System, i.gspBootloaderBytes, Linear);
    m := AddAlloc(m, FrtsFwsecImage, Framebuffer, i.frtsFwsecImageBytes, NoDma);
    m := AddAlloc(m, Sec2BooterImage, Framebuffer, i.sec2BooterImageBytes, NoDma);
    if ManifestOk(i) {
      TableAllocationsRound(i);
    }
  }

  /** An allocation of a manifest, by its kind: what it holds, rounded to the next page, and how the device reaches it. */
  predicate Allocated(m: BootManifest, a: Gsp.Allocation)
  {
    && a.alignment == 0x1000 && a.allocationBytes % 0x1000 == 0 && a.logicalBytes <= a.allocationBytes < a.logicalBytes + 0x1000
    && (if a.kind in {FrtsFwsecImage, Sec2BooterImage} then a.domain == Framebuffer && !a.requiresDmaMapping && a.dmaLayout == NoDma
        else a.domain == System && a.requiresDmaMapping && a.dmaLayout == if a.kind in {QueueBacking, Radix3Firmware} then PageList else Linear)
    && a.logicalBytes ==
       match a.kind
       case QueueBacking => m.queues.totalBytes
       case CachedArguments => 72
       case LibosInitArguments => 4096
       case WprMetadata => 256
       case Radix3Firmware => m.radix3.allocationBytes
       case FirmwareSignature => m.inputs.gspSignatureBytes
       case GspBootloader => m.inputs.gspBootloaderBytes
       case FrtsFwsecImage => m.inputs.frtsFwsecImageBytes
       case Sec2BooterImage => m.inputs.sec2BooterImageBytes
  }

  /** A planned manifest has exactly one such allocation of each kind. */
  lemma AllocationsRead(i: ManifestInputs)
    requires ManifestOk(i)
    ensures var m, a := ManifestOf(i), ManifestOf(i).allocations;
      && |a| == 9 && (forall k :: 0 <= k < 9 ==> Allocated(m, a[k]))
      && (forall j, k :: 0 <= j < k < 9 ==> a[j].kind != a[k].kind)
  {
    hide Accepts, LayoutOf, Q.PlanQueueMemory, Radix3.LayoutOf, AlignedUp;
    TableAllocationsRound(i);
  }

  // ---- Looking allocations up ----

  predicate Present(allocations: seq<Gsp.Allocation>, kind: AllocationKind)
  {
    exists k :: 0 <= k < |allocations| && allocations[k].kind == kind
  }

  /** The first allocation of a kind. */
  function Find(allocations: seq<Gsp.Allocation>, kind: AllocationKind): (r: Option<Gsp.Allocation>)
    ensures r.Some? <==> Present(allocations, kind)
    ensures r.Some? ==> r.value.kind == kind && r.value in allocations
  {
    if allocations == [] then None
    else if allocations[0].kind == kind then Some(allocations[0])
    else
      assert Present(allocations[1..], kind) ==> Present(allocations, kind) by {
        if Present(allocations[1..], kind) {
          var k :| 0 <= k < |allocations[1..]| && allocations[1..][k].kind == kind;
          assert allocations[k + 1].kind == kind;
        }
      }
      assert Present(allocations, kind) ==> Present(allocations[1..], kind) by {
        if Present(allocations, kind) {
          var k :| 0 <= k < |allocations| && allocations[k].kind == kind;
          assert allocations[1..][k - 1].kind == kind;
        }
      }
      Find(allocations[1..], kind)
  }

  /** Each kind is found in a planned manifest as it was added. */
  lemma PlannedRequirement(i: ManifestInputs, k: nat)
    requires ManifestOk(i) && k < 9
    ensures var a := Allocations(i); Find(a, a[k].kind) == Some(a[k])
  {
    hide ManifestOk;
    var a := Allocations(i);
    FindSkips(a, k);
  }

  lemma {:induction false} FindSkips(a: seq<Gsp.Allocation>, k: nat)
    requires k < |a| && forall j :: 0 <= j < k ==> a[j].kind != a[k].kind
    ensures Find(a, a[k].kind) == Some(a[k])
  {
    if k > 0 { FindSkips(a[1..], k - 1); }
  }

  // ---- Addresses ----

  predicate PageAligned(v: u64) { v % PAGE == 0 }

  predicate AddressesOk(a: ResolvedAddresses)
  {
    && PageAligned(a.queueBacking) && PageAligned(a.cachedArguments) && PageAligned(a.libosInitArguments)
    && PageAligned(a.wprMetadata) && PageAligned(a.radix3FirmwareRoot) && PageAligned(a.firmwareSignature)
    && PageAligned(a.gspBootloader) && PageAligned(a.frtsFwsecImage) && PageAligned(a.sec2BooterImage)
  }

  datatype ResolvedDma = ResolvedDma(
    kind: AllocationKind,
    layout: DmaLayout,
    baseAddress: u64,
    allocationBytes: u64,
    pageAddresses: seq<u64>)

  predicate NeedsDma(r: Gsp.Allocation)
  {
    r.domain == System && r.requiresDmaMapping && r.dmaLayout != NoDma && r.allocationBytes != 0 && r.alignment != 0
  }

  predicate LinearResolves(r: Gsp.Allocation, segs: seq<D.Segment>)
    requires NeedsDma(r)
  {
    D.Covers(segs, r.allocationBytes) && D.Contiguous(segs) && segs[0].address % r.alignment == 0
  }

  predicate PagesResolve(r: Gsp.Allocation, segs: seq<D.Segment>)
    requires NeedsDma(r)
  {
    && D.Expandable(segs, r.allocationBytes, PAGE)
    && D.Pages(segs, r.allocationBytes, PAGE) != []
    && D.Pages(segs, r.allocationBytes, PAGE)[0] % r.alignment == 0
  }

  /** One base address for a linear allocation, a page list for the others. */
  method ResolveSystemDmaAllocation(r: Gsp.Allocation, segs: seq<D.Segment>) returns (out: Option<ResolvedDma>)
    ensures out.Some? <==> NeedsDma(r) && if r.dmaLayout == Linear then LinearResolves(r, segs) else PagesResolve(r, segs)
    ensures out.Some? && r.dmaLayout == Linear ==>
              out.value == ResolvedDma(r.kind, Linear, segs[0].address, r.allocationBytes, [])
    ensures out.Some? && r.dmaLayout == PageList ==>
              var pages := D.Pages(segs, r.allocationBytes, PAGE);
              out.value == ResolvedDma(r.kind, PageList, pages[0], r.allocationBytes, pages)
  {
    hide D.Contiguous, D.And64, D.PagesTo, D.SumTo;
    if r.domain != System || !r.requiresDmaMapping || r.dmaLayout == NoDma || r.allocationBytes == 0 || r.alignment == 0 {
      return None;
    }
    if r.dmaLayout == Linear {
      var linear := D.ResolveLinearDmaRange(segs, r.allocationBytes);
      if linear.status != D.LinearOk || linear.length != r.allocationBytes || linear.address % r.alignment != 0 {
        return None;
      }
      return Some(ResolvedDma(r.kind, Linear, linear.address, r.allocationBytes, []));
    }
    var map_ := D.ExpandDmaSegmentsToPages(segs, r.allocationBytes, PAGE);
    if map_.status != D.MapOk || map_.pages == [] || map_.pages[0] % r.alignment != 0 {
      return None;
    }
    out := Some(ResolvedDma(r.kind, PageList, map_.pages[0], r.allocationBytes, map_.pages));
  }

  // ---- Staging in framebuffer memory ----

  datatype StageImage = StageImage(
    kind: AllocationKind,
    vramOffset: u64,
    logicalBytes: u64,
    allocationBytes: u64,
    pramin: P.StagePlan)

  datatype StagingPlan = StagingPlan(valid: bool, images: seq<StageImage>)

  /** A requirement that is staged through the aperture rather than mapped. */
  predicate Stageable(r: Gsp.Allocation)
  {
    && r.domain == Framebuffer && !r.requiresDmaMapping && r.dmaLayout == NoDma
    && r.logicalBytes != 0 && r.allocationBytes != 0 && r.alignment != 0
  }

  /** The image lies aligned below the reserved region, within reach of the window selector. */
  predicate ImageOk(m: BootManifest, kind: AllocationKind, offset: u64)
  {
    && Find(m.allocations, kind).Some?
    && var r := Find(m.allocations, kind).value;
    && Stageable(r) && offset % r.alignment == 0
    && m.wpr.gspFwRsvdStart <= m.wpr.fbSize
    && offset + r.allocationBytes <= m.wpr.gspFwRsvdStart
    && offset + r.allocationBytes <= P.SELECTABLE
  }

  function ImageOf(m: BootManifest, kind: AllocationKind, offset: u64): StageImage
    requires ImageOk(m, kind, offset)
  {
    var r := Find(m.allocations, kind).value;
    StageImage(kind, offset, r.logicalBytes, r.allocationBytes, P.PlanOf(offset, r.allocationBytes, m.wpr.fbSize))
  }

  method MakeFramebufferStageImage(m: BootManifest, kind: AllocationKind, offset: u64) returns (out: Option<StageImage>)
    ensures out == if ImageOk(m, kind, offset) then Some(ImageOf(m, kind, offset)) else None
  {
    hide P.Split, Find;
    var found := Find(m.allocations, kind);
    if found.None? {
      return None;
    }
    var r := found.value;
    if r.domain != Framebuffer || r.requiresDmaMapping || r.dmaLayout != NoDma || r.logicalBytes == 0
       || r.allocationBytes == 0 || r.alignment == 0 || offset % r.alignment != 0 {
      return None;
    }
    if m.wpr.fbSize == 0 || m.wpr.gspFwRsvdStart > m.wpr.fbSize || offset >= m.wpr.fbSize
       || r.allocationBytes > m.wpr.fbSize - offset {
      return None;
    }
    var end := offset + r.allocationBytes;
    if end > m.wpr.gspFwRsvdStart {
      return None;
    }
    var pramin := P.PlanPraminStage(offset, r.allocationBytes, m.wpr.fbSize);
    if !pramin.valid {
      return None;
    }
    out := Some(StageImage(kind, offset, r.logicalBytes, r.allocationBytes, pramin));
  }

  predicate Overlap(aStart: nat, aBytes: nat, bStart: nat, bBytes: nat)
  {
    aStart < bStart + bBytes && bStart < aStart + aBytes
  }

  predicate StagingOk(m: BootManifest, a: ResolvedAddresses)
  {
    && m.valid && AddressesOk(a)
    && ImageOk(m, FrtsFwsecImage, a.frtsFwsecImage) && ImageOk(m, Sec2BooterImage, a.sec2BooterImage)
    && var f, s := ImageOf(m, FrtsFwsecImage, a.frtsFwsecImage), ImageOf(m, Sec2BooterImage, a.sec2BooterImage);
       !Overlap(f.vramOffset, f.allocationBytes, s.vramOffset, s.allocationBytes)
  }

  method PlanFramebufferStaging(m: BootManifest, a: ResolvedAddresses) returns (out: StagingPlan)
    ensures out.valid <==> StagingOk(m, a)
    ensures out.images == if StagingOk(m, a)
                          then [ImageOf(m, FrtsFwsecImage, a.frtsFwsecImage), ImageOf(m, Sec2BooterImage, a.sec2BooterImage)]
                          else []
  {
    hide ImageOk, ImageOf;
    out := StagingPlan(false, []);
    if !m.valid || !AddressesOk(a) {
      return;
    }
    var frts := MakeFramebufferStageImage(m, FrtsFwsecImage, a.frtsFwsecImage);
    if frts.None? {
      return;
    }
    var sec2 := MakeFramebufferStageImage(m, Sec2BooterImage, a.sec2BooterImage);
    if sec2.None? {
      return;
    }
    if Overlap(frts.value.vramOffset, frts.value.allocationBytes, sec2.value.vramOffset, sec2.value.allocationBytes) {
      return;
    }
    out := StagingPlan(true, [frts.value, sec2.value]);
  }

  datatype StageArtifact = StageArtifact(image: StageImage, bytes: seq<byte>)

  predicate ArtifactOk(i: StageImage, firmware: seq<byte>)
  {
    && i.logicalBytes != 0 && i.allocationBytes != 0 && i.logicalBytes <= i.allocationBytes
    && |firmware| == i.logicalBytes
    && i.pramin.valid && i.pramin.vramOffset == i.vramOffset && i.pramin.totalBytes == i.allocationBytes
    && i.vramOffset < i.pramin.vramSize && i.allocationBytes <= i.pramin.vramSize - i.vramOffset
    && i.vramOffset % PAGE == 0 && i.allocationBytes % PAGE == 0
  }

  /** The bytes to stage: the firmware, zero padded to its allocation. */
  method BuildFramebufferStageArtifact(i: StageImage, firmware: seq<byte>) returns (out: Option<StageArtifact>)
    ensures out.Some? <==> ArtifactOk(i, firmware)
    ensures out.Some? ==> out.value == StageArtifact(i, firmware + Zeros(i.allocationBytes - i.logicalBytes))
  {
    hide Zeros;
    if i.logicalBytes == 0 || i.allocationBytes == 0 || i.logicalBytes > i.allocationBytes || |firmware| != i.logicalBytes
       || !i.pramin.valid || i.pramin.vramOffset != i.vramOffset || i.pramin.totalBytes != i.allocationBytes
       || i.pramin.vramSize == 0 || i.vramOffset >= i.pramin.vramSize
       || i.allocationBytes > i.pramin.vramSize - i.vramOffset
       || i.vramOffset % PAGE != 0 || i.allocationBytes % PAGE != 0 || i.allocationBytes % 4 != 0 {
      return None;
    }
    var bytes := Padded(firmware, i.allocationBytes);
    var clean := ZeroFrom(bytes, i.logicalBytes);
    if !clean {
      return None;
    }
    out := Some(StageArtifact(i, bytes));
  }

  method Padded(firmware: seq<byte>, total: nat) returns (bytes: seq<byte>)
    requires |firmware| <= total
    ensures bytes == firmware + Zeros(total - |firmware|)
    ensures forall k :: |firmware| <= k < total ==> bytes[k] == 0
  {
    var buffer := new byte[total](_ => 0);
    Radix3.AllZero(buffer[..]);
    SpliceZeros([], total, firmware);
    CopyInto(buffer, 0, firmware);
    assert [] + firmware == firmware;
    bytes := buffer[..];
  }

  method ZeroFrom(bytes: seq<byte>, from: nat) returns (clean: bool)
    requires from <= |bytes|
    ensures clean <==> forall k :: from <= k < |bytes| ==> bytes[k] == 0
  {
    for k := from to |bytes|
      invariant forall j :: from <= j < k ==> bytes[j] == 0
    {
      if bytes[k] != 0 {
        return false;
      }
    }
    clean := true;
  }

  /** Every image of an accepted plan can be built from a firmware of its size, and its staging plan
      passes every check the transaction makes before it writes. */
  lemma StagedImagesAreBuildable(m: BootManifest, kind: AllocationKind, offset: u64, firmware: seq<byte>)
    requires ManifestOk(m.inputs) && m == ManifestOf(m.inputs) && kind in {FrtsFwsecImage, Sec2BooterImage}
    requires ImageOk(m, kind, offset) && |firmware| == ImageOf(m, kind, offset).logicalBytes
    ensures ArtifactOk(ImageOf(m, kind, offset), firmware)
    ensures P.Executable(ImageOf(m, kind, offset).pramin)
  {
    hide P.PlanOf, P.Executable, Allocations, ManifestOk, Find, AlignedUp, LayoutOf;
    FramebufferRequirement(m.inputs, kind);
    var r := Find(m.allocations, kind).value;
    StagedPlan(offset, r.allocationBytes, m.wpr.fbSize);
  }

  lemma StagedPlan(offset: u64, bytes: u64, vramSize: u64)
    requires bytes > 0 && offset + bytes <= vramSize && offset + bytes <= P.SELECTABLE
    requires offset % PAGE == 0 && bytes % PAGE == 0
    ensures var s := P.PlanOf(offset, bytes, vramSize);
      P.Executable(s) && s.valid && s.vramOffset == offset && s.totalBytes == bytes && s.vramSize == vramSize
  {
    PageIsWords(offset);
    PageIsWords(bytes);
    hide P.Executable, P.Split, P.Tiles;
    P.PlannedIsExecutable(offset, bytes, vramSize);
  }

  lemma PageIsWords(v: nat)
    requires v % PAGE == 0
    ensures v % 4 == 0
  {
    assert v == v / 0x1000 * 0x400 * 4;
  }

  lemma FramebufferRequirement(i: ManifestInputs, kind: AllocationKind)
    requires ManifestOk(i) && kind in {FrtsFwsecImage, Sec2BooterImage}
    ensures Find(Allocations(i), kind).Some?
    ensures var r, bytes := Find(Allocations(i), kind).value, if kind == FrtsFwsecImage then i.frtsFwsecImageBytes else i.sec2BooterImageBytes;
      && Stageable(r) && r.logicalBytes == bytes && r.allocationBytes == AlignedUp(bytes, PAGE) && r.alignment == PAGE
  {
    hide Find;
    PlannedRequirement(i, 7);
    PlannedRequirement(i, 8);
  }
}
