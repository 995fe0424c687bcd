/** When a prototype profile can be prepared, and that FRTS then has one place. */
module Placement {
  import opened Words
  import opened Wrappers
  import opened Arith
  import opened Gsp
  import opened Wpr
  import opened Manifest
  import opened Prototype
  import opened Prepare
  import P = Package
  import V = PackageParse
  import Q = QueueMemory
  import M = Metadata
  import Radix3
  import Bytes
  import Frts

  /** A requirement of a planned manifest, as the preparation finds it. */
  lemma PlannedBuffer(i: ManifestInputs, k: nat)
    requires ManifestOk(i) && k < 7
    ensures var a := Allocations(i)[k];
      && Find(Allocations(i), a.kind) == Some(a)
      && a.domain == System && a.requiresDmaMapping && a.logicalBytes != 0 && a.allocationBytes != 0
      && a.allocationBytes == AlignedUp(a.logicalBytes, PAGE) && a.allocationBytes % PAGE == 0
  {
    hide Accepts, Q.PlanQueueMemory, Radix3.LayoutOf, AlignedUp;
    PlannedRequirement(i, k);
    Q.QueueLayoutShape(i.queueBytes);
    SmallImage(i.gspFirmwareImageBytes);
  }

  lemma BuffersPlanned(i: ManifestInputs)
    requires ManifestOk(i)
    ensures BuffersOk(ManifestOf(i))
    ensures ReusedOk(ManifestOf(i), FirmwareSignature) && ReusedOk(ManifestOf(i), GspBootloader)
  {
    hide ManifestOk, Find, Requirement;
    forall k | 0 <= k < 5 ensures BufferOk(ManifestOf(i), k) { BufferPlanned(i, k); }
    PlannedBuffer(i, 5);
    PlannedBuffer(i, 6);
    ReusedKinds(i);
  }

  lemma ReusedKinds(i: ManifestInputs)
    requires ManifestOk(i)
    ensures Allocations(i)[5].kind == FirmwareSignature && Allocations(i)[6].kind == GspBootloader
    ensures Allocations(i)[5].dmaLayout == Linear && Allocations(i)[6].dmaLayout == Linear
  {
  }

  lemma KindsInOrder(i: ManifestInputs, k: nat)
    requires ManifestOk(i) && k < 5
    ensures Allocations(i)[k].kind == ManifestKind(k).0 && Allocations(i)[k].dmaLayout == ManifestKind(k).2
  {
  }

  lemma BufferPlanned(i: ManifestInputs, k: nat)
    requires ManifestOk(i) && k < 5
    ensures BufferOk(ManifestOf(i), k)
    ensures Find(ManifestOf(i).allocations, ManifestKind(k).0) == Some(Allocations(i)[k])
  {
    hide ManifestOk, Find, Allocations;
    PlannedBuffer(i, k);
    KindsInOrder(i, k);
  }

  /** A bound on the generated buffers, buffer by buffer. */
  lemma {:induction false} GeneratedBound(m: BootManifest, k: nat, limit: nat)
    requires BuffersOk(m) && k <= GENERATED && LOG_REGION <= limit
    requires forall i :: 0 <= i < 5 ==> BufferOk(m, i) && BufferFor(m, ManifestKind(i).0, ManifestKind(i).1).allocationBytes <= limit
    ensures GeneratedBytes(m, k) <= k * limit
  {
    hide BufferFor, GeneratedTo, GeneratedBytes, ManifestBuffer;
    if k == 0 {
      NoneGenerated(m);
    } else {
      GeneratedBound(m, k - 1, limit);
      if k <= 5 {
        assert BufferOk(m, k - 1);
        FoundBuffer(m, k - 1);
        GeneratedStep(m, k - 1, GeneratedTo(m, k - 1), BufferFor(m, ManifestKind(k - 1).0, ManifestKind(k - 1).1));
      } else {
        GeneratedStep(m, k - 1, GeneratedTo(m, k - 1), LogBuffer(LogKind(k - 6)));
      }
      Distributes(k - 1, 1, limit);
    }
  }

  lemma FoundBuffer(m: BootManifest, i: nat)
    requires i < 5 && BufferOk(m, i)
    ensures Find(m.allocations, ManifestKind(i).0).Some?
  {
  }

  const BUFFER_LIMIT: u64 := 0x200_0000_0000

  /** With the default queues every generated buffer of a profile is far below 64 bits. */
  lemma BufferLimit(i: ManifestInputs, k: nat)
    requires ManifestOk(i) && k < 5 && i.queueBytes == Q.DEFAULT_QUEUE_BYTES
    ensures Allocations(i)[k].allocationBytes <= BUFFER_LIMIT
  {
    hide Accepts, Q.PlanQueueMemory, Radix3.LayoutOf, AlignedUp;
    Q.DefaultQueueCounts();
    SmallImage(i.gspFirmwareImageBytes);
    TableAllocationsRound(i);
    var r := Radix3.LayoutOf(i.gspFirmwareImageBytes).allocationBytes;
    RoundsBelow(r);
    RoundsBelow(0x8_1000);
    RoundsBelow(Q.CACHED_ARGUMENTS);
    RoundsBelow(M.LIBOS_PAGE);
    RoundsBelow(M.WPR_META_BYTES);
  }

  lemma RoundsBelow(v: nat)
    requires v <= 0x100_0000_0000
    ensures AlignedUp(v, PAGE) <= BUFFER_LIMIT
  {
  }

  lemma PlannedSize(i: ManifestInputs, k: nat)
    requires ManifestOk(i) && k < 5 && i.queueBytes == Q.DEFAULT_QUEUE_BYTES
    ensures BufferOk(ManifestOf(i), k) && Find(ManifestOf(i).allocations, ManifestKind(k).0).Some?
    ensures BufferFor(ManifestOf(i), ManifestKind(k).0, ManifestKind(k).1).allocationBytes <= BUFFER_LIMIT
  {
    hide ManifestOk, Allocations, Find, ManifestBuffer, ManifestKind;
    BufferPlanned(i, k);
    BufferLimit(i, k);
  }

  lemma GeneratedIsPlanned(i: ManifestInputs)
    requires ManifestOk(i) && i.queueBytes == Q.DEFAULT_QUEUE_BYTES
    ensures BuffersOk(ManifestOf(i)) && GeneratedStatus(ManifestOf(i)) == PrepareOk
  {
    hide ManifestOk, ManifestOf, Find, GeneratedTo, GeneratedBytes, BufferOk, BufferFor, ManifestKind;
    var m := ManifestOf(i);
    BuffersPlanned(i);
    forall k | 0 <= k < 5
      ensures BufferOk(m, k) && Find(m.allocations, ManifestKind(k).0).Some?
              && BufferFor(m, ManifestKind(k).0, ManifestKind(k).1).allocationBytes <= BUFFER_LIMIT
    {
      PlannedSize(i, k);
    }
    GeneratedBound(m, 5, BUFFER_LIMIT);
    GeneratedBound(m, GENERATED, BUFFER_LIMIT);
  }

  lemma ScratchSizes(v: V.PackageView, boundary: u64)
    requires StatusOf(v, boundary) == ProfileOk
    ensures var p := ProfileOf(v, boundary);
      && FwsecBytes(p) == AlignedUp(p.manifest.inputs.frtsFwsecImageBytes, PAGE) > 0
      && Sec2Bytes(p) == AlignedUp(p.manifest.inputs.sec2BooterImageBytes, PAGE) > 0
      && (ScratchFits(p) ==> Sec2Offset(p) % PAGE == 0 && FwsecOffset(p) % PAGE == 0)
  {
    hide Allocations, AlignedUp, SectionBytes, Accepts, AlignUpPage;
    PrototypeLayout(v, boundary);
    var p := ProfileOf(v, boundary);
    var reserved: int, sec2: int, fwsec: int := p.manifest.wpr.gspFwRsvdStart, Sec2Bytes(p), FwsecBytes(p);
    MibIsPages(reserved);
    ModSum(sec2, reserved, PAGE);
    ModSum(fwsec, reserved - sec2, PAGE);
  }

  lemma MibIsPages(v: nat)
    requires v % MIB == 0
    ensures v % PAGE == 0
  {
  }

  /** The command's region and the layout's coincide exactly for an unlowered boundary on a whole
      number of 128 KiB. */
  lemma AgreementIsBoundary(v: V.PackageView, boundary: u64)
    requires StatusOf(v, boundary) == ProfileOk && P.VramOk(v.metadata.vramBytes)
    ensures FrtsAgrees(ProfileOf(v, boundary)) <==>
            boundary == v.metadata.vramBytes - VGA_WORKSPACE && v.metadata.vramBytes % KIB128 == 0
  {
    hide Allocations, AlignedUp, SectionBytes, Accepts, LayoutOf;
    PrototypeLayout(v, boundary);
    var vram := v.metadata.vramBytes;
    ModSum(VGA_WORKSPACE, vram, KIB128);
  }

  /** What preparing a prototype profile comes to. A lowered boundary is never prepared: unless the
      scratch images do not even fit, it ends in a placement mismatch. */
  lemma PreparationOutcome(v: V.PackageView, boundary: u64)
    requires StatusOf(v, boundary) == ProfileOk && P.VramOk(v.metadata.vramBytes)
    ensures StatusFor(ProfileOf(v, boundary)) ==
            if !ScratchFits(ProfileOf(v, boundary)) then FramebufferScratchUnderflow
            else if boundary == v.metadata.vramBytes - VGA_WORKSPACE && v.metadata.vramBytes % KIB128 == 0 then PrepareOk
            else FrtsPlacementMismatch
  {
    hide Find, GeneratedStatus, ReusedOk, FrtsAgrees, ScratchFits, Allocations, ManifestOk, LayoutOf;
    var i := InputsOf(v, boundary);
    assert ManifestOk(i);
    GeneratedIsPlanned(i);
    BuffersPlanned(i);
    ScratchSizes(v, boundary);
    AgreementIsBoundary(v, boundary);
  }

  /** Whatever boundary was found live, a profile that can be prepared is the one assumed without any. */
  lemma PreparedIsDefault(v: V.PackageView, boundary: u64)
    requires P.VramOk(v.metadata.vramBytes)
    ensures var p := BuildPrototypeProfile(v, boundary);
      StatusFor(p) == PrepareOk ==> p == BuildPrototypeProfile(v, DefaultBoundary(v)) && p.assumesNoLowerVbiosMmuLock
  {
    hide StatusOf, Find, GeneratedStatus, ReusedOk, FrtsAgrees, ScratchFits, Allocations, ManifestOf, LayoutOf;
    if StatusOf(v, boundary) == ProfileOk {
      PreparationOutcome(v, boundary);
    }
  }

  /** In a prepared profile the FWSEC command, the WPR layout and the scratch plan hold one FRTS region,
      and the scratch images lie below everything the layout reserves. */
  lemma OneFrtsRegion(p: Profile)
    requires StatusFor(p) == PrepareOk
    ensures var plan, w := PlanFor(p).framebuffer, p.manifest.wpr;
      && Frts.RegionExists(p.manifest.inputs.fbSize)
      && var c := Frts.CommandFor(p.manifest.inputs.fbSize);
      && |c.bytes| == Frts.COMMAND_BYTES
      && Bytes.Load(c.bytes, 32, 4) * 0x1000 == c.regionOffsetBytes == w.frtsOffset == plan.frtsRegionOffset
      && Bytes.Load(c.bytes, 36, 4) * 0x1000 == w.frtsSize == plan.frtsRegionBytes
      && plan.frtsFwsecOffset + plan.frtsFwsecBytes == plan.sec2BooterOffset
      && plan.sec2BooterOffset + plan.sec2BooterBytes == w.gspFwRsvdStart
  {
    hide Find, GeneratedStatus, Generated, GeneratedBytes, AlignUpPage, Frts.CommandFor;
    Frts.CommandNamesRegion(p.manifest.inputs.fbSize);
    CommandBytes(p.manifest.inputs.fbSize);
  }

  lemma CommandBytes(vramBytes: u64)
    requires Frts.RegionExists(vramBytes)
    ensures |Frts.CommandFor(vramBytes).bytes| == Frts.COMMAND_BYTES
  {
    Frts.CommandNamesRegion(vramBytes);
  }

  /** A generated buffer of a prepared profile, by its kind: its size, its whole pages, and whether they must be
      consecutive. */
  predicate Requires(m: BootManifest, r: GeneratedRequirement)
  {
    && r.pageCount * 0x1000 == r.allocationBytes && r.logicalBytes <= r.allocationBytes < r.logicalBytes + 0x1000
    && r.linear == (r.kind !in {GeneratedQueue, GeneratedRadix3})
    && r.logicalBytes ==
       match r.kind
       case GeneratedQueue => m.queues.totalBytes
       case GeneratedCachedArguments => 72
       case GeneratedLibosInit => 4096
       case GeneratedWprMetadata => 256
       case GeneratedRadix3 => m.radix3.allocationBytes
       case _ => 0x1_0000
  }

  lemma {:induction false} GeneratedReads(i: ManifestInputs, k: nat, j: nat)
    requires ManifestOk(i) && BuffersOk(ManifestOf(i)) && j < k <= GENERATED
    ensures Requires(ManifestOf(i), GeneratedTo(ManifestOf(i), k)[j])
    decreases k
  {
    hide ManifestOk, Find, ManifestOf, Requires, ManifestBuffer, BufferFor;
    if j < k - 1 {
      GeneratedReads(i, k - 1, j);
    } else if k <= 5 {
      assert BufferOk(ManifestOf(i), k - 1);
      FoundBuffer(ManifestOf(i), k - 1);
      BufferReads(i, k - 1);
    } else {
      LogReads(i, k - 6);
    }
  }

  lemma BufferReads(i: ManifestInputs, k: nat)
    requires ManifestOk(i) && k < 5 && Find(ManifestOf(i).allocations, ManifestKind(k).0).Some?
    ensures Requires(ManifestOf(i), BufferFor(ManifestOf(i), ManifestKind(k).0, ManifestKind(k).1))
  {
    hide ManifestOk, Find, Allocations;
    BufferPlanned(i, k);
    KindsInOrder(i, k);
    AllocationsRead(i);
    assert Allocated(ManifestOf(i), ManifestOf(i).allocations[k]);
  }

  lemma LogReads(i: ManifestInputs, k: nat)
    requires ManifestOk(i) && k < 5
    ensures Requires(ManifestOf(i), LogBuffer(LogKind(k)))
  {
    hide ManifestOk;
  }

  /** The ten buffers a prepared profile asks for. */
  lemma PreparationReads(v: V.PackageView, boundary: u64, j: nat)
    requires StatusOf(v, boundary) == ProfileOk && StatusFor(ProfileOf(v, boundary)) == PrepareOk && j < GENERATED
    ensures |PlanFor(ProfileOf(v, boundary)).generated| == GENERATED
    ensures Requires(ProfileOf(v, boundary).manifest, PlanFor(ProfileOf(v, boundary)).generated[j])
  {
    hide ManifestOk, Find, Requires, GeneratedTo, GeneratedBytes, ReusedOk, FrtsAgrees;
    GeneratedReads(InputsOf(v, boundary), GENERATED, j);
  }
}
