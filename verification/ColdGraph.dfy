/** The cold address graph agrees with itself: what is prepared and resolved is exactly what the artifact
    builders and the staging planner accept. */
module ColdGraph {
  import opened Words
  import opened Gsp
  import opened Wpr
  import opened Manifest
  import opened Prototype
  import opened Prepare
  import opened Resolve
  import opened Artifacts
  import opened Placement
  import V = PackageParse
  import Q = QueueMemory
  import M = Metadata
  import B = Bootstrap
  import Radix3
  import Pk = Package
  import PackageLaws
  import L = FalconPlan
  import Policy = BootSequencePolicy
  import SequencePlan

  /** A profile, its preparation and a resolution that all succeeded. */
  predicate Resolved(v: V.PackageView, boundary: u64, staged: StagedSummary, vs: seq<GeneratedView>)
  {
    && StatusOf(v, boundary) == ProfileOk
    && StatusFor(ProfileOf(v, boundary)) == PrepareOk
    && ResolveStatusOf(ProfileOf(v, boundary), PlanFor(ProfileOf(v, boundary)), staged, vs) == ResolveOk
  }

  /** Generated buffer `k` of a plan is the manifest's. */
  lemma GeneratedAt(i: ManifestInputs, k: nat)
    requires ManifestOk(i) && k < 5 && BuffersOk(ManifestOf(i))
    ensures Generated(ManifestOf(i))[k].allocationBytes == Allocations(i)[k].allocationBytes
    ensures Generated(ManifestOf(i))[k].pageCount == Allocations(i)[k].allocationBytes / PAGE
  {
    hide ManifestOk, Find, Allocations;
    BufferPlanned(i, k);
    GeneratedIndex(ManifestOf(i), GENERATED, k);
  }

  lemma {:induction false} GeneratedIndex(m: BootManifest, k: nat, j: nat)
    requires BuffersOk(m) && j < 5 && j < k <= GENERATED && BufferOk(m, j)
    ensures GeneratedTo(m, k)[j] == BufferFor(m, ManifestKind(j).0, ManifestKind(j).1)
  {
    hide BufferFor, ManifestBuffer, ManifestKind;
    if j < k - 1 { GeneratedIndex(m, k - 1, j); }
  }

  /** The queue's pages are the table's entries, and the tree's pages its allocation's. */
  lemma PageCountsAgree(i: ManifestInputs)
    requires ManifestOk(i) && i.queueBytes == Q.DEFAULT_QUEUE_BYTES
    ensures Allocations(i)[0].allocationBytes / PAGE == ManifestOf(i).queues.pageTableEntryCount
    ensures Allocations(i)[4].allocationBytes / PAGE == ManifestOf(i).radix3.allocationPages
  {
    hide Accepts, Q.PlanQueueMemory, Radix3.LayoutOf, AlignedUp;
    Q.DefaultQueueCounts();
    TableAllocationsRound(i);
    var r := Radix3.LayoutOf(i.gspFirmwareImageBytes);
    AlignedPages(0x8_1000);
    AlignedPages(r.allocationBytes);
    TreePages(i.gspFirmwareImageBytes);
  }

  lemma AlignedPages(v: u64)
    ensures AlignedUp(v, PAGE) / PAGE == v / PAGE + (if v % PAGE != 0 then 1 else 0)
  {
  }

  lemma TreePages(imageBytes: u64)
    requires 1 <= imageBytes <= Radix3.MAX_IMAGE
    ensures var r := Radix3.LayoutOf(imageBytes);
      r.allocationPages == r.allocationBytes / PAGE + if r.allocationBytes % PAGE != 0 then 1 else 0
  {
    Radix3.RootCapacity(imageBytes);
    var tables := 1 + Radix3.MiddlePages(imageBytes) + Radix3.InnerPages(imageBytes);
    Radix3.AllocationSplit(imageBytes, tables);
  }

  /** Every resolved buffer has exactly the pages its requirement counts, none zero, all aligned. */
  lemma ViewsHavePages(v: V.PackageView, boundary: u64, staged: StagedSummary, vs: seq<GeneratedView>, k: nat)
    requires Resolved(v, boundary, staged, vs) && k < GENERATED
    ensures |vs| == GENERATED && ValidPages(vs[k].pages)
    ensures |vs[k].pages| == PlanFor(ProfileOf(v, boundary)).generated[k].pageCount
  {
    hide ProfileOf, GeneratedTo, ViewStatus, StatusOf, StatusFor;
    var plan := PlanFor(ProfileOf(v, boundary));
    assert ViewsStatus(plan.generated, vs, 0) == ResolveOk;
    HasPages(plan.generated[k], vs[k]);
  }

  lemma GraphShape(v: V.PackageView, boundary: u64, staged: StagedSummary, vs: seq<GeneratedView>)
    requires Resolved(v, boundary, staged, vs)
    ensures |vs| == GENERATED && (forall k :: 0 <= k < GENERATED ==> vs[k].pages != [])
    ensures var i := InputsOf(v, boundary);
      && ManifestOk(i) && ProfileOf(v, boundary).manifest == ManifestOf(i) && BuffersOk(ManifestOf(i))
      && i.queueBytes == Q.DEFAULT_QUEUE_BYTES
      && |vs[0].pages| == ManifestOf(i).queues.pageTableEntryCount
      && |vs[4].pages| == ManifestOf(i).radix3.allocationPages
  {
    hide ManifestOk, Allocations, ValidPages, Generated, ViewsStatus, Find, BuffersOk;
    var i := InputsOf(v, boundary);
    assert ManifestOk(i);
    ViewsHavePages(v, boundary, staged, vs, 0);
    ViewsHavePages(v, boundary, staged, vs, 4);
    forall k | 0 <= k < GENERATED ensures vs[k].pages != [] {
      ViewsHavePages(v, boundary, staged, vs, k);
      NotEmptyPages(vs[k].pages);
    }
    BuffersPlanned(i);
    GeneratedAt(i, 0);
    GeneratedAt(i, 4);
    PageCountsAgree(i);
  }

  lemma NotEmptyPages(pages: seq<u64>)
    requires ValidPages(pages)
    ensures pages != [] && pages[0] % PAGE == 0 && forall k :: 0 <= k < |pages| ==> pages[k] % PAGE == 0
  {
  }

  lemma EntriesFound(v: V.PackageView, boundary: u64, staged: StagedSummary, vs: seq<GeneratedView>)
    requires Resolved(v, boundary, staged, vs)
    ensures var s, b := FindEntry(staged.entries, FirmwareSignature, 0), FindEntry(staged.entries, GspBootloader, 0);
      s.Some? && b.Some? && s.value.baseAddress % PAGE == 0 && b.value.baseAddress % PAGE == 0
  {
    hide StatusOf, StatusFor, PlanFor, ProfileOf, ViewsStatus;
  }

  function Graph(v: V.PackageView, boundary: u64, staged: StagedSummary, vs: seq<GeneratedView>): ResolvedAddresses
    requires Resolved(v, boundary, staged, vs)
  {
    GraphShape(v, boundary, staged, vs);
    EntriesFound(v, boundary, staged, vs);
    AddressesOf(PlanFor(ProfileOf(v, boundary)), staged, vs)
  }

  /** All nine addresses are page aligned. */
  lemma GraphAligned(v: V.PackageView, boundary: u64, staged: StagedSummary, vs: seq<GeneratedView>)
    requires Resolved(v, boundary, staged, vs)
    ensures AddressesOk(Graph(v, boundary, staged, vs))
  {
    hide ProfileOf, StatusOf, ViewsStatus, Generated, GeneratedBytes, Find, FindEntry, FwsecOffset, Sec2Offset, FrtsAgrees,
         GeneratedStatus, ReusedOk, ValidPages, ScratchFits, FwsecBytes, Sec2Bytes;
    GraphShape(v, boundary, staged, vs);
    EntriesFound(v, boundary, staged, vs);
    forall k | 0 <= k < 5 ensures vs[k].pages[0] % PAGE == 0 {
      ViewsHavePages(v, boundary, staged, vs, k);
      NotEmptyPages(vs[k].pages);
    }
  }

  lemma QueueAccepted(i: ManifestInputs, pages: seq<u64>)
    requires ManifestOk(i) && i.queueBytes == Q.DEFAULT_QUEUE_BYTES
    requires pages != [] && (forall k :: 0 <= k < |pages| ==> pages[k] % PAGE == 0)
    requires |pages| == ManifestOf(i).queues.pageTableEntryCount
    ensures B.SharedBuildable(ManifestOf(i).queues, pages, B.DefaultRegistry())
  {
    hide Accepts, Q.PlanQueueMemory, Radix3.LayoutOf, Allocations, B.QueueBuildable;
    Q.QueueLayoutShape(i.queueBytes);
    B.DefaultRegistryFits(i.queueBytes);
  }

  lemma TreeAccepted(i: ManifestInputs, pages: seq<u64>)
    requires ManifestOk(i) && (forall k :: 0 <= k < |pages| ==> pages[k] % PAGE == 0)
    requires |pages| == ManifestOf(i).radix3.allocationPages
    ensures Radix3.Planned(ManifestOf(i).radix3, pages)
    ensures ManifestOf(i).radix3.imageBytes == i.gspFirmwareImageBytes
  {
    hide Accepts, Q.PlanQueueMemory, Radix3.LayoutOf, Allocations;
    ImageKept(i.gspFirmwareImageBytes);
  }

  lemma ImageKept(imageBytes: u64)
    requires 1 <= imageBytes <= Radix3.MAX_IMAGE
    ensures Radix3.LayoutOf(imageBytes).imageBytes == imageBytes
  {
  }

  /** When profile, preparation and resolution succeed, the artifact builders never fail with the default
      registry and a firmware of the manifest's size. */
  lemma ArtifactsAlwaysBuild(v: V.PackageView, boundary: u64, staged: StagedSummary, vs: seq<GeneratedView>, firmware: seq<byte>)
    requires Resolved(v, boundary, staged, vs)
    requires |firmware| == InputsOf(v, boundary).gspFirmwareImageBytes
    ensures |vs| == GENERATED && (forall k :: 0 <= k < GENERATED ==> vs[k].pages != [])
    ensures Artifacts.Planned(ProfileOf(v, boundary).manifest)
    ensures ArtifactsOk(ProfileOf(v, boundary).manifest, Graph(v, boundary, staged, vs), ProfileOf(v, boundary).bootloader,
                        vs[0].pages, vs[4].pages, firmware, RegionsFor(LogBases(vs), Base(vs, 1)), B.DefaultRegistry())
  {
    hide ManifestOk, Allocations, ValidPages, ViewsStatus, Find, BuffersOk, StatusFor, B.SharedBuildable,
         Radix3.Planned, M.PageBuildable, AddressesOk, ResolveStatusOf, FindEntry, LayoutOf, Radix3.LayoutOf;
    var i := InputsOf(v, boundary);
    GraphShape(v, boundary, staged, vs);
    GraphAligned(v, boundary, staged, vs);
    ViewsHavePages(v, boundary, staged, vs, 0);
    ViewsHavePages(v, boundary, staged, vs, 4);
    NotEmptyPages(vs[0].pages);
    NotEmptyPages(vs[4].pages);
    QueueAccepted(i, vs[0].pages);
    TreeAccepted(i, vs[4].pages);
    RegionsBuildable(LogBases(vs), Base(vs, 1));
  }

  /** And the staging planner accepts the scratch placements. */
  lemma StagingAlwaysPlans(v: V.PackageView, boundary: u64, staged: StagedSummary, vs: seq<GeneratedView>)
    requires Resolved(v, boundary, staged, vs)
    ensures StagingOk(ProfileOf(v, boundary).manifest, Graph(v, boundary, staged, vs))
  {
    hide ManifestOk, Allocations, ViewsStatus, Find, BuffersOk, AddressesOk, FindEntry, GeneratedStatus, ReusedOk, AlignedUp,
         AlignUpPage, LayoutOf, Stageable;
    var p := ProfileOf(v, boundary);
    var i := InputsOf(v, boundary);
    GraphShape(v, boundary, staged, vs);
    GraphAligned(v, boundary, staged, vs);
    ScratchSizes(v, boundary);
    PrototypeLayout(v, boundary);
    FramebufferRequirement(i, FrtsFwsecImage);
    FramebufferRequirement(i, Sec2BooterImage);
  }

  // ---- From the package file to the audited sequence ----

  lemma {:induction false} PresentKindHasBytes(rs: seq<Pk.SectionRecord>, kind: Pk.SectionKind, k: nat, i: nat)
    requires k <= i < |rs| && rs[i].kind == kind && forall j :: 0 <= j < |rs| ==> rs[j].size != 0
    ensures SectionBytesFrom(rs, kind, k) != 0
    decreases i - k
  {
    if rs[k].kind != kind { PresentKindHasBytes(rs, kind, k + 1, i); }
  }

  lemma ParsedKindHasBytes(s: seq<byte>, kind: Pk.SectionKind)
    requires V.Verdict(s) == V.ParseOk && |s| <= MAX64
    ensures SectionBytes(V.ParsedView(s), kind) != 0
  {
    hide V.RecordStatus, V.CodeAt, V.OffsetAt, V.SizeAt, V.HashAt, V.Disjoint, V.HashOk, V.MetadataOf, SectionBytesFrom,
         V.HeaderStatus, V.AllDisjoint;
    PackageLaws.ParsedPackageIsSound(s);
    var code := Pk.Code(kind);
    assert PackageLaws.KindPresent(s, code);
    var i :| 0 <= i < Pk.SECTIONS && V.CodeAt(s, i) == code;
    var rs := V.SectionsTo(s, Pk.SECTIONS);
    assert rs[i] == V.SectionAt(s, i) && rs[i].kind == kind by { CodesDecide(rs[i].kind, kind); }
    PresentKindHasBytes(rs, kind, 0, i);
  }

  lemma CodesDecide(a: Pk.SectionKind, b: Pk.SectionKind)
    ensures Pk.Code(a) == Pk.Code(b) ==> a == b
  {
  }

  lemma ParsedTarget(s: seq<byte>)
    requires V.Verdict(s) == V.ParseOk && |s| <= MAX64
    ensures var v := V.ParsedView(s);
      v.status == V.ParseOk && Pk.IsKnown(v.metadata.pci) && Pk.VramOk(v.metadata.vramBytes)
  {
    hide V.MetadataOf, V.SectionsTo, V.HeaderStatus, V.AllDisjoint, V.HashOk, V.TableStatus, Pk.VramOk, Pk.IsKnown;
    PackageLaws.ParsedPackageIsSound(s);
  }

  /** A package that parses is never turned away for its verification, its target or a missing section. */
  lemma ParsedPackageFitsProfile(s: seq<byte>, boundary: u64)
    requires V.Verdict(s) == V.ParseOk && |s| <= MAX64
    ensures StatusOf(V.ParsedView(s), boundary) !in {PackageNotVerified, UnsupportedTarget, MissingSection}
    ensures Pk.VramOk(V.ParsedView(s).metadata.vramBytes)
  {
    ParsedTarget(s);
    hide V.MetadataOf, V.Verdict, V.ParsedView, SectionBytes, ManifestOk, VramLargeEnough, BoundaryOk, SizesFit, MetadataOk,
         Pk.VramOk, Pk.IsKnown, InputsOf;
    ParsedKindHasBytes(s, Pk.FirmwareSection);
    ParsedKindHasBytes(s, Pk.SignatureSection);
    ParsedKindHasBytes(s, Pk.BootloaderSection);
    ParsedKindHasBytes(s, Pk.FwsecSection);
    ParsedKindHasBytes(s, Pk.BooterSection);
  }

  /** Over a resolved graph only the two load plans decide whether the sequence is planned, and only
      their DMA destinations whether it then passes the audit. */
  lemma ColdSequenceIsAudited(v: V.PackageView, boundary: u64, staged: StagedSummary, vs: seq<GeneratedView>, chipId: u32)
    requires Resolved(v, boundary, staged, vs)
    ensures var p, a := ProfileOf(v, boundary), Graph(v, boundary, staged, vs);
      && (SequencePlan.SequenceOk(p.manifest, a, p.bootloader, p.fwsec, p.booter) <==>
          L.LoadValid(SequencePlan.FrtsLoad(a, p.fwsec)) && L.LoadValid(SequencePlan.Sec2Load(a, p.booter)))
      && (SequencePlan.SequenceOk(p.manifest, a, p.bootloader, p.fwsec, p.booter) ==>
            (Policy.SequenceAccepted(p.manifest, SequencePlan.SequenceOf(p.manifest, a, p.bootloader, p.fwsec, p.booter, chipId),
                                     Policy.Expectations(a.libosInitArguments, v.metadata.gspAppVersion))
             <==> SequencePlan.DestinationsFit(p.fwsec, p.booter)))
  {
    hide ManifestOk, ManifestOf, L.LoadValid, Policy.SequenceAccepted, SequencePlan.DestinationsFit, SequencePlan.SequenceOf,
         StatusFor, ResolveStatusOf, AddressesOk, SectionBytesFrom, FindEntry, ValidPages;
    var p, a := ProfileOf(v, boundary), Graph(v, boundary, staged, vs);
    GraphShape(v, boundary, staged, vs);
    GraphAligned(v, boundary, staged, vs);
    ManifestKeeps(InputsOf(v, boundary));
    LibosPageExists(v, boundary, staged, vs);
    if SequencePlan.SequenceOk(p.manifest, a, p.bootloader, p.fwsec, p.booter) {
      SequencePlan.PlannerMeetsAuditor(p.manifest, a, p.bootloader, p.fwsec, p.booter, chipId);
    }
  }

  lemma ManifestKeeps(i: ManifestInputs)
    requires ManifestOk(i)
    ensures ManifestOf(i).valid && ManifestOf(i).inputs == i && Artifacts.Planned(ManifestOf(i))
  {
    hide Allocations, LayoutOf, Radix3.LayoutOf;
  }

  lemma LibosPageExists(v: V.PackageView, boundary: u64, staged: StagedSummary, vs: seq<GeneratedView>)
    requires Resolved(v, boundary, staged, vs)
    ensures Graph(v, boundary, staged, vs).libosInitArguments != 0
  {
    hide StatusOf, StatusFor, ResolveStatusOf, FindEntry, ProfileOf, PlanFor;
    GraphShape(v, boundary, staged, vs);
    ViewsHavePages(v, boundary, staged, vs, 2);
  }
}
