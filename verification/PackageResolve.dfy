/** Resolving a staged package from the page lists of its five allocations, and its reuse in the cold graph. */
module PackageResolve {
  import opened Words
  import opened Wrappers
  import opened Gsp
  import opened Wpr
  import opened Manifest
  import opened Prototype
  import opened Prepare
  import opened PackageDma
  import opened Resolve
  import opened ResolutionLaws
  import P = Package
  import V = PackageParse
  import D = Dma

  /** One section's allocation as the host staged it. */
  datatype StagedView = StagedView(kind: P.SectionKind, linear: bool, logicalBytes: u64, allocationBytes: u64, pages: seq<u64>)

  datatype SummaryStatus =
    | SummaryOk
    | BadPlan
    | WrongSectionCount
    | SectionMismatch
    | BadAllocationSize
    | BadPageCount
    | BadPageAddress
    | LinearLayoutRejected

  function AllocationOf(kind: P.SectionKind): AllocationKind
  {
    match kind
    case FirmwareSection => Radix3Firmware
    case SignatureSection => FirmwareSignature
    case BootloaderSection => GspBootloader
    case FwsecSection => FrtsFwsecImage
    case BooterSection => Sec2BooterImage
  }

  predicate AlignedPages(pages: seq<u64>)
  {
    pages != [] && forall i :: 0 <= i < |pages| ==> pages[i] % PAGE == 0
  }

  function StagedStatus(e: SectionPlan, a: StagedView): SummaryStatus
  {
    if a.kind != e.kind || a.linear != e.linear || a.logicalBytes != e.logicalBytes then SectionMismatch
    else if a.allocationBytes != e.allocationBytes || a.allocationBytes == 0 || a.allocationBytes % PAGE != 0 then BadAllocationSize
    else if e.pageCount == 0 || |a.pages| != e.pageCount then BadPageCount
    else if !AlignedPages(a.pages) then BadPageAddress
    else if e.linear && !D.LinearPages(a.pages, PAGE) then LinearLayoutRejected
    else SummaryOk
  }

  function StagedPagesTo(es: seq<SectionPlan>, k: nat): nat
    requires k <= |es|
  {
    if k == 0 then 0 else StagedPagesTo(es, k - 1) + es[k - 1].pageCount
  }

  /** The first complaint about the sections from `i` on. */
  function StagedFrom(es: seq<SectionPlan>, staged: seq<StagedView>, i: nat): (status: SummaryStatus)
    requires |es| == |staged| && i <= |es|
    ensures status == SummaryOk ==> forall j :: i <= j < |es| ==> StagedStatus(es[j], staged[j]) == SummaryOk
    decreases |es| - i
  {
    if i == |es| then SummaryOk
    else if StagedStatus(es[i], staged[i]) != SummaryOk then StagedStatus(es[i], staged[i])
    else if StagedPagesTo(es, i + 1) > MAX64 then BadPageCount
    else StagedFrom(es, staged, i + 1)
  }

  function StatusOfSummary(plan: PackageStagingPlan, staged: seq<StagedView>): SummaryStatus
    requires plan.status == StagingReady ==> |plan.sections| == P.SECTIONS
  {
    if plan.status != StagingReady then BadPlan
    else if |staged| != P.SECTIONS then WrongSectionCount
    else StagedFrom(plan.sections, staged, 0)
  }

  function EntryFor(e: SectionPlan, a: StagedView): StagedEntry
    requires a.pages != []
  {
    StagedEntry(AllocationOf(e.kind), if e.linear then Linear else PageList, a.pages[0], a.allocationBytes)
  }

  predicate AllPaged(staged: seq<StagedView>) { forall i :: 0 <= i < |staged| ==> staged[i].pages != [] }

  function EntriesFor(es: seq<SectionPlan>, staged: seq<StagedView>): (r: seq<StagedEntry>)
    requires |es| == |staged| && AllPaged(staged)
    ensures |r| == |es|
    ensures forall i :: 0 <= i < |es| ==> r[i] == EntryFor(es[i], staged[i])
  {
    seq(|es|, i requires 0 <= i < |es| => EntryFor(es[i], staged[i]))
  }

  lemma StagedAllPaged(es: seq<SectionPlan>, staged: seq<StagedView>)
    requires |es| == |staged| && StagedFrom(es, staged, 0) == SummaryOk
    ensures AllPaged(staged)
  {
    forall i | 0 <= i < |staged| ensures staged[i].pages != [] {
      assert StagedStatus(es[i], staged[i]) == SummaryOk;
    }
  }

  method CheckStaged(e: SectionPlan, a: StagedView) returns (status: SummaryStatus)
    ensures status == StagedStatus(e, a)
  {
    if a.kind != e.kind || a.linear != e.linear || a.logicalBytes != e.logicalBytes {
      return SectionMismatch;
    }
    if a.allocationBytes != e.allocationBytes || a.allocationBytes == 0 || a.allocationBytes % PAGE != 0 {
      return BadAllocationSize;
    }
    if e.pageCount == 0 || |a.pages| != e.pageCount {
      return BadPageCount;
    }
    for i := 0 to |a.pages|
      invariant forall k :: 0 <= k < i ==> a.pages[k] % PAGE == 0
    {
      if a.pages[i] % PAGE != 0 {
        return BadPageAddress;
      }
    }
    if e.linear {
      var linear := D.IsLinearDmaPageList(a.pages, PAGE);
      if !linear {
        return LinearLayoutRejected;
      }
    }
    status := SummaryOk;
  }

  /** Checks the five staged sections in order and records where each lies. */
  method ResolvePackageDmaSummary(plan: PackageStagingPlan, staged: seq<StagedView>)
    returns (status: SummaryStatus, summary: StagedSummary, totalPages: u64)
    requires plan.status == StagingReady ==> |plan.sections| == P.SECTIONS
    ensures status == StatusOfSummary(plan, staged)
    ensures summary.ok <==> status == SummaryOk
    ensures summary.ok ==>
              && |staged| == P.SECTIONS && AllPaged(staged)
              && summary.entries == EntriesFor(plan.sections, staged)
              && totalPages == StagedPagesTo(plan.sections, P.SECTIONS)
  {
    hide StagedStatus, EntryFor;
    summary, totalPages := StagedSummary(false, []), 0;
    if plan.status != StagingReady {
      return BadPlan, summary, totalPages;
    }
    if |staged| != P.SECTIONS {
      return WrongSectionCount, summary, totalPages;
    }
    var entries := [];
    for i := 0 to P.SECTIONS
      invariant StagedFrom(plan.sections, staged, 0) == StagedFrom(plan.sections, staged, i)
      invariant totalPages == StagedPagesTo(plan.sections, i)
      invariant |entries| == i
      invariant forall k :: 0 <= k < i ==> staged[k].pages != [] && entries[k] == EntryFor(plan.sections[k], staged[k])
    {
      status := CheckStaged(plan.sections[i], staged[i]);
      if status != SummaryOk {
        return;
      }
      if totalPages > MAX64 - plan.sections[i].pageCount {
        return BadPageCount, summary, totalPages;
      }
      HasFirstPage(plan.sections[i], staged[i]);
      entries := entries + [EntryFor(plan.sections[i], staged[i])];
      totalPages := totalPages + plan.sections[i].pageCount;
    }
    status, summary := SummaryOk, StagedSummary(true, entries);
  }

  lemma HasFirstPage(e: SectionPlan, a: StagedView)
    requires StagedStatus(e, a) == SummaryOk
    ensures a.pages != []
  {
  }

  // ---- Reuse in the cold graph ----

  /** The entry the resolver finds for a section kind is the first section of that kind, as it was staged. */
  lemma {:induction false} EntryFound(v: V.PackageView, plan: PackageStagingPlan, staged: seq<StagedView>, kind: P.SectionKind, k: nat)
    requires Stages(plan, v) && |staged| == P.SECTIONS && StagedFrom(plan.sections, staged, 0) == SummaryOk && AllPaged(staged)
    requires k <= P.SECTIONS && SectionBytesFrom(v.sections, kind, k) != 0
    ensures var e := FindEntry(EntriesFor(plan.sections, staged), AllocationOf(kind), k);
      && e.Some? && e.value.allocationBytes == StagedBytes(v.sections, kind, k) && e.value.baseAddress % PAGE == 0
      && (RequiresLinear(kind) ==> e.value.layout == Linear)
    decreases P.SECTIONS - k
  {
    hide AlignedUp, SectionStatus;
    var entries := EntriesFor(plan.sections, staged);
    assert StagedStatus(plan.sections[k], staged[k]) == SummaryOk;
    KindsMapApart(v.sections[k].kind, kind);
    if v.sections[k].kind != kind {
      EntryFound(v, plan, staged, kind, k + 1);
    }
  }

  lemma KindsMapApart(a: P.SectionKind, b: P.SectionKind)
    ensures AllocationOf(a) == AllocationOf(b) <==> a == b
  {
  }

  /** Whatever a package's staging plan and a successful summary of it, a prepared profile of that package can
      reuse the two entries, unless one of them lies at address zero. */
  lemma StagedPackageIsReusable(v: V.PackageView, boundary: u64, plan: PackageStagingPlan, staged: seq<StagedView>)
    requires StatusOf(v, boundary) == ProfileOk && StatusFor(ProfileOf(v, boundary)) == PrepareOk
    requires Stages(plan, v) && StatusOfSummary(plan, staged) == SummaryOk
    ensures |staged| == P.SECTIONS && AllPaged(staged)
    ensures var entries := EntriesFor(plan.sections, staged);
      var signature, bootloader := FindEntry(entries, FirmwareSignature, 0), FindEntry(entries, GspBootloader, 0);
      && signature.Some? && bootloader.Some?
      && (ReuseFits(PlanFor(ProfileOf(v, boundary)), StagedSummary(true, entries)) <==>
          signature.value.baseAddress != 0 && bootloader.value.baseAddress != 0)
  {
    hide ManifestOk, StagedFrom, SectionBytesFrom, StagedBytes, SectionStatus, FindEntry, EntriesFor, PlanFor, StatusFor, ProfileOf;
    StagedAllPaged(plan.sections, staged);
    Sections(v, boundary);
    EntryFound(v, plan, staged, P.SignatureSection, 0);
    EntryFound(v, plan, staged, P.BootloaderSection, 0);
    ReusedSizesAgree(v, boundary);
  }

  /** So over a prepared profile and its staged package, resolution depends on the generated buffers' pages
      alone, apart from a reused allocation at address zero. */
  lemma StagedPackageResolves(v: V.PackageView, boundary: u64, plan: PackageStagingPlan, staged: seq<StagedView>, vs: seq<GeneratedView>)
    requires StatusOf(v, boundary) == ProfileOk && StatusFor(ProfileOf(v, boundary)) == PrepareOk
    requires Stages(plan, v) && StatusOfSummary(plan, staged) == SummaryOk
    ensures |staged| == P.SECTIONS && AllPaged(staged)
    ensures var entries := EntriesFor(plan.sections, staged);
      var signature, bootloader := FindEntry(entries, FirmwareSignature, 0), FindEntry(entries, GspBootloader, 0);
      && signature.Some? && bootloader.Some?
      && var p := ProfileOf(v, boundary);
      ResolveStatusOf(p, PlanFor(p), StagedSummary(true, entries), vs) == ResolveOk <==>
      && |vs| == GENERATED && (forall k :: 0 <= k < GENERATED ==> Fits(PlanFor(p).generated[k], vs[k]))
      && signature.value.baseAddress != 0 && bootloader.value.baseAddress != 0
  {
    hide ManifestOk, StagedFrom, SectionStatus, FindEntry, EntriesFor, PlanFor, StatusFor, ProfileOf, StatusOf, Fits, ResolveStatusOf,
         ReuseFits, AllPaged, StatusOfSummary;
    StagedPackageIsReusable(v, boundary, plan, staged);
    ResolvesExactlyWhenFitting(ProfileOf(v, boundary), StagedSummary(true, EntriesFor(plan.sections, staged)), vs);
  }

  lemma Sections(v: V.PackageView, boundary: u64)
    requires StatusOf(v, boundary) == ProfileOk
    ensures SectionBytesFrom(v.sections, P.SignatureSection, 0) != 0 && SectionBytesFrom(v.sections, P.BootloaderSection, 0) != 0
  {
    hide SectionBytesFrom, ManifestOk;
  }
}
