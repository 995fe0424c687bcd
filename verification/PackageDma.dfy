/** The host allocations a verified package is staged into. */
module PackageDma {
  import opened Words
  import opened Wrappers
  import opened Gsp
  import opened Wpr
  import opened Manifest
  import opened Prototype
  import opened Prepare
  import P = Package
  import V = PackageParse
  import Placement

  datatype StagingStatus =
    | StagingReady
    | UnverifiedPackage
    | MissingOrEmptySection
    | StagingSizeOverflow
    | StagingTotalOverflow

  datatype SectionPlan = SectionPlan(kind: P.SectionKind, linear: bool, logicalBytes: u64, allocationBytes: u64, pageCount: u64)

  datatype PackageStagingPlan = PackageStagingPlan(status: StagingStatus, sections: seq<SectionPlan>, totalLogical: u64, totalAllocation: u64)

  /** Only the signature and the bootloader must be physically linear. */
  predicate RequiresLinear(kind: P.SectionKind) { kind == P.SignatureSection || kind == P.BootloaderSection }

  function SectionStatus(r: P.SectionRecord): StagingStatus
  {
    if r.size == 0 then MissingOrEmptySection
    else if AlignedUp(r.size, PAGE) > MAX64 then StagingSizeOverflow
    else StagingReady
  }

  function PlanOf(r: P.SectionRecord): SectionPlan
    requires SectionStatus(r) == StagingReady
  {
    SectionPlan(r.kind, RequiresLinear(r.kind), r.size, AlignedUp(r.size, PAGE), AlignedUp(r.size, PAGE) / PAGE)
  }

  function LogicalTo(rs: seq<P.SectionRecord>, k: nat): nat
    requires k <= |rs|
  {
    if k == 0 then 0 else LogicalTo(rs, k - 1) + rs[k - 1].size
  }

  function AllocationTo(rs: seq<P.SectionRecord>, k: nat): nat
    requires k <= |rs|
  {
    if k == 0 then 0 else AllocationTo(rs, k - 1) + AlignedUp(rs[k - 1].size, PAGE)
  }

  /** The first complaint about the sections from `i` on. */
  function SectionsStatus(rs: seq<P.SectionRecord>, i: nat): (status: StagingStatus)
    requires i <= |rs|
    ensures status == StagingReady ==> forall j :: i <= j < |rs| ==> SectionStatus(rs[j]) == StagingReady
    decreases |rs| - i
  {
    if i == |rs| then StagingReady
    else if SectionStatus(rs[i]) != StagingReady then SectionStatus(rs[i])
    else if LogicalTo(rs, i + 1) > MAX64 || AllocationTo(rs, i + 1) > MAX64 then StagingTotalOverflow
    else SectionsStatus(rs, i + 1)
  }

  method PlanSection(r: P.SectionRecord) returns (status: StagingStatus, plan: Option<SectionPlan>)
    ensures status == SectionStatus(r)
    ensures status == StagingReady ==>
              plan == Some(PlanOf(r)) && plan.value.logicalBytes == r.size && plan.value.allocationBytes == AlignedUp(r.size, PAGE)
  {
    hide AlignedUp;
    if r.size == 0 {
      return MissingOrEmptySection, None;
    }
    var rounded := AlignUp(r.size, PAGE);
    if rounded.None? || rounded.value == 0 {
      return StagingSizeOverflow, None;
    }
    status, plan := StagingReady, Some(SectionPlan(r.kind, RequiresLinear(r.kind), r.size, rounded.value, rounded.value / PAGE));
  }

  /** A ready plan, section by section that of a view. */
  predicate Stages(plan: PackageStagingPlan, v: V.PackageView)
  {
    && plan.status == StagingReady && |plan.sections| == |v.sections| == P.SECTIONS
    && forall i :: 0 <= i < P.SECTIONS ==>
         SectionStatus(v.sections[i]) == StagingReady && plan.sections[i] == PlanOf(v.sections[i])
  }

  /** A section's plan: its own size rounded to whole pages, consecutive for the signature and the bootloader alone. */
  predicate StagesSection(e: SectionPlan, r: P.SectionRecord)
  {
    && e.kind == r.kind && e.logicalBytes == r.size && e.allocationBytes % 0x1000 == 0
    && r.size <= e.allocationBytes < r.size + 0x1000 && e.pageCount * 0x1000 == e.allocationBytes
    && e.linear == (r.kind in {P.SignatureSection, P.BootloaderSection})
  }

  lemma PlanStages(r: P.SectionRecord)
    requires SectionStatus(r) == StagingReady
    ensures StagesSection(PlanOf(r), r)
  {
    hide AlignedUp;
  }

  /** Gives every section its own page-aligned allocation. */
  method PlanPackageDmaStaging(v: V.PackageView) returns (out: PackageStagingPlan)
    requires v.status == V.ParseOk ==> |v.sections| == P.SECTIONS
    ensures out.status == if v.status != V.ParseOk then UnverifiedPackage else SectionsStatus(v.sections, 0)
    ensures out.status == StagingReady ==>
              && Stages(out, v)
              && out.totalLogical == LogicalTo(v.sections, P.SECTIONS)
              && out.totalAllocation == AllocationTo(v.sections, P.SECTIONS)
              && |out.sections| == 5 && forall i :: 0 <= i < 5 ==> StagesSection(out.sections[i], v.sections[i])
  {
    hide AlignedUp, SectionStatus, PlanOf, StagesSection;
    out := PackageStagingPlan(UnverifiedPackage, [], 0, 0);
    if v.status != V.ParseOk {
      return;
    }
    var logical: u64, allocation: u64 := 0, 0;
    var sections := [];
    for i := 0 to P.SECTIONS
      invariant SectionsStatus(v.sections, 0) == SectionsStatus(v.sections, i)
      invariant |sections| == i
      invariant forall k :: 0 <= k < i ==> SectionStatus(v.sections[k]) == StagingReady && sections[k] == PlanOf(v.sections[k])
      invariant logical == LogicalTo(v.sections, i) && allocation == AllocationTo(v.sections, i)
    {
      var status, plan := PlanSection(v.sections[i]);
      if status != StagingReady {
        return out.(status := status);
      }
      if logical > MAX64 - plan.value.logicalBytes || allocation > MAX64 - plan.value.allocationBytes {
        return out.(status := StagingTotalOverflow);
      }
      logical, allocation := logical + plan.value.logicalBytes, allocation + plan.value.allocationBytes;
      sections := sections + [plan.value];
    }
    forall i | 0 <= i < P.SECTIONS ensures StagesSection(sections[i], v.sections[i]) { PlanStages(v.sections[i]); }
    out := PackageStagingPlan(StagingReady, sections, logical, allocation);
  }

  /** The allocation a section is staged into, found as the resolver finds it. */
  function StagedBytes(rs: seq<P.SectionRecord>, kind: P.SectionKind, k: nat): nat
    requires k <= |rs|
    decreases |rs| - k
  {
    if k == |rs| then 0
    else if rs[k].kind == kind then AlignedUp(rs[k].size, PAGE)
    else StagedBytes(rs, kind, k + 1)
  }

  lemma {:induction false} StagedIsAligned(rs: seq<P.SectionRecord>, kind: P.SectionKind, k: nat)
    requires k <= |rs| && SectionBytesFrom(rs, kind, k) != 0
    ensures StagedBytes(rs, kind, k) == AlignedUp(SectionBytesFrom(rs, kind, k), PAGE)
    decreases |rs| - k
  {
    hide AlignedUp;
    if rs[k].kind != kind { StagedIsAligned(rs, kind, k + 1); }
  }

  /** The signature and bootloader sections are staged with exactly the sizes a preparation plan means to reuse. */
  lemma ReusedSizesAgree(v: V.PackageView, boundary: u64)
    requires StatusOf(v, boundary) == ProfileOk && StatusFor(ProfileOf(v, boundary)) == PrepareOk
    ensures var plan := PlanFor(ProfileOf(v, boundary));
      && plan.reusedSignatureBytes == StagedBytes(v.sections, P.SignatureSection, 0)
      && plan.reusedBootloaderBytes == StagedBytes(v.sections, P.BootloaderSection, 0)
  {
    hide ManifestOk, Find, AlignedUp, SectionBytesFrom, StagedBytes, Generated, GeneratedBytes, GeneratedStatus;
    var i := InputsOf(v, boundary);
    assert ManifestOk(i);
    Placement.PlannedBuffer(i, 5);
    Placement.PlannedBuffer(i, 6);
    Placement.ReusedKinds(i);
    StagedIsAligned(v.sections, P.SignatureSection, 0);
    StagedIsAligned(v.sections, P.BootloaderSection, 0);
    ReusedLogical(i);
  }

  lemma ReusedLogical(i: ManifestInputs)
    requires ManifestOk(i)
    ensures Allocations(i)[5].logicalBytes == i.gspSignatureBytes && Allocations(i)[6].logicalBytes == i.gspBootloaderBytes
  {
  }
}
