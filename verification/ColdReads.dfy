/** The resolved graph and the artifacts built over it, read by number: which page each address is, which bytes of
    the package each parameter is, and what the booter and the firmware find at each offset. */
module ColdReads {
  import opened Words
  import opened Wrappers
  import opened Bytes
  import opened Gsp
  import opened Manifest
  import opened Prototype
  import opened Prepare
  import opened Resolve
  import opened PackageDma
  import opened PackageResolve
  import opened ColdGraph
  import opened Artifacts
  import ResolutionLaws
  import P = Package
  import V = PackageParse
  import M = Metadata
  import B = Bootstrap
  import Radix3

  // ---- Addresses ----

  /** Each generated address is the first page of the buffer of its kind, each reused one where the first staged entry
      of its kind has it, and the scratch images lie where the preparation put them. */
  ghost predicate Names(a: ResolvedAddresses, scratch: ScratchPlan, entries: seq<StagedEntry>, vs: seq<GeneratedView>)
  {
    && |vs| == GENERATED
    && (forall k :: 0 <= k < GENERATED ==> vs[k].pages != [] && RecordedAt(a, vs[k].kind, vs[k].pages[0]))
    && Reuses(entries, a)
    && a.frtsFwsecImage == scratch.frtsFwsecOffset && a.sec2BooterImage == scratch.sec2BooterOffset
  }

  function Scratch(v: V.PackageView, boundary: u64): ScratchPlan
    requires StatusOf(v, boundary) == ProfileOk && StatusFor(ProfileOf(v, boundary)) == PrepareOk
  {
    PlanFor(ProfileOf(v, boundary)).framebuffer
  }

  lemma GraphNames(v: V.PackageView, boundary: u64, staged: StagedSummary, vs: seq<GeneratedView>)
    requires Resolved(v, boundary, staged, vs)
    ensures Names(Graph(v, boundary, staged, vs), Scratch(v, boundary), staged.entries, vs)
  {
    hide ProfileOf, StatusOf, StatusFor, PlanFor, FindEntry, ViewStatus, RecordedAt, Records, Reuses, AddressesTo, ReuseStatus;
    var plan, a := PlanFor(ProfileOf(v, boundary)), Graph(v, boundary, staged, vs);
    GraphShape(v, boundary, staged, vs);
    EntriesFound(v, boundary, staged, vs);
    ResolutionLaws.PlanIsShaped(ProfileOf(v, boundary));
    AllRecorded(plan.generated, vs);
    BasesRecorded(plan.generated, vs, GENERATED);
    ReusedRecorded(plan.generated, vs, GENERATED, AddressesTo(plan.generated, vs, GENERATED), plan, staged);
    forall k | 0 <= k < GENERATED ensures RecordedAt(a, vs[k].kind, vs[k].pages[0]) {
      ViewKinds(v, boundary, staged, vs, k);
      RecordedByKind(plan.generated, vs, a, k);
    }
  }

  lemma ViewKinds(v: V.PackageView, boundary: u64, staged: StagedSummary, vs: seq<GeneratedView>, k: nat)
    requires Resolved(v, boundary, staged, vs) && k < GENERATED
    ensures |vs| == GENERATED && vs[k].kind == KindAt(k) == PlanFor(ProfileOf(v, boundary)).generated[k].kind
  {
    hide ProfileOf, StatusOf, StatusFor, FindEntry, Generated, KindAt, GeneratedBytes, ReuseStatus;
    ResolutionLaws.PlanIsShaped(ProfileOf(v, boundary));
    assert ViewStatus(PlanFor(ProfileOf(v, boundary)).generated[k], vs[k]) == ResolveOk;
  }

  lemma RecordedByKind(rs: seq<GeneratedRequirement>, vs: seq<GeneratedView>, a: ResolvedAddresses, k: nat)
    requires InOrder(rs) && |vs| == GENERATED && HavePages(vs, GENERATED) && Records(rs, vs, GENERATED, a) && k < GENERATED
    ensures RecordedAt(a, rs[k].kind, vs[k].pages[0])
  {
    hide RecordedAt;
    forall j | k < j < GENERATED ensures rs[j].kind != rs[k].kind { KindsDiffer(k, j); }
  }

  lemma KindsDiffer(i: nat, j: nat)
    requires i < j < GENERATED
    ensures Resolve.KindAt(i) != Resolve.KindAt(j)
  {
  }

  /** Section `s` is the first staged one of its kind. */
  predicate FirstStaged(staged: seq<StagedView>, kind: P.SectionKind, s: nat)
  {
    s < |staged| && staged[s].kind == kind && staged[s].pages != [] && forall j :: 0 <= j < s ==> staged[j].kind != kind
  }

  /** A successful summary of a staging plan, as the resolver is given it. */
  predicate Summarized(plan: PackageStagingPlan, v: V.PackageView, staged: seq<StagedView>, summary: StagedSummary)
  {
    && Stages(plan, v) && StatusOfSummary(plan, staged) == SummaryOk && AllPaged(staged)
    && summary == StagedSummary(true, EntriesFor(plan.sections, staged))
  }

  lemma EntryIsStaged(plan: PackageStagingPlan, v: V.PackageView, staged: seq<StagedView>, summary: StagedSummary, kind: P.SectionKind, s: nat)
    requires Summarized(plan, v, staged, summary) && FirstOf(summary.entries, AllocationOf(kind), s)
    ensures FirstStaged(staged, kind, s) && summary.entries[s].baseAddress == staged[s].pages[0]
  {
    hide SectionStatus, AllocationOf, PlanOf;
    forall j | 0 <= j <= s ensures staged[j].kind == plan.sections[j].kind && summary.entries[j].kind == AllocationOf(staged[j].kind) {
      assert StagedStatus(plan.sections[j], staged[j]) == SummaryOk;
      assert summary.entries[j] == EntryFor(plan.sections[j], staged[j]);
    }
    forall j | 0 <= j <= s ensures summary.entries[j].kind == AllocationOf(kind) <==> staged[j].kind == kind { KindsMapApart(staged[j].kind, kind); }
  }

  /** Over a package staged by its plan, the resolved signature and bootloader are the first pages of the staged sections
      of those kinds. */
  lemma StagedAddresses(v: V.PackageView, boundary: u64, plan: PackageStagingPlan, staged: seq<StagedView>, summary: StagedSummary,
                        vs: seq<GeneratedView>)
    returns (s: nat, b: nat)
    requires Summarized(plan, v, staged, summary) && Resolved(v, boundary, summary, vs)
    ensures FirstStaged(staged, P.SignatureSection, s) && FirstStaged(staged, P.BootloaderSection, b)
    ensures var a := Graph(v, boundary, summary, vs);
      && a.firmwareSignature == staged[s].pages[0] && a.gspBootloader == staged[b].pages[0]
      && Names(a, Scratch(v, boundary), summary.entries, vs)
  {
    hide Resolved, Summarized, Scratch, FirstOf;
    GraphNames(v, boundary, summary, vs);
    var entries, a := summary.entries, Graph(v, boundary, summary, vs);
    s, b := ReusedPlaces(entries, a);
    EntryIsStaged(plan, v, staged, summary, P.SignatureSection, s);
    EntryIsStaged(plan, v, staged, summary, P.BootloaderSection, b);
  }

  lemma ReusedPlaces(entries: seq<StagedEntry>, a: ResolvedAddresses) returns (s: nat, b: nat)
    requires Reuses(entries, a)
    ensures FirstOf(entries, FirmwareSignature, s) && a.firmwareSignature == entries[s].baseAddress
    ensures FirstOf(entries, GspBootloader, b) && a.gspBootloader == entries[b].baseAddress
  {
    s :| FirstOf(entries, FirmwareSignature, s) && LiesAt(entries[s], a.firmwareSignature);
    b :| FirstOf(entries, GspBootloader, b) && LiesAt(entries[b], a.gspBootloader);
  }

  // ---- Artifacts ----

  /** The WPR metadata, field by field. */
  ghost predicate WprReads(b: seq<byte>, m: BootManifest, a: ResolvedAddresses, g: Bootloader)
    requires |b| == 256
  {
    && Load(b, 0, 8) == 0xDC3A_AE21_371A_60B3 && Load(b, 8, 8) == 1
    && Load(b, 16, 8) == a.radix3FirmwareRoot && Load(b, 24, 8) == m.wpr.sizeOfRadix3Elf
    && Load(b, 32, 8) == a.gspBootloader && Load(b, 40, 8) == m.wpr.sizeOfBootloader
    && Load(b, 48, 8) == g.monitorCodeOffset && Load(b, 56, 8) == g.monitorDataOffset && Load(b, 64, 8) == g.manifestOffset
    && Load(b, 72, 8) == a.firmwareSignature && Load(b, 80, 8) == m.inputs.gspSignatureBytes
    && M.NamesRegions(b, m.wpr)
    && Load(b, 200, 8) == 0 && Load(b, 248, 8) == 0
    && forall j :: 208 <= j < 248 ==> b[j] == 0
  }

  lemma WprMetaForReads(m: BootManifest, a: ResolvedAddresses, g: Bootloader)
    ensures WprReads(M.WprMeta(WprMetaFor(m, a, g)), m, a, g)
  {
    hide M.WprMeta, M.NamesRegions;
    var b := M.WprMeta(WprMetaFor(m, a, g));
    M.WprMetaReads(WprMetaFor(m, a, g));
    ZeroLoad(b, 240, 1);
    ZeroLoad(b, 241, 1);
    ZeroLoad(b, 244, 4);
  }

  lemma {:induction false} ZeroBytes(s: seq<byte>)
    requires UnLe(s) == 0
    ensures forall i :: 0 <= i < |s| ==> s[i] == 0
  {
    if s != [] {
      ZeroBytes(s[1..]);
      forall i | 0 <= i < |s| ensures s[i] == 0 { if i > 0 { assert s[i] == s[1..][i - 1]; } }
    }
  }

  lemma ZeroLoad(b: seq<byte>, off: nat, n: nat)
    requires off + n <= |b| && Load(b, off, n) == 0
    ensures forall j :: off <= j < off + n ==> b[j] == 0
  {
    hide UnLe;
    ZeroBytes(b[off..off + n]);
    forall j | off <= j < off + n ensures b[j] == 0 { assert b[j] == b[off..off + n][j - off]; }
  }

  /** The artifacts of a resolved graph with the default registry. */
  ghost predicate Built(v: V.PackageView, boundary: u64, summary: StagedSummary, vs: seq<GeneratedView>, firmware: seq<byte>,
                        sys: B.SystemInfo, r: ResolvedArtifacts)
  {
    && Resolved(v, boundary, summary, vs) && |vs| == GENERATED && HavePages(vs, GENERATED)
    && var p, a := ProfileOf(v, boundary), Graph(v, boundary, summary, vs);
    && Artifacts.Planned(p.manifest)
    && ArtifactsOk(p.manifest, a, p.bootloader, vs[0].pages, vs[4].pages, firmware, RegionsFor(LogBases(vs), Base(vs, 1)), B.DefaultRegistry())
    && r == ArtifactsOf(p.manifest, a, p.bootloader, vs[0].pages, vs[4].pages, firmware, RegionsFor(LogBases(vs), Base(vs, 1)), sys,
                        B.DefaultRegistry())
  }

  /** Artifacts of any planned manifest, read back. */
  lemma ManifestArtifactsRead(m: BootManifest, a: ResolvedAddresses, g: Bootloader, queuePages: seq<u64>, radixPages: seq<u64>,
                              firmware: seq<byte>, regions: seq<M.LibosRegion>, sys: B.SystemInfo)
    requires Artifacts.Planned(m) && ArtifactsOk(m, a, g, queuePages, radixPages, firmware, regions, B.DefaultRegistry())
    ensures var r := ArtifactsOf(m, a, g, queuePages, radixPages, firmware, regions, sys, B.DefaultRegistry());
      && |r.wprMetadata| == 256 && |r.cachedArguments| == 72
      && WprReads(r.wprMetadata, m, a, g)
      && B.DefaultLinked(r.cachedArguments, r.sharedQueueAllocation, queuePages, m.queues.queueBytes, sys)
  {
    hide WprReads, B.DefaultLinked, Radix3.Planned, M.PageBuildable, B.SharedBytes, Artifacts.Planned, Radix3.Allocation, B.CommandQueue,
         M.LibosPage, M.WprMeta, B.SharedBuildable, AddressesOk, B.DefaultRegistry;
    WprMetaForReads(m, a, g);
    PlannedParts(m);
    B.DefaultArgumentsLink(m.queues, queuePages, sys);
  }

  /** The booter finds the resolved signature at 72, the bootloader at 32 and the firmware's table root at 16, and the
      argument block leads to the queues. */
  lemma ArtifactsRead(v: V.PackageView, boundary: u64, summary: StagedSummary, vs: seq<GeneratedView>, firmware: seq<byte>,
                      sys: B.SystemInfo, r: ResolvedArtifacts)
    requires Built(v, boundary, summary, vs, firmware, sys, r)
    ensures |r.wprMetadata| == 256 && |r.cachedArguments| == 72
    ensures WprReads(r.wprMetadata, ProfileOf(v, boundary).manifest, Graph(v, boundary, summary, vs), ProfileOf(v, boundary).bootloader)
    ensures B.DefaultLinked(r.cachedArguments, r.sharedQueueAllocation, vs[0].pages, ProfileOf(v, boundary).manifest.queues.queueBytes, sys)
  {
    hide ProfileOf, StatusOf, StatusFor, ResolveStatusOf, WprReads, B.DefaultLinked, ArtifactsOk, ArtifactsOf, Artifacts.Planned, Graph, B.DefaultRegistry;
    var p, a := ProfileOf(v, boundary), Graph(v, boundary, summary, vs);
    ManifestArtifactsRead(p.manifest, a, p.bootloader, vs[0].pages, vs[4].pages, firmware, RegionsFor(LogBases(vs), Base(vs, 1)), sys);
  }

  // ---- The libOS init page ----

  /** Entry `k` of the page: its name as a number, where it lies and how long it is. */
  ghost predicate EntryReads(page: seq<byte>, k: nat, name: u64, address: u64, size: u64)
    requires |page| == 4096 && k < 128
  {
    && Load64(page, 32 * k) == name && Load64(page, 32 * k + 8) == address && Load64(page, 32 * k + 16) == size
    && page[32 * k + 24] == 1 && page[32 * k + 25] == 1
  }

  lemma EntryRead(rs: seq<M.LibosRegion>, k: nat)
    requires M.PageBuildable(rs) && k < |rs| && rs[k].kind == 1 && rs[k].location == 1
    ensures EntryReads(M.LibosPage(rs), k, M.Id8(rs[k].id), rs[k].physicalAddress, rs[k].size)
  {
    hide M.LibosPage, M.Id8, Load64;
    M.RegionReadsBack(rs, k);
    M.RegionIdReads(rs, k);
  }

  lemma Ids()
    ensures M.Id8(LOGINIT) == 0x4C_4F47_494E_4954 && M.Id8(LOGINTR) == 0x4C_4F47_494E_5452
    ensures M.Id8(LOGRM) == 0x4C_4F47_524D && M.Id8(LOGMNOC) == 0x4C_4F47_4D4E_4F43
    ensures M.Id8(LOGKRNL) == 0x4C_4F47_4B52_4E4C && M.Id8(RMARGS) == 0x524D_4152_4753
  {
    assert M.Id8To(LOGINIT, 2) == 0x4C4F && M.Id8To(LOGINIT, 4) == 0x4C4F4749 && M.Id8To(LOGINIT, 6) == 0x4C4F47494E49 && M.Id8To(LOGINIT, 7) == 0x4C4F47494E4954;
    assert M.Id8To(LOGINTR, 2) == 0x4C4F && M.Id8To(LOGINTR, 4) == 0x4C4F4749 && M.Id8To(LOGINTR, 6) == 0x4C4F47494E54 && M.Id8To(LOGINTR, 7) == 0x4C4F47494E5452;
    assert M.Id8To(LOGMNOC, 2) == 0x4C4F && M.Id8To(LOGMNOC, 4) == 0x4C4F474D && M.Id8To(LOGMNOC, 6) == 0x4C4F474D4E4F && M.Id8To(LOGMNOC, 7) == 0x4C4F474D4E4F43;
    assert M.Id8To(LOGKRNL, 2) == 0x4C4F && M.Id8To(LOGKRNL, 4) == 0x4C4F474B && M.Id8To(LOGKRNL, 6) == 0x4C4F474B524E && M.Id8To(LOGKRNL, 7) == 0x4C4F474B524E4C;
    assert M.Id8To(RMARGS, 2) == 0x524D && M.Id8To(RMARGS, 4) == 0x524D4152 && M.Id8To(RMARGS, 6) == 0x524D41524753;
    assert M.Id8To(LOGRM, 2) == 0x4C4F && M.Id8To(LOGRM, 4) == 0x4C4F4752 && M.Id8To(LOGRM, 5) == 0x4C4F47524D;
  }

  /** The page of a resolved graph: five named logs of 64 KiB at the first pages of their buffers, the argument page,
      and nothing more. */
  ghost predicate LibosReads(page: seq<byte>, vs: seq<GeneratedView>)
    requires |page| == 4096
  {
    && (forall i :: 0 <= i < |vs| ==> vs[i].pages != [] && LogReads(page, vs[i].kind, vs[i].pages[0]))
    && forall j :: 192 <= j < 4096 ==> page[j] == 0
  }

  ghost predicate LogReads(page: seq<byte>, kind: GeneratedKind, address: u64)
    requires |page| == 4096
  {
    match kind
    case LogInit => EntryReads(page, 0, 0x4C_4F47_494E_4954, address, 0x1_0000)
    case LogIntr => EntryReads(page, 1, 0x4C_4F47_494E_5452, address, 0x1_0000)
    case LogRm => EntryReads(page, 2, 0x4C_4F47_524D, address, 0x1_0000)
    case LogMnoc => EntryReads(page, 3, 0x4C_4F47_4D4E_4F43, address, 0x1_0000)
    case LogKrnl => EntryReads(page, 4, 0x4C_4F47_4B52_4E4C, address, 0x1_0000)
    case GeneratedCachedArguments => EntryReads(page, 5, 0x524D_4152_4753, address, 0x1000)
    case _ => true
  }

  lemma LibosPageReads(vs: seq<GeneratedView>)
    requires |vs| == GENERATED && HavePages(vs, GENERATED) && forall k :: 0 <= k < GENERATED ==> vs[k].kind == Resolve.KindAt(k)
    ensures M.PageBuildable(RegionsFor(LogBases(vs), Base(vs, 1)))
    ensures LibosReads(M.LibosPage(RegionsFor(LogBases(vs), Base(vs, 1))), vs)
  {
    hide M.LibosPage, EntryReads, M.Id8;
    var rs := RegionsFor(LogBases(vs), Base(vs, 1));
    RegionsBuildable(LogBases(vs), Base(vs, 1));
    Ids();
    forall k | 0 <= k < 6 ensures EntryReads(M.LibosPage(rs), k, M.Id8(rs[k].id), rs[k].physicalAddress, rs[k].size) { EntryRead(rs, k); }
    assert EntryReads(M.LibosPage(rs), 0, M.Id8(rs[0].id), rs[0].physicalAddress, rs[0].size);
    forall i | 0 <= i < GENERATED ensures LogReads(M.LibosPage(rs), vs[i].kind, vs[i].pages[0]) {
      LogKindReads(M.LibosPage(rs), rs, vs, i);
    }
    forall j | 192 <= j < 4096 ensures M.LibosPage(rs)[j] == 0 { PageTail(rs, j); }
  }

  lemma PageTail(rs: seq<M.LibosRegion>, j: nat)
    requires M.PageBuildable(rs) && 32 * |rs| <= j < 4096
    ensures M.LibosPage(rs)[j] == 0
  {
    hide M.RegionsTo;
  }

  lemma LogKindReads(page: seq<byte>, rs: seq<M.LibosRegion>, vs: seq<GeneratedView>, i: nat)
    requires |page| == 4096 && |vs| == GENERATED && HavePages(vs, GENERATED) && i < GENERATED && vs[i].kind == Resolve.KindAt(i)
    requires rs == RegionsFor(LogBases(vs), Base(vs, 1)) && M.PageBuildable(rs)
    requires forall k :: 0 <= k < 6 ==> EntryReads(page, k, M.Id8(rs[k].id), rs[k].physicalAddress, rs[k].size)
    ensures LogReads(page, vs[i].kind, vs[i].pages[0])
  {
    hide EntryReads, M.Id8;
    Ids();
    if i >= 5 {
      assert EntryReads(page, i - 5, M.Id8(rs[i - 5].id), rs[i - 5].physicalAddress, rs[i - 5].size);
    } else {
      assert EntryReads(page, 5, M.Id8(rs[5].id), rs[5].physicalAddress, rs[5].size);
    }
  }

  /** What the built artifacts say of the buffers they were built over. */
  ghost predicate ArtifactsName(r: ResolvedArtifacts, vs: seq<GeneratedView>, signature: u64, bootloader: u64)
  {
    && |r.wprMetadata| == 256 && |r.cachedArguments| == 72 && |r.libosInitArguments| == 4096
    && Load64(r.wprMetadata, 72) == signature && Load64(r.wprMetadata, 32) == bootloader
    && LibosReads(r.libosInitArguments, vs)
    && forall k :: 0 <= k < |vs| ==>
         && vs[k].pages != []
         && (vs[k].kind == GeneratedRadix3 ==> Load64(r.wprMetadata, 16) == vs[k].pages[0])
         && (vs[k].kind == GeneratedQueue ==> Load64(r.cachedArguments, 0) == vs[k].pages[0])
  }

  /** Over a staged package: the artifacts send the booter to the first pages of the staged signature and bootloader. */
  lemma StagedArtifactsRead(v: V.PackageView, boundary: u64, plan: PackageStagingPlan, staged: seq<StagedView>, summary: StagedSummary,
                            vs: seq<GeneratedView>, firmware: seq<byte>, sys: B.SystemInfo, r: ResolvedArtifacts)
    returns (s: nat, b: nat)
    requires Summarized(plan, v, staged, summary) && Built(v, boundary, summary, vs, firmware, sys, r)
    ensures FirstStaged(staged, P.SignatureSection, s) && FirstStaged(staged, P.BootloaderSection, b)
    ensures ArtifactsName(r, vs, staged[s].pages[0], staged[b].pages[0])
  {
    hide Summarized, Resolved, ArtifactsOk, ArtifactsOf, Artifacts.Planned, ArtifactsName;
    s, b := StagedPages(v, boundary, plan, staged, summary, vs, firmware, sys, r);
    BuiltNames(v, boundary, summary, vs, firmware, sys, r);
  }

  lemma BuiltNames(v: V.PackageView, boundary: u64, summary: StagedSummary, vs: seq<GeneratedView>, firmware: seq<byte>, sys: B.SystemInfo,
                   r: ResolvedArtifacts)
    requires Built(v, boundary, summary, vs, firmware, sys, r)
    ensures ArtifactsName(r, vs, Graph(v, boundary, summary, vs).firmwareSignature, Graph(v, boundary, summary, vs).gspBootloader)
  {
    hide WprReads, B.DefaultLinked, LibosReads, ArtifactsName, Names, ProfileOf, StatusOf, StatusFor, ResolveStatusOf, Graph, Scratch,
         ArtifactsOk, ArtifactsOf, Resolve.KindAt, Artifacts.Planned;
    var a := Graph(v, boundary, summary, vs);
    ViewKinds(v, boundary, summary, vs, 0);
    FirstKind();
    BuiltLibos(v, boundary, summary, vs, firmware, sys, r);
    ArtifactsRead(v, boundary, summary, vs, firmware, sys, r);
    GraphNames(v, boundary, summary, vs);
    NamedArtifacts(r, ProfileOf(v, boundary).manifest, a, ProfileOf(v, boundary).bootloader, Scratch(v, boundary), summary.entries, vs, sys);
  }

  lemma FirstKind()
    ensures Resolve.KindAt(0) == GeneratedQueue
  {
  }

  lemma StagedPages(v: V.PackageView, boundary: u64, plan: PackageStagingPlan, staged: seq<StagedView>, summary: StagedSummary,
                    vs: seq<GeneratedView>, firmware: seq<byte>, sys: B.SystemInfo, r: ResolvedArtifacts)
    returns (s: nat, b: nat)
    requires Summarized(plan, v, staged, summary) && Built(v, boundary, summary, vs, firmware, sys, r)
    ensures FirstStaged(staged, P.SignatureSection, s) && FirstStaged(staged, P.BootloaderSection, b)
    ensures var a := Graph(v, boundary, summary, vs);
      a.firmwareSignature == staged[s].pages[0] && a.gspBootloader == staged[b].pages[0]
  {
    hide Summarized, ArtifactsOk, ArtifactsOf, Names, Scratch;
    s, b := StagedAddresses(v, boundary, plan, staged, summary, vs);
  }

  lemma BuiltLibos(v: V.PackageView, boundary: u64, summary: StagedSummary, vs: seq<GeneratedView>, firmware: seq<byte>, sys: B.SystemInfo,
                   r: ResolvedArtifacts)
    requires Built(v, boundary, summary, vs, firmware, sys, r)
    ensures |r.libosInitArguments| == 4096 && LibosReads(r.libosInitArguments, vs)
  {
    hide ArtifactsOk, ProfileOf, StatusOf, StatusFor, ResolveStatusOf, LibosReads, Resolve.KindAt, RegionsFor, M.LibosPage, Graph;
    forall k | 0 <= k < GENERATED ensures vs[k].kind == Resolve.KindAt(k) { ViewKinds(v, boundary, summary, vs, k); }
    LibosPageReads(vs);
  }

  lemma NamedArtifacts(r: ResolvedArtifacts, m: BootManifest, a: ResolvedAddresses, g: Bootloader, scratch: ScratchPlan,
                       entries: seq<StagedEntry>, vs: seq<GeneratedView>, sys: B.SystemInfo)
    requires |r.wprMetadata| == 256 && |r.cachedArguments| == 72 && |r.libosInitArguments| == 4096
    requires WprReads(r.wprMetadata, m, a, g) && LibosReads(r.libosInitArguments, vs) && Names(a, scratch, entries, vs)
    requires vs != [] && vs[0].pages != [] && vs[0].kind == GeneratedQueue
    requires B.DefaultLinked(r.cachedArguments, r.sharedQueueAllocation, vs[0].pages, m.queues.queueBytes, sys)
    ensures ArtifactsName(r, vs, a.firmwareSignature, a.gspBootloader)
  {
    hide B.DefaultLinked, LibosReads, Reuses, M.NamesRegions, B.QueueHolds, B.DefaultRegistry, Load;
    PageNamed(r.cachedArguments, r.sharedQueueAllocation, vs[0].pages, m.queues.queueBytes, sys);
    assert RecordedAt(a, vs[0].kind, vs[0].pages[0]);
  }

  lemma PageNamed(b: seq<byte>, s: seq<byte>, pages: seq<u64>, queueBytes: u64, sys: B.SystemInfo)
    requires |b| == 72 && pages != [] && B.DefaultLinked(b, s, pages, queueBytes, sys)
    ensures Load(b, 0, 8) == pages[0]
  {
    hide B.QueueHolds, B.DefaultRegistry, Load;
  }
}
