/** Resolving the cold boot's address graph from page lists. */
module Resolve {
  import opened Words
  import opened Wrappers
  import opened Gsp
  import opened Manifest
  import opened Prototype
  import opened Prepare
  import D = Dma
  import M = Metadata

  datatype GeneratedView = GeneratedView(kind: GeneratedKind, pages: seq<u64>)

  datatype StagedEntry = StagedEntry(kind: AllocationKind, layout: DmaLayout, baseAddress: u64, allocationBytes: u64)

  /** The staged package as resolved before: its five entries, when that succeeded. */
  datatype StagedSummary = StagedSummary(ok: bool, entries: seq<StagedEntry>)

  datatype ResolveStatus =
    | ResolveOk
    | BadProfile
    | BadPreparationPlan
    | BadStagedPackageSummary
    | WrongGeneratedCount
    | GeneratedKindMismatch
    | GeneratedPageCountMismatch
    | GeneratedPageAddressInvalid
    | GeneratedLinearLayoutRejected
    | PackageReuseMissing
    | PackageReuseMismatch

  datatype ResolvedMemory = ResolvedMemory(
    status: ResolveStatus,
    addresses: ResolvedAddresses,
    libosRegions: seq<M.LibosRegion>,
    totalPages: u64)

  const NO_ADDRESSES := ResolvedAddresses(0, 0, 0, 0, 0, 0, 0, 0, 0)

  /** The kinds of a preparation plan, in order. */
  function KindAt(i: nat): GeneratedKind
    requires i < GENERATED
  {
    if i < 5 then ManifestKind(i).1 else LogKind(i - 5)
  }

  /** The order a preparation writes. */
  predicate InOrder(rs: seq<GeneratedRequirement>)
  {
    |rs| == GENERATED && forall i :: 0 <= i < GENERATED ==> rs[i].kind == KindAt(i)
  }

  /** A plan as the preparation makes it. */
  predicate Shaped(plan: PreparationPlan)
  {
    plan.status == PrepareOk ==> InOrder(plan.generated)
  }

  predicate ValidPages(pages: seq<u64>)
  {
    pages != [] && forall i :: 0 <= i < |pages| ==> pages[i] != 0 && pages[i] % PAGE == 0
  }

  function ViewStatus(r: GeneratedRequirement, v: GeneratedView): ResolveStatus
  {
    if v.kind != r.kind then GeneratedKindMismatch
    else if r.pageCount == 0 || |v.pages| != r.pageCount then GeneratedPageCountMismatch
    else if !ValidPages(v.pages) then GeneratedPageAddressInvalid
    else if r.linear && !D.LinearPages(v.pages, PAGE) then GeneratedLinearLayoutRejected
    else ResolveOk
  }

  function PagesTo(rs: seq<GeneratedRequirement>, k: nat): nat
    requires k <= |rs|
  {
    if k == 0 then 0 else PagesTo(rs, k - 1) + rs[k - 1].pageCount
  }

  /** The first complaint about the views from `i` on. */
  function ViewsStatus(rs: seq<GeneratedRequirement>, vs: seq<GeneratedView>, i: nat): (status: ResolveStatus)
    requires |rs| == |vs| && i <= |rs|
    ensures status == ResolveOk ==>
              forall j :: i <= j < |rs| ==> ViewStatus(rs[j], vs[j]) == ResolveOk && PagesTo(rs, j + 1) <= MAX64
    decreases |rs| - i
  {
    if i == |rs| then ResolveOk
    else if ViewStatus(rs[i], vs[i]) != ResolveOk then ViewStatus(rs[i], vs[i])
    else if PagesTo(rs, i + 1) > MAX64 then GeneratedPageCountMismatch
    else ViewsStatus(rs, vs, i + 1)
  }

  /** The first staged entry of a kind. */
  function FindEntry(entries: seq<StagedEntry>, kind: AllocationKind, k: nat): (r: Option<StagedEntry>)
    requires k <= |entries|
    ensures r.Some? ==> r.value.kind == kind
    decreases |entries| - k
  {
    if k == |entries| then None
    else if entries[k].kind == kind then Some(entries[k])
    else FindEntry(entries, kind, k + 1)
  }

  predicate Reusable(e: StagedEntry, bytes: u64)
  {
    e.layout == Linear && e.baseAddress != 0 && e.baseAddress % PAGE == 0 && e.allocationBytes == bytes
  }

  /** Whether the staged signature and bootloader are there and can be used in place. */
  function ReuseStatus(plan: PreparationPlan, staged: StagedSummary): ResolveStatus
  {
    var signature, bootloader := FindEntry(staged.entries, FirmwareSignature, 0), FindEntry(staged.entries, GspBootloader, 0);
    if signature.None? || bootloader.None? then PackageReuseMissing
    else if !Reusable(signature.value, plan.reusedSignatureBytes) || !Reusable(bootloader.value, plan.reusedBootloaderBytes) then
      PackageReuseMismatch
    else ResolveOk
  }

  function ResolveStatusOf(p: Profile, plan: PreparationPlan, staged: StagedSummary, vs: seq<GeneratedView>): ResolveStatus
  {
    if p.status != ProfileOk || !p.manifest.valid then BadProfile
    else if plan.status != PrepareOk then BadPreparationPlan
    else if !staged.ok then BadStagedPackageSummary
    else if |vs| != |plan.generated| then WrongGeneratedCount
    else if ViewsStatus(plan.generated, vs, 0) != ResolveOk then ViewsStatus(plan.generated, vs, 0)
    else ReuseStatus(plan, staged)
  }

  function Base(vs: seq<GeneratedView>, i: nat): u64
    requires i < |vs| && vs[i].pages != []
  {
    vs[i].pages[0]
  }

  /** The generated addresses beside the reused and the scratch ones. */
  function WithReused(a: ResolvedAddresses, plan: PreparationPlan, staged: StagedSummary): ResolvedAddresses
    requires FindEntry(staged.entries, FirmwareSignature, 0).Some? && FindEntry(staged.entries, GspBootloader, 0).Some?
  {
    a.(firmwareSignature := FindEntry(staged.entries, FirmwareSignature, 0).value.baseAddress,
       gspBootloader := FindEntry(staged.entries, GspBootloader, 0).value.baseAddress,
       frtsFwsecImage := plan.framebuffer.frtsFwsecOffset, sec2BooterImage := plan.framebuffer.sec2BooterOffset)
  }

  function AddressesOf(plan: PreparationPlan, staged: StagedSummary, vs: seq<GeneratedView>): ResolvedAddresses
    requires |vs| == GENERATED && forall i :: 0 <= i < GENERATED ==> vs[i].pages != []
    requires FindEntry(staged.entries, FirmwareSignature, 0).Some? && FindEntry(staged.entries, GspBootloader, 0).Some?
  {
    WithReused(ResolvedAddresses(Base(vs, 0), Base(vs, 1), Base(vs, 2), Base(vs, 3), Base(vs, 4), 0, 0, 0, 0), plan, staged)
  }

  /** "LOGINIT", "LOGINTR", "LOGRM", "LOGMNOC", "LOGKRNL", "RMARGS" */
  const LOGINIT: seq<byte> := [0x4C, 0x4F, 0x47, 0x49, 0x4E, 0x49, 0x54]
  const LOGINTR: seq<byte> := [0x4C, 0x4F, 0x47, 0x49, 0x4E, 0x54, 0x52]
  const LOGRM: seq<byte> := [0x4C, 0x4F, 0x47, 0x52, 0x4D]
  const LOGMNOC: seq<byte> := [0x4C, 0x4F, 0x47, 0x4D, 0x4E, 0x4F, 0x43]
  const LOGKRNL: seq<byte> := [0x4C, 0x4F, 0x47, 0x4B, 0x52, 0x4E, 0x4C]
  const RMARGS: seq<byte> := [0x52, 0x4D, 0x41, 0x52, 0x47, 0x53]

  /** Five log regions and the argument page. */
  function RegionsFor(logs: seq<u64>, arguments: u64): seq<M.LibosRegion>
    requires |logs| == 5
  {
    [ M.LibosRegion(LOGINIT, logs[0], LOG_REGION, 1, 1), M.LibosRegion(LOGINTR, logs[1], LOG_REGION, 1, 1),
      M.LibosRegion(LOGRM, logs[2], LOG_REGION, 1, 1), M.LibosRegion(LOGMNOC, logs[3], LOG_REGION, 1, 1),
      M.LibosRegion(LOGKRNL, logs[4], LOG_REGION, 1, 1), M.LibosRegion(RMARGS, arguments, PAGE, 1, 1) ]
  }

  lemma RegionsBuildable(logs: seq<u64>, arguments: u64)
    requires |logs| == 5
    ensures M.PageBuildable(RegionsFor(logs, arguments))
  {
  }

  function LogBases(vs: seq<GeneratedView>): (r: seq<u64>)
    requires |vs| == GENERATED && forall i :: 0 <= i < GENERATED ==> vs[i].pages != []
    ensures |r| == 5
  {
    [Base(vs, 5), Base(vs, 6), Base(vs, 7), Base(vs, 8), Base(vs, 9)]
  }

  /** Checks one generated buffer's pages. */
  method CheckView(r: GeneratedRequirement, v: GeneratedView) returns (status: ResolveStatus)
    ensures status == ViewStatus(r, v)
  {
    if v.kind != r.kind {
      return GeneratedKindMismatch;
    }
    if r.pageCount == 0 || |v.pages| != r.pageCount {
      return GeneratedPageCountMismatch;
    }
    if v.pages == [] {
      return GeneratedPageAddressInvalid;
    }
    for i := 0 to |v.pages|
      invariant forall k :: 0 <= k < i ==> v.pages[k] != 0 && v.pages[k] % PAGE == 0
    {
      if v.pages[i] == 0 || v.pages[i] % PAGE != 0 {
        return GeneratedPageAddressInvalid;
      }
    }
    if r.linear {
      var linear := D.IsLinearDmaPageList(v.pages, PAGE);
      if !linear {
        return GeneratedLinearLayoutRejected;
      }
    }
    status := ResolveOk;
  }

  /** The addresses with one base recorded where its kind belongs; a log's base is kept apart. */
  function Recorded(a: ResolvedAddresses, kind: GeneratedKind, base: u64): ResolvedAddresses
  {
    match kind
    case GeneratedQueue => a.(queueBacking := base)
    case GeneratedCachedArguments => a.(cachedArguments := base)
    case GeneratedLibosInit => a.(libosInitArguments := base)
    case GeneratedWprMetadata => a.(wprMetadata := base)
    case GeneratedRadix3 => a.(radix3FirmwareRoot := base)
    case _ => a
  }

  predicate IsLog(kind: GeneratedKind) { kind in {LogInit, LogIntr, LogRm, LogMnoc, LogKrnl} }

  const LOGS: nat := 5

  /** The logs among the first `k` requirements. */
  function LogCount(rs: seq<GeneratedRequirement>, k: nat): (n: nat)
    requires k <= |rs|
    ensures n <= k
  {
    if k == 0 then 0 else LogCount(rs, k - 1) + if IsLog(rs[k - 1].kind) then 1 else 0
  }

  /** The first complaint about views and requirements from `i` on, in whatever order the plan lists them:
      a sixth log or a missing one is a kind mismatch. */
  function CollectStatus(rs: seq<GeneratedRequirement>, vs: seq<GeneratedView>, i: nat): ResolveStatus
    requires |rs| == |vs| && i <= |rs|
    decreases |rs| - i
  {
    if i == |rs| then (if LogCount(rs, i) == LOGS then ResolveOk else GeneratedKindMismatch)
    else if ViewStatus(rs[i], vs[i]) != ResolveOk then ViewStatus(rs[i], vs[i])
    else if PagesTo(rs, i + 1) > MAX64 then GeneratedPageCountMismatch
    else if LogCount(rs, i + 1) > LOGS then GeneratedKindMismatch
    else CollectStatus(rs, vs, i + 1)
  }

  predicate HavePages(vs: seq<GeneratedView>, k: nat)
    requires k <= |vs|
  {
    forall i :: 0 <= i < k ==> vs[i].pages != []
  }

  /** The addresses after the first `k` views: of two buffers of a kind the later one counts. */
  ghost function AddressesTo(rs: seq<GeneratedRequirement>, vs: seq<GeneratedView>, k: nat): ResolvedAddresses
    requires k <= |vs| == |rs| && HavePages(vs, k)
  {
    if k == 0 then NO_ADDRESSES else Recorded(AddressesTo(rs, vs, k - 1), rs[k - 1].kind, Base(vs, k - 1))
  }

  /** Each address is the first page of the last buffer of its kind among the first `n`. */
  ghost predicate Records(rs: seq<GeneratedRequirement>, vs: seq<GeneratedView>, n: nat, a: ResolvedAddresses)
    requires n <= |vs| == |rs| && HavePages(vs, n)
  {
    forall i :: 0 <= i < n && (forall j :: i < j < n ==> rs[j].kind != rs[i].kind) ==> RecordedAt(a, rs[i].kind, vs[i].pages[0])
  }

  predicate RecordedAt(a: ResolvedAddresses, kind: GeneratedKind, page: u64)
  {
    && (kind == GeneratedQueue ==> a.queueBacking == page)
    && (kind == GeneratedCachedArguments ==> a.cachedArguments == page)
    && (kind == GeneratedLibosInit ==> a.libosInitArguments == page)
    && (kind == GeneratedWprMetadata ==> a.wprMetadata == page)
    && (kind == GeneratedRadix3 ==> a.radix3FirmwareRoot == page)
  }

  lemma {:induction false} BasesRecorded(rs: seq<GeneratedRequirement>, vs: seq<GeneratedView>, n: nat)
    requires n <= |vs| == |rs| && HavePages(vs, n)
    ensures Records(rs, vs, n, AddressesTo(rs, vs, n))
  {
    hide RecordedAt, Recorded;
    if n > 0 {
      BasesRecorded(rs, vs, n - 1);
      var before, after := AddressesTo(rs, vs, n - 1), AddressesTo(rs, vs, n);
      forall i | 0 <= i < n && (forall j :: i < j < n ==> rs[j].kind != rs[i].kind)
        ensures RecordedAt(after, rs[i].kind, vs[i].pages[0])
      {
        RecordedNow(before, rs[n - 1].kind, Base(vs, n - 1));
        if i < n - 1 {
          assert RecordedAt(before, rs[i].kind, vs[i].pages[0]);
          RecordedStays(before, rs[i].kind, vs[i].pages[0], rs[n - 1].kind, Base(vs, n - 1));
        }
      }
    }
  }

  lemma RecordedNow(a: ResolvedAddresses, kind: GeneratedKind, page: u64)
    ensures RecordedAt(Recorded(a, kind, page), kind, page)
  {
  }

  lemma RecordedStays(a: ResolvedAddresses, kind: GeneratedKind, page: u64, other: GeneratedKind, base: u64)
    requires RecordedAt(a, kind, page) && kind != other
    ensures RecordedAt(Recorded(a, other, base), kind, page)
  {
  }

  /** The signature and the bootloader lie where the first staged entry of their kind has them. */
  ghost predicate Reuses(entries: seq<StagedEntry>, a: ResolvedAddresses)
  {
    && (exists s: nat :: FirstOf(entries, FirmwareSignature, s) && LiesAt(entries[s], a.firmwareSignature))
    && (exists b: nat :: FirstOf(entries, GspBootloader, b) && LiesAt(entries[b], a.gspBootloader))
  }

  /** Consecutive pages from this nonzero page on. */
  predicate LiesAt(e: StagedEntry, address: u64)
  {
    e.baseAddress == address != 0 && address % 0x1000 == 0 && e.layout == Linear
  }

  predicate FirstOf(entries: seq<StagedEntry>, kind: AllocationKind, i: nat)
  {
    i < |entries| && entries[i].kind == kind && forall j :: 0 <= j < i ==> entries[j].kind != kind
  }

  lemma {:induction false} EntryIsFirst(entries: seq<StagedEntry>, kind: AllocationKind, k: nat) returns (i: nat)
    requires k <= |entries| && FindEntry(entries, kind, k).Some? && forall j :: 0 <= j < k ==> entries[j].kind != kind
    ensures FirstOf(entries, kind, i) && FindEntry(entries, kind, k).value == entries[i]
    decreases |entries| - k
  {
    if entries[k].kind == kind { i := k; } else { i := EntryIsFirst(entries, kind, k + 1); }
  }

  /** And the scratch images where the preparation put them. */
  lemma ReusedRecorded(rs: seq<GeneratedRequirement>, vs: seq<GeneratedView>, n: nat, a: ResolvedAddresses, plan: PreparationPlan,
                       staged: StagedSummary)
    requires n <= |vs| == |rs| && HavePages(vs, n) && Records(rs, vs, n, a)
    requires ReuseStatus(plan, staged) == ResolveOk
    ensures FindEntry(staged.entries, FirmwareSignature, 0).Some? && FindEntry(staged.entries, GspBootloader, 0).Some?
    ensures var r := WithReused(a, plan, staged);
      && Records(rs, vs, n, r) && Reuses(staged.entries, r)
      && r.frtsFwsecImage == plan.framebuffer.frtsFwsecOffset && r.sec2BooterImage == plan.framebuffer.sec2BooterOffset
  {
    hide FindEntry;
    var s := EntryIsFirst(staged.entries, FirmwareSignature, 0);
    var b := EntryIsFirst(staged.entries, GspBootloader, 0);
  }

  /** The log bases among the first `k` views, in order. */
  ghost function LogsTo(rs: seq<GeneratedRequirement>, vs: seq<GeneratedView>, k: nat): (r: seq<u64>)
    requires k <= |vs| == |rs| && HavePages(vs, k)
    ensures |r| == LogCount(rs, k)
  {
    if k == 0 then []
    else LogsTo(rs, vs, k - 1) + if IsLog(rs[k - 1].kind) then [Base(vs, k - 1)] else []
  }

  lemma AllRecorded(rs: seq<GeneratedRequirement>, vs: seq<GeneratedView>)
    requires InOrder(rs) && |vs| == GENERATED && HavePages(vs, GENERATED)
    ensures AddressesTo(rs, vs, GENERATED) ==
            ResolvedAddresses(Base(vs, 0), Base(vs, 1), Base(vs, 2), Base(vs, 3), Base(vs, 4), 0, 0, 0, 0)
    ensures LogsTo(rs, vs, GENERATED) == LogBases(vs)
  {
    hide Base, AddressesTo, LogsTo;
    StartRecord(rs, vs);
    RecordStep(rs, vs, 0);
    RecordStep(rs, vs, 1);
    RecordStep(rs, vs, 2);
    RecordStep(rs, vs, 3);
    RecordStep(rs, vs, 4);
    RecordStep(rs, vs, 5);
    RecordStep(rs, vs, 6);
    RecordStep(rs, vs, 7);
    RecordStep(rs, vs, 8);
    RecordStep(rs, vs, 9);
  }

  lemma StartRecord(rs: seq<GeneratedRequirement>, vs: seq<GeneratedView>)
    requires |vs| == |rs|
    ensures AddressesTo(rs, vs, 0) == NO_ADDRESSES && LogsTo(rs, vs, 0) == []
  {
  }

  lemma RecordStep(rs: seq<GeneratedRequirement>, vs: seq<GeneratedView>, k: nat)
    requires InOrder(rs) && k < |vs| == GENERATED && HavePages(vs, GENERATED)
    ensures AddressesTo(rs, vs, k + 1) == Recorded(AddressesTo(rs, vs, k), KindAt(k), Base(vs, k))
    ensures LogsTo(rs, vs, k + 1) == if k < 5 then LogsTo(rs, vs, k) else LogsTo(rs, vs, k) + [Base(vs, k)]
  {
    assert rs[k].kind == KindAt(k);
    LogsAreLast(k);
  }

  lemma LogsAreLast(i: nat)
    requires i < GENERATED
    ensures IsLog(KindAt(i)) <==> i >= 5
  {
  }

  lemma {:induction false} LogsInOrder(rs: seq<GeneratedRequirement>, k: nat)
    requires InOrder(rs) && k <= GENERATED
    ensures LogCount(rs, k) == if k <= 5 then 0 else k - 5
  {
    if k > 0 {
      assert rs[k - 1].kind == KindAt(k - 1);
      LogsAreLast(k - 1);
      LogsInOrder(rs, k - 1);
    }
  }

  /** In a preparation's order the log guards never fire. */
  lemma {:induction false} OrderedCollects(rs: seq<GeneratedRequirement>, vs: seq<GeneratedView>, i: nat)
    requires InOrder(rs) && |vs| == GENERATED && i <= GENERATED
    ensures CollectStatus(rs, vs, i) == ViewsStatus(rs, vs, i)
    decreases GENERATED - i
  {
    hide ViewStatus, LogCount, PagesTo;
    if i < |rs| {
      LogsInOrder(rs, i + 1);
      OrderedCollects(rs, vs, i + 1);
    } else {
      LogsInOrder(rs, i);
    }
  }

  /** Walks the generated buffers, recording each base where its kind belongs. */
  method CollectBases(rs: seq<GeneratedRequirement>, vs: seq<GeneratedView>)
    returns (status: ResolveStatus, addresses: ResolvedAddresses, logs: seq<u64>, totalPages: u64)
    requires |rs| == |vs|
    ensures status == CollectStatus(rs, vs, 0)
    ensures status == ResolveOk ==>
              && HavePages(vs, |vs|) && LogCount(rs, |rs|) == LOGS
              && addresses == AddressesTo(rs, vs, |rs|) && logs == LogsTo(rs, vs, |rs|) && totalPages == PagesTo(rs, |rs|)
  {
    hide ViewStatus, Recorded, IsLog;
    addresses, logs, totalPages := NO_ADDRESSES, [], 0;
    for i := 0 to |rs|
      invariant CollectStatus(rs, vs, 0) == CollectStatus(rs, vs, i)
      invariant HavePages(vs, i) && LogCount(rs, i) <= LOGS
      invariant totalPages == PagesTo(rs, i)
      invariant addresses == AddressesTo(rs, vs, i) && logs == LogsTo(rs, vs, i)
    {
      var viewStatus := CheckView(rs[i], vs[i]);
      if viewStatus != ResolveOk {
        return viewStatus, addresses, logs, totalPages;
      }
      HasPages(rs[i], vs[i]);
      if totalPages > MAX64 - rs[i].pageCount {
        return GeneratedPageCountMismatch, addresses, logs, totalPages;
      }
      totalPages := totalPages + rs[i].pageCount;
      var base := vs[i].pages[0];
      addresses := Recorded(addresses, rs[i].kind, base);
      if IsLog(rs[i].kind) {
        if |logs| >= LOGS {
          return GeneratedKindMismatch, addresses, logs, totalPages;
        }
        logs := logs + [base];
      }
    }
    status := if |logs| == LOGS then ResolveOk else GeneratedKindMismatch;
  }

  lemma HasPages(r: GeneratedRequirement, v: GeneratedView)
    requires ViewStatus(r, v) == ResolveOk
    ensures v.pages != [] && |v.pages| == r.pageCount && ValidPages(v.pages)
  {
  }

  /** The outcome for any plan, its buffers in whatever order. */
  function MemoryStatus(p: Profile, plan: PreparationPlan, staged: StagedSummary, vs: seq<GeneratedView>): ResolveStatus
  {
    if p.status != ProfileOk || !p.manifest.valid then BadProfile
    else if plan.status != PrepareOk then BadPreparationPlan
    else if !staged.ok then BadStagedPackageSummary
    else if |vs| != |plan.generated| then WrongGeneratedCount
    else if CollectStatus(plan.generated, vs, 0) != ResolveOk then CollectStatus(plan.generated, vs, 0)
    else ReuseStatus(plan, staged)
  }

  /** For a plan as the preparation makes it, that is the status the cold graph is stated over. */
  lemma ShapedStatus(p: Profile, plan: PreparationPlan, staged: StagedSummary, vs: seq<GeneratedView>)
    requires Shaped(plan)
    ensures MemoryStatus(p, plan, staged, vs) == ResolveStatusOf(p, plan, staged, vs)
  {
    hide CollectStatus, ViewsStatus, FindEntry;
    if plan.status == PrepareOk && |vs| == |plan.generated| {
      OrderedCollects(plan.generated, vs, 0);
    }
  }

  method ResolveBootMemory(p: Profile, plan: PreparationPlan, staged: StagedSummary, vs: seq<GeneratedView>)
    returns (out: ResolvedMemory)
    ensures out.status == MemoryStatus(p, plan, staged, vs)
    ensures Shaped(plan) ==> out.status == ResolveStatusOf(p, plan, staged, vs)
    ensures out.status == ResolveOk ==>
              && |vs| == |plan.generated| && HavePages(vs, |vs|) && LogCount(plan.generated, |vs|) == LOGS
              && FindEntry(staged.entries, FirmwareSignature, 0).Some? && FindEntry(staged.entries, GspBootloader, 0).Some?
              && out.addresses == WithReused(AddressesTo(plan.generated, vs, |vs|), plan, staged)
              && out.libosRegions == RegionsFor(LogsTo(plan.generated, vs, |vs|), out.addresses.cachedArguments)
              && out.totalPages == PagesTo(plan.generated, |vs|)
    ensures out.status == ResolveOk ==>
              && Records(plan.generated, vs, |vs|, out.addresses) && Reuses(staged.entries, out.addresses)
              && out.addresses.frtsFwsecImage == plan.framebuffer.frtsFwsecOffset
              && out.addresses.sec2BooterImage == plan.framebuffer.sec2BooterOffset
              && FindEntry(staged.entries, FirmwareSignature, 0).value.allocationBytes == plan.reusedSignatureBytes
              && FindEntry(staged.entries, GspBootloader, 0).value.allocationBytes == plan.reusedBootloaderBytes
    ensures out.status == ResolveOk && Shaped(plan) ==>
              && |vs| == GENERATED && out.addresses == AddressesOf(plan, staged, vs)
              && out.libosRegions == RegionsFor(LogBases(vs), Base(vs, 1))
  {
    hide CollectStatus, ViewsStatus, RegionsFor, FindEntry, PagesTo, AddressesTo, LogsTo, LogCount, Records, Reuses;
    if Shaped(plan) {
      ShapedStatus(p, plan, staged, vs);
    }
    out := ResolvedMemory(BadProfile, NO_ADDRESSES, [], 0);
    if p.status != ProfileOk || !p.manifest.valid {
      return;
    }
    if plan.status != PrepareOk {
      return out.(status := BadPreparationPlan);
    }
    if !staged.ok {
      return out.(status := BadStagedPackageSummary);
    }
    if |vs| != |plan.generated| {
      return out.(status := WrongGeneratedCount);
    }
    var status, addresses, logs, totalPages := CollectBases(plan.generated, vs);
    if status != ResolveOk {
      return out.(status := status);
    }
    var signature, bootloader := FindEntry(staged.entries, FirmwareSignature, 0), FindEntry(staged.entries, GspBootloader, 0);
    if signature.None? || bootloader.None? {
      return out.(status := PackageReuseMissing);
    }
    if !Reusable(signature.value, plan.reusedSignatureBytes) || !Reusable(bootloader.value, plan.reusedBootloaderBytes) {
      return out.(status := PackageReuseMismatch);
    }
    if Shaped(plan) {
      AllRecorded(plan.generated, vs);
    }
    BasesRecorded(plan.generated, vs, |vs|);
    ReusedRecorded(plan.generated, vs, |vs|, addresses, plan, staged);
    addresses := addresses.(firmwareSignature := signature.value.baseAddress, gspBootloader := bootloader.value.baseAddress,
                            frtsFwsecImage := plan.framebuffer.frtsFwsecOffset, sec2BooterImage := plan.framebuffer.sec2BooterOffset);
    out := ResolvedMemory(ResolveOk, addresses, RegionsFor(logs, addresses.cachedArguments), totalPages);
  }
}
