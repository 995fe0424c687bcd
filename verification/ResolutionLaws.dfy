/** Resolution accepts exactly the page lists a preparation asks for, and such lists always exist. */
module ResolutionLaws {
  import opened Words
  import opened Bytes
  import opened Gsp
  import opened Wpr
  import opened Manifest
  import opened Prototype
  import opened Prepare
  import opened Resolve
  import P = Package
  import V = PackageParse
  import Q = QueueMemory
  import D = Dma
  import Radix3
  import Placement
  import PackageLaws
  import ColdGraph

  /** A requirement with at least one whole page. */
  predicate WholePages(r: GeneratedRequirement)
  {
    r.pageCount != 0 && r.allocationBytes == r.pageCount * PAGE
  }

  /** Each buffer of a plan has its kind in order and is a whole number of pages. */
  lemma {:induction false} GeneratedShape(m: BootManifest, k: nat, j: nat)
    requires BuffersOk(m) && j < k <= GENERATED
    ensures GeneratedTo(m, k)[j].kind == KindAt(j) && WholePages(GeneratedTo(m, k)[j])
  {
    hide Find;
    if j < k - 1 {
      GeneratedShape(m, k - 1, j);
    } else if k <= 5 {
      assert BufferOk(m, k - 1);
    }
  }

  /** What a preparation plans is what resolution takes for granted. */
  lemma PlanIsShaped(p: Profile)
    requires StatusFor(p) == PrepareOk
    ensures Shaped(PlanFor(p))
  {
    hide Find, BuffersOk, GeneratedTo, KindAt, GeneratedBytes;
    forall j | 0 <= j < GENERATED ensures Generated(p.manifest)[j].kind == KindAt(j) {
      GeneratedShape(p.manifest, GENERATED, j);
    }
  }

  lemma {:induction false} PagesAreBytes(rs: seq<GeneratedRequirement>, k: nat)
    requires k <= |rs| && forall j :: 0 <= j < |rs| ==> WholePages(rs[j])
    ensures PagesTo(rs, k) * PAGE == BytesTo(rs, k)
  {
    if k > 0 { PagesAreBytes(rs, k - 1); }
  }

  lemma {:induction false} PagesGrow(rs: seq<GeneratedRequirement>, i: nat, k: nat)
    requires i <= k <= |rs|
    ensures PagesTo(rs, i) <= PagesTo(rs, k)
  {
    if i < k { PagesGrow(rs, i, k - 1); }
  }

  /** The pages one buffer may be given: as many as it counts, each at a nonzero page, consecutive where
      the buffer is linear. */
  predicate Fits(r: GeneratedRequirement, v: GeneratedView)
  {
    && v.kind == r.kind && |v.pages| == r.pageCount
    && (forall i :: 0 <= i < |v.pages| ==> v.pages[i] != 0 && v.pages[i] % PAGE == 0)
    && (r.linear ==> D.LinearPages(v.pages, PAGE))
  }

  lemma FitsIsAccepted(r: GeneratedRequirement, v: GeneratedView)
    requires WholePages(r)
    ensures Fits(r, v) <==> ViewStatus(r, v) == ResolveOk
  {
  }

  /** The running page total never overflows when the buffers' bytes do not. */
  lemma {:induction false} ViewsAccepted(rs: seq<GeneratedRequirement>, vs: seq<GeneratedView>, i: nat)
    requires |rs| == |vs| && i <= |rs| && forall j :: 0 <= j < |rs| ==> WholePages(rs[j])
    requires BytesTo(rs, |rs|) <= MAX64
    ensures ViewsStatus(rs, vs, i) == ResolveOk <==> forall j :: i <= j < |rs| ==> Fits(rs[j], vs[j])
    decreases |rs| - i
  {
    hide Fits, ViewStatus, WholePages;
    if i < |rs| {
      FitsIsAccepted(rs[i], vs[i]);
      PagesAreBytes(rs, |rs|);
      PagesGrow(rs, i + 1, |rs|);
      ViewsAccepted(rs, vs, i + 1);
    }
  }

  predicate ReuseFits(plan: PreparationPlan, staged: StagedSummary)
  {
    var signature, bootloader := FindEntry(staged.entries, FirmwareSignature, 0), FindEntry(staged.entries, GspBootloader, 0);
    && staged.ok && signature.Some? && bootloader.Some?
    && Reusable(signature.value, plan.reusedSignatureBytes) && Reusable(bootloader.value, plan.reusedBootloaderBytes)
  }

  /** A prepared profile resolves exactly on page lists that fit buffer by buffer beside reusable staged
      entries: no total of its own ever stands in the way. */
  lemma ResolvesExactlyWhenFitting(p: Profile, staged: StagedSummary, vs: seq<GeneratedView>)
    requires StatusFor(p) == PrepareOk
    ensures var plan := PlanFor(p);
      ResolveStatusOf(p, plan, staged, vs) == ResolveOk <==>
      |vs| == GENERATED && (forall k :: 0 <= k < GENERATED ==> Fits(plan.generated[k], vs[k])) && ReuseFits(plan, staged)
  {
    hide Find, FindEntry, GeneratedTo, WholePages, Fits, ViewsStatus, BytesTo, BuffersOk, Reusable;
    var rs := Generated(p.manifest);
    forall j | 0 <= j < GENERATED ensures WholePages(rs[j]) {
      GeneratedShape(p.manifest, GENERATED, j);
    }
    if |vs| == GENERATED {
      ViewsAccepted(rs, vs, 0);
    }
  }

  // ---- Such lists exist ----

  /** More pages than this do not fit 64-bit addresses. */
  const MAX_PAGES: nat := 0xF_FFFF_FFFF_FFFF

  /** Consecutive pages from the second page of memory on. */
  function PagesFrom(n: nat): (r: seq<u64>)
    requires n <= MAX_PAGES
    ensures |r| == n && forall k :: 0 <= k < n ==> r[k] == (k + 1) * PAGE
  {
    seq(n, k requires 0 <= k < n => ((k + 1) * PAGE) as u64)
  }

  function ViewFor(r: GeneratedRequirement): GeneratedView
    requires WholePages(r)
  {
    GeneratedView(r.kind, PagesFrom(r.pageCount))
  }

  lemma ViewForFits(r: GeneratedRequirement)
    requires WholePages(r)
    ensures Fits(r, ViewFor(r))
  {
    D.PageSize4K();
  }

  function ViewsOf(rs: seq<GeneratedRequirement>): (r: seq<GeneratedView>)
    requires forall j :: 0 <= j < |rs| ==> WholePages(rs[j])
  {
    seq(|rs|, j requires 0 <= j < |rs| => ViewFor(rs[j]))
  }

  function StagedFor(plan: PreparationPlan): StagedSummary
  {
    StagedSummary(true, [ StagedEntry(FirmwareSignature, Linear, PAGE, plan.reusedSignatureBytes),
                          StagedEntry(GspBootloader, Linear, PAGE, plan.reusedBootloaderBytes) ])
  }

  lemma StagedIsReusable(plan: PreparationPlan)
    ensures ReuseFits(plan, StagedFor(plan))
  {
    var entries := StagedFor(plan).entries;
    assert FindEntry(entries, GspBootloader, 0) == FindEntry(entries, GspBootloader, 1);
  }

  /** A preparation never asks for memory that resolution would turn away. */
  lemma EveryPreparationResolves(p: Profile)
    requires StatusFor(p) == PrepareOk
    ensures exists staged, vs :: ResolveStatusOf(p, PlanFor(p), staged, vs) == ResolveOk
  {
    hide Find, FindEntry, GeneratedTo, WholePages, Fits, ViewsStatus, BytesTo, BuffersOk, Reusable, ReuseFits, ViewFor,
         ResolveStatusOf, StagedFor;
    var plan := PlanFor(p);
    forall j | 0 <= j < GENERATED ensures WholePages(plan.generated[j]) {
      GeneratedShape(p.manifest, GENERATED, j);
    }
    var vs := ViewsOf(plan.generated);
    forall j | 0 <= j < GENERATED ensures Fits(plan.generated[j], vs[j]) {
      ViewForFits(plan.generated[j]);
    }
    StagedIsReusable(plan);
    ResolvesExactlyWhenFitting(p, StagedFor(plan), vs);
    assert ResolveStatusOf(p, plan, StagedFor(plan), vs) == ResolveOk;
  }

  // ---- An 8 GiB card ----

  const CARD_VRAM: u64 := 0x2_0000_0000
  const CARD_BOUNDARY: u64 := 0x1_FFF0_0000

  /** Five payloads: a 16 MiB firmware and four of one page. */
  function CardPayloads(): (r: seq<seq<byte>>)
    ensures |r| == P.SECTIONS && |r[0]| == 0x100_0000 && forall k :: 1 <= k < P.SECTIONS ==> |r[k]| == 0x1000
  {
    [Zeros(0x100_0000), Zeros(0x1000), Zeros(0x1000), Zeros(0x1000), Zeros(0x1000)]
  }

  function CardMetadata(): P.Metadata
  {
    P.Metadata(P.PciIdentity(0x10DE, 0x2489, 0, 0), CARD_VRAM, 1, 0, 0, 0, 0, 0, 0x100, 0, 0, 0x100, 0, 0, 0, 0x100, 0, 0x100)
  }

  /** Each payload starts on the page after the one before. */
  lemma CardOffsets(k: nat)
    requires k <= P.SECTIONS
    ensures P.OffsetOf(CardPayloads(), k) == if k == 0 then 0x1000 else 0x100_0000 + k * 0x1000
  {
    hide CardPayloads;
    if k > 0 {
      CardOffsets(k - 1);
      WholeAlready(P.OffsetOf(CardPayloads(), k - 1) + |CardPayloads()[k - 1]|);
    }
  }

  lemma WholeAlready(v: nat)
    requires v % PAGE == 0
    ensures AlignedUp(v, PAGE) == v
  {
  }

  lemma CardFits()
    ensures P.SizesOk(CardPayloads())
  {
    hide CardPayloads, P.OffsetOf;
    forall k | 0 <= k < P.SECTIONS ensures P.Placeable(CardPayloads(), k) {
      CardOffsets(k);
      CardOffsets(k + 1);
      WholeAlready(P.EndOf(CardPayloads(), k));
    }
  }

  /** The package an 8 GiB card is given, as the parser returns it. */
  function CardPackage(): V.PackageView
  {
    CardFits();
    PackageLaws.ViewOf(CardMetadata(), CardPayloads())
  }

  /** It is the view of the file built from those payloads. */
  lemma CardIsParsed()
    ensures P.SizesOk(CardPayloads())
    ensures var file := P.File(CardMetadata(), CardPayloads());
      V.Verdict(file) == V.ParseOk && |file| <= MAX64 && V.ParsedView(file) == CardPackage()
  {
    hide CardPayloads, P.SizesOk, V.Verdict, V.ParsedView, PackageLaws.ViewOf, P.File;
    CardFits();
    PackageLaws.BuiltPackageParses(CardMetadata(), CardPayloads());
  }

  lemma CardSections()
    ensures CardPackage().status == V.ParseOk && CardPackage().metadata == CardMetadata()
    ensures var v := CardPackage();
      && SectionBytes(v, P.FirmwareSection) == 0x100_0000 && SectionBytes(v, P.SignatureSection) == 0x1000
      && SectionBytes(v, P.BootloaderSection) == 0x1000 && SectionBytes(v, P.FwsecSection) == 0x1000
      && SectionBytes(v, P.BooterSection) == 0x1000
  {
    hide CardPayloads, P.OffsetOf, P.Placeable;
    CardFits();
    var s := CardPackage().sections;
    forall k | 0 <= k < P.SECTIONS ensures s[k].kind == P.KindAt(k) && s[k].size == |CardPayloads()[k]| {
      RecordIs(CardPayloads(), P.SECTIONS, k);
    }
    FirstOfKind(s, 0, 0);
    FirstOfKind(s, 0, 1);
    FirstOfKind(s, 0, 2);
    FirstOfKind(s, 0, 3);
    FirstOfKind(s, 0, 4);
  }

  lemma RecordShape(ps: seq<seq<byte>>, k: nat)
    requires |ps| == P.SECTIONS && k < P.SECTIONS && P.Placeable(ps, k)
    ensures P.RecordOf(ps, k).kind == P.KindAt(k) && P.RecordOf(ps, k).size == |ps[k]|
  {
  }

  lemma {:induction false} RecordIs(ps: seq<seq<byte>>, n: nat, k: nat)
    requires |ps| == P.SECTIONS && k < n <= P.SECTIONS && forall j :: 0 <= j < n ==> P.Placeable(ps, j)
    ensures P.RecordsTo(ps, n)[k].kind == P.KindAt(k) && P.RecordsTo(ps, n)[k].size == |ps[k]|
  {
    hide P.Placeable, P.RecordOf;
    if k < n - 1 { RecordIs(ps, n - 1, k); } else { RecordShape(ps, k); }
  }

  /** In sections listed in order of kind, each is the first of its kind. */
  lemma {:induction false} FirstOfKind(s: seq<P.SectionRecord>, from: nat, k: nat)
    requires |s| == P.SECTIONS && from <= k < P.SECTIONS && forall j :: 0 <= j < P.SECTIONS ==> s[j].kind == P.KindAt(j)
    ensures SectionBytesFrom(s, P.KindAt(k), from) == s[k].size
    decreases k - from
  {
    assert s[from].kind == P.KindAt(from);
    if from < k { FirstOfKind(s, from + 1, k); }
  }

  /** Its layout: FRTS ends at the boundary, and the reserved region starts 149 MiB below it. */
  lemma CardLayout()
    ensures var i := WprLayoutInputs(CARD_VRAM, CARD_BOUNDARY, CARD_BOUNDARY, 0, 0x10_0000, 0x1000, 0x100_0000, 0x10_0000, 0x810_0000);
      Accepts(i) && ReservedStart(i) == 0x1_F6A0_0000
  {
    hide AlignDown, AlignedUp;
    var i := WprLayoutInputs(CARD_VRAM, CARD_BOUNDARY, CARD_BOUNDARY, 0, 0x10_0000, 0x1000, 0x100_0000, 0x10_0000, 0x810_0000);
    AlignsTo(0x1_FFF0_0000, KIB128, 0xFFF8, 0);
    AlignsTo(0x1_FFDF_F000, KIB4, 0x1F_FDFF, 0);
    AlignsTo(0x1_FEDF_F000, KIB64, 0x1_FEDF, 0xF000);
    AlignsTo(0x1_F6CF_0000, MIB, 0x1F6C, 0xF_0000);
    AlignsTo(0x81F_0000, MIB, 0x81, 0xF_0000);
    assert NonWprSize(i) == 0x10_0000;
  }

  /** What the card's profile turns on, for any boundary: whether its layout is accepted, and where it reserves. */
  lemma CardManifest(boundary: u64)
    requires Accepts(WprInputs(InputsOf(CardPackage(), boundary)))
    ensures ManifestOk(InputsOf(CardPackage(), boundary))
  {
    hide CardPackage, SectionBytes, Accepts, Q.PlanQueueMemory, Radix3.LayoutOf;
    CardSections();
    Q.DefaultQueueCounts();
    ScratchSizes();
  }

  lemma CardStatus(boundary: u64)
    requires Accepts(WprInputs(InputsOf(CardPackage(), boundary)))
    requires 0 < boundary <= CARD_BOUNDARY && boundary % 0x1000 == 0
    ensures StatusOf(CardPackage(), boundary) == ProfileOk
  {
    hide CardPackage, SectionBytes, Accepts, ManifestOk, InputsOf;
    CardSections();
    CardManifest(boundary);
  }

  lemma CardScratch(boundary: u64)
    requires StatusOf(CardPackage(), boundary) == ProfileOk
    ensures ScratchFits(ProfileOf(CardPackage(), boundary)) <==> 0x2000 <= ReservedStart(WprInputs(InputsOf(CardPackage(), boundary)))
  {
    hide CardPackage, SectionBytes, Accepts, ReservedStart, Q.PlanQueueMemory, Radix3.LayoutOf, AlignUpPage, Allocations;
    CardSections();
    ScratchSizes();
  }

  lemma CardProfile()
    ensures StatusOf(CardPackage(), CARD_BOUNDARY) == ProfileOk
    ensures ScratchFits(ProfileOf(CardPackage(), CARD_BOUNDARY))
  {
    hide CardPackage, SectionBytes, Accepts, ReservedStart, StatusOf, ProfileOf, ScratchFits;
    CardSections();
    CardLayout();
    CardStatus(CARD_BOUNDARY);
    CardScratch(CARD_BOUNDARY);
  }

  lemma ScratchSizes()
    ensures AlignUpPage(0x1000) == 0x1000 && AlignedUp(0x1000, PAGE) == 0x1000
  {
  }

  /** Everything the cold graph is stated over can happen: this card's package file parses, and has a profile, a
      preparation and a resolution. */
  lemma CardResolves()
    ensures exists staged, vs :: ColdGraph.Resolved(CardPackage(), CARD_BOUNDARY, staged, vs)
  {
    hide CardPackage, StatusOf, ProfileOf, PlanFor, StatusFor, ResolveStatusOf, ScratchFits;
    var v := CardPackage();
    CardSections();
    CardProfile();
    assert P.VramOk(CARD_VRAM);
    Placement.PreparationOutcome(v, CARD_BOUNDARY);
    var p := ProfileOf(v, CARD_BOUNDARY);
    EveryPreparationResolves(p);
    var staged, vs :| ResolveStatusOf(p, PlanFor(p), staged, vs) == ResolveOk;
    assert ColdGraph.Resolved(v, CARD_BOUNDARY, staged, vs);
  }

  // ---- The card with a lowered boundary ----

  const LOW_BOUNDARY: u64 := 0x950_0000
  const SHORTFALL_MIB: nat := 0x1F6A

  /** A boundary 149 MiB into VRAM leaves a layout whose reserved region starts at zero. */
  lemma LowLayout()
    ensures Accepts(WprInputs(InputsOf(CardPackage(), LOW_BOUNDARY)))
    ensures ReservedStart(WprInputs(InputsOf(CardPackage(), LOW_BOUNDARY))) == 0
  {
    hide CardPackage, AlignDown, AlignedUp, SectionBytes, WprEnd, ReservedStart, HeapSize;
    CardSections();
    CardLayout();
    LoweringShifts(WprInputs(InputsOf(CardPackage(), CARD_BOUNDARY)), SHORTFALL_MIB);
  }

  lemma LowProfile()
    ensures StatusOf(CardPackage(), LOW_BOUNDARY) == ProfileOk
    ensures !ScratchFits(ProfileOf(CardPackage(), LOW_BOUNDARY))
  {
    hide CardPackage, SectionBytes, Accepts, ReservedStart, StatusOf, ProfileOf, ScratchFits, InputsOf;
    LowLayout();
    CardStatus(LOW_BOUNDARY);
    CardScratch(LOW_BOUNDARY);
  }

  /** So the lowered card has a profile, and preparing it fails before the FRTS placement is ever compared. */
  lemma LowCardUnderflows()
    ensures StatusOf(CardPackage(), LOW_BOUNDARY) == ProfileOk && LOW_BOUNDARY < CARD_BOUNDARY
    ensures StatusFor(ProfileOf(CardPackage(), LOW_BOUNDARY)) == FramebufferScratchUnderflow
  {
    hide CardPackage, StatusOf, ProfileOf, StatusFor, ScratchFits;
    CardSections();
    LowProfile();
    assert P.VramOk(CARD_VRAM);
    Placement.PreparationOutcome(CardPackage(), LOW_BOUNDARY);
  }
}
