/** The prototype profile: the constants and package contents that feed the manifest. */
module Prototype {
  import opened Words
  import opened Gsp
  import opened Wpr
  import opened Manifest
  import P = Package
  import V = PackageParse
  import Q = QueueMemory

  const VGA_WORKSPACE: u64 := 0x10_0000
  const FRTS_BYTES: u64 := 0x10_0000
  const NON_WPR_HEAP: u64 := 0x10_0000
  const REQUESTED_WPR_HEAP: u64 := 0x810_0000
  const WPR_END_MARGIN: u64 := 0

  datatype ProfileStatus =
    | ProfileOk
    | PackageNotVerified
    | UnsupportedTarget
    | InvalidVram
    | MissingSection
    | SectionTooLarge
    | InvalidMetadata
    | ManifestRejected
    | InvalidReservedBoundary

  datatype Profile = Profile(
    status: ProfileStatus,
    assumesNoLowerVbiosMmuLock: bool,
    manifest: BootManifest,
    bootloader: Bootloader,
    fwsec: Fwsec,
    booter: Booter)

  /** The size of the first section of a kind, or 0. */
  function SectionBytesFrom(sections: seq<P.SectionRecord>, kind: P.SectionKind, k: nat): u64
    requires k <= |sections|
    decreases |sections| - k
  {
    if k == |sections| then 0
    else if sections[k].kind == kind then sections[k].size
    else SectionBytesFrom(sections, kind, k + 1)
  }

  function SectionBytes(v: V.PackageView, kind: P.SectionKind): u64 { SectionBytesFrom(v.sections, kind, 0) }

  function InputsOf(v: V.PackageView, boundary: u64): ManifestInputs
    requires v.metadata.vramBytes >= VGA_WORKSPACE
  {
    ManifestInputs(
      fbSize := v.metadata.vramBytes,
      vgaWorkspaceOffset := v.metadata.vramBytes - VGA_WORKSPACE,
      vbiosReservedOffset := boundary,
      wprEndMargin := WPR_END_MARGIN,
      frtsSize := FRTS_BYTES,
      nonWprHeapSize := NON_WPR_HEAP,
      requestedWprHeapSize := REQUESTED_WPR_HEAP,
      gspFirmwareImageBytes := SectionBytes(v, P.FirmwareSection),
      gspSignatureBytes := SectionBytes(v, P.SignatureSection),
      gspBootloaderBytes := SectionBytes(v, P.BootloaderSection),
      frtsFwsecImageBytes := SectionBytes(v, P.FwsecSection),
      sec2BooterImageBytes := SectionBytes(v, P.BooterSection),
      queueBytes := Q.DEFAULT_QUEUE_BYTES)
  }

  predicate VramLargeEnough(vramBytes: u64)
  {
    vramBytes > VGA_WORKSPACE + FRTS_BYTES + REQUESTED_WPR_HEAP + NON_WPR_HEAP + 0x40_0000
  }

  predicate BoundaryOk(vramBytes: u64, boundary: u64)
  {
    boundary != 0 && boundary + VGA_WORKSPACE <= vramBytes && boundary % 0x1000 == 0
  }

  predicate SectionsPresent(v: V.PackageView)
  {
    && SectionBytes(v, P.FirmwareSection) != 0 && SectionBytes(v, P.SignatureSection) != 0
    && SectionBytes(v, P.BootloaderSection) != 0 && SectionBytes(v, P.FwsecSection) != 0
    && SectionBytes(v, P.BooterSection) != 0
  }

  predicate SizesFit(v: V.PackageView)
  {
    SectionBytes(v, P.BootloaderSection) <= MAX32 && SectionBytes(v, P.BooterSection) <= MAX32
  }

  predicate MetadataOk(m: P.Metadata)
  {
    m.gspAppVersion != 0 && m.fwsecImemLoadSize != 0 && m.fwsecDmemLoadSize != 0 && m.sec2CodeSize != 0 && m.sec2DataSize != 0
  }

  /** The first thing that keeps a package and boundary from having a profile. */
  function StatusOf(v: V.PackageView, boundary: u64): ProfileStatus
  {
    if v.status != V.ParseOk then PackageNotVerified
    else if !P.IsKnown(v.metadata.pci) then UnsupportedTarget
    else if !VramLargeEnough(v.metadata.vramBytes) then InvalidVram
    else if !BoundaryOk(v.metadata.vramBytes, boundary) then InvalidReservedBoundary
    else if !SectionsPresent(v) then MissingSection
    else if !SizesFit(v) then SectionTooLarge
    else if !MetadataOk(v.metadata) then InvalidMetadata
    else if !ManifestOk(InputsOf(v, boundary)) then ManifestRejected
    else ProfileOk
  }

  function ProfileOf(v: V.PackageView, boundary: u64): Profile
    requires StatusOf(v, boundary) == ProfileOk
  {
    var m := v.metadata;
    Profile(
      ProfileOk,
      boundary == m.vramBytes - VGA_WORKSPACE,
      ManifestOf(InputsOf(v, boundary)),
      Bootloader(true, SectionBytes(v, P.BootloaderSection), m.gspAppVersion, m.gspMonitorCodeOffset, m.gspMonitorDataOffset,
                 m.gspManifestOffset),
      Fwsec(m.fwsecPkcDataOffset, m.fwsecImemPhysBase, m.fwsecImemLoadSize, m.fwsecImemVirtBase, m.fwsecDmemPhysBase,
            m.fwsecDmemLoadSize, m.fwsecEngineIdMask, m.fwsecUcodeId),
      Booter(true, SectionBytes(v, P.BooterSection), m.sec2CodeOffset, m.sec2CodeSize, m.sec2DataOffset, m.sec2DataSize))
  }

  const NO_MANIFEST := BootManifest(false, ManifestInputs(0, 0, 0, 0, 0, 0, 0, 0, 0, 0, 0, 0, 0), NO_QUEUES, NO_RADIX3, NO_WPR, [], false)
  const NO_PROFILE := Profile(PackageNotVerified, true, NO_MANIFEST, Bootloader(false, 0, 0, 0, 0, 0), Fwsec(0, 0, 0, 0, 0, 0, 0, 0), Booter(false, 0, 0, 0, 0, 0))

  /** The profile for a live boundary. */
  function BuildPrototypeProfile(v: V.PackageView, boundary: u64): Profile
  {
    if StatusOf(v, boundary) == ProfileOk then ProfileOf(v, boundary) else NO_PROFILE.(status := StatusOf(v, boundary))
  }

  /** The boundary assumed when no live one is known: the start of the VGA workspace. */
  function DefaultBoundary(v: V.PackageView): u64
  {
    if v.metadata.vramBytes > VGA_WORKSPACE then v.metadata.vramBytes - VGA_WORKSPACE else 0
  }

  /** With the prototype constants the layout's heap is never smaller than asked for, and the WPR
      end is the boundary rounded down to 128 KiB. */
  lemma PrototypeLayout(v: V.PackageView, boundary: u64)
    requires StatusOf(v, boundary) == ProfileOk
    ensures var w := ProfileOf(v, boundary).manifest.wpr;
      && w.gspFwHeapSize == REQUESTED_WPR_HEAP
      && w.gspFwWprEnd == boundary - boundary % KIB128
      && w.frtsSize == FRTS_BYTES && w.frtsOffset == w.gspFwWprEnd - FRTS_BYTES
      && w.nonWprHeapSize == NON_WPR_HEAP
      && w.gspFwRsvdStart % MIB == 0 && w.fbSize == v.metadata.vramBytes && w.gspFwRsvdStart <= w.fbSize
  {
    hide Allocations, SectionBytesFrom, Accepts;
    var i := WprInputs(InputsOf(v, boundary));
    HeapCoversRequest(i);
    RegionsAreDisjointAndAligned(i);
  }
}
