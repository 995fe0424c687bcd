/** The plain records of the cold-boot planner. */
module Gsp {
  import opened Words
  import opened Falcon

  datatype QueueMemoryLayout = QueueMemoryLayout(
    queueBytes: u64,
    pageBytes: u64,
    pteBytes: u64,
    queuePageCount: u64,
    pageTableEntryCount: u64,
    pageTableBytes: u64,
    commandQueueOffset: u64,
    statusQueueOffset: u64,
    totalBytes: u64)

  /** Page counts and byte offsets of the root, the two inner levels and the image. */
  datatype Radix3Layout = Radix3Layout(
    pageCounts: seq<u64>,
    offsets: seq<u64>,
    tableBytes: u64,
    imageBytes: u64,
    allocationBytes: u64,
    allocationPages: u64)

  datatype WprLayout = WprLayout(
    fbSize: u64,
    vgaWorkspaceOffset: u64,
    vgaWorkspaceSize: u64,
    gspFwRsvdStart: u64,
    nonWprHeapOffset: u64,
    nonWprHeapSize: u64,
    gspFwWprStart: u64,
    gspFwHeapOffset: u64,
    gspFwHeapSize: u64,
    gspFwOffset: u64,
    bootBinOffset: u64,
    frtsOffset: u64,
    frtsSize: u64,
    gspFwWprEnd: u64,
    sizeOfRadix3Elf: u64,
    sizeOfBootloader: u64)

  datatype MemoryDomain = System | Framebuffer

  datatype AllocationKind =
    | QueueBacking
    | CachedArguments
    | LibosInitArguments
    | WprMetadata
    | Radix3Firmware
    | FirmwareSignature
    | GspBootloader
    | FrtsFwsecImage
    | Sec2BooterImage

  datatype DmaLayout = NoDma | Linear | PageList

  datatype Allocation = Allocation(
    kind: AllocationKind,
    domain: MemoryDomain,
    logicalBytes: u64,
    allocationBytes: u64,
    alignment: u64,
    requiresDmaMapping: bool,
    dmaLayout: DmaLayout)

  datatype ManifestInputs = ManifestInputs(
    fbSize: u64,
    vgaWorkspaceOffset: u64,
    vbiosReservedOffset: u64,
    wprEndMargin: u64,
    frtsSize: u64,
    nonWprHeapSize: u64,
    requestedWprHeapSize: u64,
    gspFirmwareImageBytes: u64,
    gspSignatureBytes: u64,
    gspBootloaderBytes: u64,
    frtsFwsecImageBytes: u64,
    sec2BooterImageBytes: u64,
    queueBytes: u64)

  datatype BootManifest = BootManifest(
    valid: bool,
    inputs: ManifestInputs,
    queues: QueueMemoryLayout,
    radix3: Radix3Layout,
    wpr: WprLayout,
    allocations: seq<Allocation>,
    bootstrapRpcPrefillImplemented: bool)

  datatype ResolvedAddresses = ResolvedAddresses(
    queueBacking: u64,
    cachedArguments: u64,
    libosInitArguments: u64,
    wprMetadata: u64,
    radix3FirmwareRoot: u64,
    firmwareSignature: u64,
    gspBootloader: u64,
    frtsFwsecImage: u64,
    sec2BooterImage: u64)

  /** The parsed descriptors the planners consume. */
  datatype Bootloader = Bootloader(
    parsed: bool,
    dataSize: u32,
    appVersion: u32,
    monitorCodeOffset: u32,
    monitorDataOffset: u32,
    manifestOffset: u32)

  datatype Fwsec = Fwsec(
    pkcDataOffset: u32,
    imemPhysBase: u32,
    imemLoadSize: u32,
    imemVirtBase: u32,
    dmemPhysBase: u32,
    dmemLoadSize: u32,
    engineIdMask: u16,
    ucodeId: byte)

  datatype Booter = Booter(parsed: bool, dataSize: u32, codeOffset: u32, codeSize: u32, dataOffset: u32, osDataSize: u32)

  datatype CheckKind = MmioMaskEqual | MmioNonZero | SharedMemoryU32Equal | HostPreparationRequired

  datatype Check = Check(kind: CheckKind, addressOrOffset: u64, mask: u32, value: u32)

  datatype BootPhase =
    | PrefillBootstrapRpcRecords
    | ResetGspForFrts
    | ExecuteFrtsFwsec
    | VerifyWpr2
    | ResetGspForRiscv
    | ProgramLibosMailbox
    | ResetSec2
    | ExecuteSec2Booter
    | VerifySec2Booter
    | ReleaseGspRiscv
    | VerifyGspRiscv
    | WaitStatusQueue

  datatype PhasePlan = PhasePlan(phase: BootPhase, actions: seq<Action>, checks: seq<Check>)

  datatype BootSequence = BootSequence(valid: bool, executableWithCurrentCore: bool, phases: seq<PhasePlan>)
}
