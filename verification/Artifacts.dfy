/** The initial contents of every resolved host buffer. */
module Artifacts {
  import opened Words
  import opened Wrappers
  import opened Gsp
  import opened Manifest
  import Radix3
  import Q = QueueMemory
  import M = Metadata
  import B = Bootstrap
  import Registry

  datatype ResolvedArtifacts = ResolvedArtifacts(
    cachedArguments: seq<byte>,
    wprMetadata: seq<byte>,
    libosInitArguments: seq<byte>,
    sharedQueueAllocation: seq<byte>,
    radix3FirmwareAllocation: seq<byte>,
    bootstrapCommandQueue: seq<byte>)

  /** A manifest as the planner makes it. */
  predicate Planned(m: BootManifest)
  {
    m.valid ==> ManifestOk(m.inputs) && m == ManifestOf(m.inputs)
  }

  /** The page lists and the firmware are the ones the manifest asks for. */
  predicate InputsMatch(m: BootManifest, a: ResolvedAddresses, b: Bootloader, queuePages: seq<u64>, radixPages: seq<u64>,
                        firmware: seq<byte>)
  {
    && m.valid && b.parsed && AddressesOk(a) && b.dataSize == m.inputs.gspBootloaderBytes
    && queuePages != [] && |queuePages| == m.queues.pageTableEntryCount && queuePages[0] == a.queueBacking
    && radixPages != [] && |radixPages| == m.radix3.allocationPages && radixPages[0] == a.radix3FirmwareRoot
    && |firmware| == m.inputs.gspFirmwareImageBytes == m.radix3.imageBytes
  }

  predicate ArtifactsOk(m: BootManifest, a: ResolvedAddresses, b: Bootloader, queuePages: seq<u64>, radixPages: seq<u64>,
                        firmware: seq<byte>, regions: seq<M.LibosRegion>, registry: seq<Registry.Entry>)
  {
    && InputsMatch(m, a, b, queuePages, radixPages, firmware)
    && M.PageBuildable(regions)
    && B.SharedBuildable(m.queues, queuePages, registry)
    && Radix3.Planned(m.radix3, radixPages)
  }

  function WprMetaFor(m: BootManifest, a: ResolvedAddresses, b: Bootloader): M.WprMetaInputs
  {
    M.WprMetaInputs(m.wpr, a.radix3FirmwareRoot, a.gspBootloader, b.monitorCodeOffset, b.monitorDataOffset, b.manifestOffset,
                    a.firmwareSignature, m.inputs.gspSignatureBytes, 0, 0, 0)
  }

  function ArtifactsOf(m: BootManifest, a: ResolvedAddresses, b: Bootloader, queuePages: seq<u64>, radixPages: seq<u64>,
                       firmware: seq<byte>, regions: seq<M.LibosRegion>, sys: B.SystemInfo, registry: seq<Registry.Entry>): ResolvedArtifacts
    requires ArtifactsOk(m, a, b, queuePages, radixPages, firmware, regions, registry)
  {
    ResolvedArtifacts(Q.CachedArguments(m.queues, queuePages[0]), M.WprMeta(WprMetaFor(m, a, b)), M.LibosPage(regions),
                      B.SharedBytes(m.queues, queuePages, sys, registry), Radix3.Allocation(m.radix3, radixPages, firmware),
                      B.CommandQueue(m.queues.queueBytes, sys, registry))
  }

  method BuildResolvedArtifacts(m: BootManifest, a: ResolvedAddresses, b: Bootloader, queuePages: seq<u64>,
                                radixPages: seq<u64>, firmware: seq<byte>, regions: seq<M.LibosRegion>, sys: B.SystemInfo,
                                registry: seq<Registry.Entry>)
    returns (out: Option<ResolvedArtifacts>)
    requires Planned(m)
    ensures out == if ArtifactsOk(m, a, b, queuePages, radixPages, firmware, regions, registry)
                   then Some(ArtifactsOf(m, a, b, queuePages, radixPages, firmware, regions, sys, registry)) else None
  {
    hide ManifestOk, AddressesOk, M.PageBuildable, B.SharedBuildable, Radix3.Planned, Q.CachedArguments, M.LibosPage,
         B.SharedBytes, Radix3.Allocation, B.CommandQueue, Allocations, Radix3.LayoutOf;
    if !m.valid || !b.parsed || !AddressesOk(a) || b.dataSize != m.inputs.gspBootloaderBytes {
      return None;
    }
    if queuePages == [] || |queuePages| != m.queues.pageTableEntryCount || queuePages[0] != a.queueBacking {
      return None;
    }
    if radixPages == [] || |radixPages| != m.radix3.allocationPages || radixPages[0] != a.radix3FirmwareRoot {
      return None;
    }
    if |firmware| != m.inputs.gspFirmwareImageBytes || |firmware| != m.radix3.imageBytes {
      return None;
    }
    var lib := M.BuildLibosInitPage(regions);
    if lib.None? {
      return None;
    }
    PlannedParts(m);
    var shared := B.BuildSharedQueueAllocationImage(m.queues, queuePages, sys, registry);
    if shared.None? {
      return None;
    }
    var radix := Radix3.BuildRadix3AllocationImage(m.radix3, radixPages, firmware);
    if radix.None? {
      return None;
    }
    var wpr := M.BuildWprMeta(WprMetaFor(m, a, b));
    out := Some(ResolvedArtifacts(shared.value.cachedArguments, wpr, lib.value, shared.value.bytes, radix.value,
                                  shared.value.commandQueue.bytes));
  }

  /** A planned manifest's layouts are the planners' own. */
  lemma PlannedParts(m: BootManifest)
    requires m.valid && Planned(m)
    ensures Q.PlanQueueMemory(m.queues.queueBytes) == Some(m.queues)
    ensures 1 <= m.radix3.imageBytes <= Radix3.MAX_IMAGE && m.radix3 == Radix3.LayoutOf(m.radix3.imageBytes)
    ensures |m.radix3.pageCounts| == 4 && |m.radix3.offsets| == 4
    ensures m.radix3.imageBytes == m.inputs.gspFirmwareImageBytes && m.queues.queueBytes == m.inputs.queueBytes
  {
    hide Allocations;
    Q.QueueLayoutShape(m.inputs.queueBytes);
  }
}
