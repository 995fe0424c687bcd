/** The FRTS command for FWSEC, and patching it with its signature into the stored image. */
module Frts {
  import opened Words
  import opened Wrappers
  import opened Arith
  import opened Bytes
  import opened Fields

  const COMMAND_BYTES: nat := 44
  const COMMAND_ID: u32 := 0x15
  const READ_VBIOS_BYTES: u32 := 24
  const READ_VBIOS_FLAGS: u32 := 2
  const REGION_DESC_BYTES: u32 := 20
  const REGION_PAGES: u32 := 0x100
  const MEDIA_FRAMEBUFFER: u32 := 2
  const RESERVE: u64 := 0x20_0000
  const REGION_BYTES: u64 := 0x10_0000
  const SIGNATURE_BYTES: nat := 0x180
  const MAPPER_ENTRY: u32 := 4

  datatype FrtsCommand = FrtsCommand(bytes: seq<byte>, regionOffsetBytes: u64, regionOffset4K: u32)

  /** The VRAM sizes whose FRTS region can be named. */
  predicate RegionExists(vramBytes: u64)
  {
    vramBytes >= RESERVE && vramBytes % 0x1000 == 0 && (vramBytes - RESERVE) / 0x1000 <= MAX32
  }

  function CommandFields(region4K: u32): seq<Field>
  {
    [ Field(0, 4, 1), Field(4, 4, READ_VBIOS_BYTES), Field(8, 8, 0), Field(16, 4, 0), Field(20, 4, READ_VBIOS_FLAGS),
      Field(24, 4, 1), Field(28, 4, REGION_DESC_BYTES), Field(32, 4, region4K), Field(36, 4, REGION_PAGES),
      Field(40, 4, MEDIA_FRAMEBUFFER) ]
  }

  lemma CommandFieldsOrdered(region4K: u32)
    ensures Ordered(CommandFields(region4K), COMMAND_BYTES)
  {
    Pow256Values();
  }

  function CommandFor(vramBytes: u64): FrtsCommand
    requires RegionExists(vramBytes)
  {
    var region4K := (vramBytes - RESERVE) / 0x1000;
    CommandFieldsOrdered(region4K);
    FrtsCommand(Structure(CommandFields(region4K), COMMAND_BYTES), vramBytes - RESERVE, region4K)
  }

  method BuildFrtsCommand(vramBytes: u64) returns (out: Option<FrtsCommand>)
    ensures out == if RegionExists(vramBytes) then Some(CommandFor(vramBytes)) else None
  {
    hide Laid, Zeros, Ordered;
    if vramBytes < RESERVE {
      return None;
    }
    var region := vramBytes - RESERVE;
    if region % 0x1000 != 0 {
      return None;
    }
    var region4K := region / 0x1000;
    if region4K > MAX32 {
      return None;
    }
    ghost var fs := CommandFields(region4K);
    CommandFieldsOrdered(region4K);
    var buffer := new byte[COMMAND_BYTES](_ => 0);
    Start(fs, buffer[..]);
    StoreReadVbios(buffer, region4K);
    Store(buffer, 24, 4, 1, fs, 5);
    Store(buffer, 28, 4, REGION_DESC_BYTES, fs, 6);
    Store(buffer, 32, 4, region4K, fs, 7);
    Store(buffer, 36, 4, REGION_PAGES, fs, 8);
    Store(buffer, 40, 4, MEDIA_FRAMEBUFFER, fs, 9);
    out := Some(FrtsCommand(buffer[..], region, region4K));
  }

  /** The first five fields: reading the VBIOS. */
  method StoreReadVbios(buffer: array<byte>, region4K: u32)
    requires buffer.Length == COMMAND_BYTES && Ordered(CommandFields(region4K), COMMAND_BYTES)
    requires buffer[..] == Laid(CommandFields(region4K), 0, COMMAND_BYTES) + Zeros(COMMAND_BYTES)
    modifies buffer
    ensures buffer[..] == Laid(CommandFields(region4K), 5, COMMAND_BYTES) + Zeros(COMMAND_BYTES - 24)
  {
    hide Laid, Zeros, Ordered;
    ghost var fs := CommandFields(region4K);
    Store(buffer, 0, 4, 1, fs, 0);
    Store(buffer, 4, 4, READ_VBIOS_BYTES, fs, 1);
    Store(buffer, 8, 8, 0, fs, 2);
    Store(buffer, 16, 4, 0, fs, 3);
    Store(buffer, 20, 4, READ_VBIOS_FLAGS, fs, 4);
  }

  /** The region FWSEC is told about is the first MiB of the last two: offset and length in 4 KiB
      pages, as the firmware reads them out of the command. */
  lemma CommandNamesRegion(vramBytes: u64)
    requires RegionExists(vramBytes)
    ensures var c := CommandFor(vramBytes);
      && |c.bytes| == COMMAND_BYTES
      && Load(c.bytes, 32, 4) * 0x1000 == c.regionOffsetBytes == vramBytes - RESERVE
      && Load(c.bytes, 36, 4) * 0x1000 == REGION_BYTES
  {
    hide Structure, Ordered;
    var region4K := (vramBytes - RESERVE) / 0x1000;
    CommandFieldsOrdered(region4K);
    var fs := CommandFields(region4K);
    assert fs[7] == Field(32, 4, region4K) && fs[8] == Field(36, 4, REGION_PAGES);
    FieldReadsBack(fs, COMMAND_BYTES, 7);
    FieldReadsBack(fs, COMMAND_BYTES, 8);
  }

  /** The whole command, word by word: a VBIOS descriptor of version 1 and 24 bytes with no address, no size and flags 2,
      then a region descriptor of version 1 and 20 bytes for 256 pages of framebuffer. */
  lemma CommandReads(vramBytes: u64)
    requires RegionExists(vramBytes)
    ensures var b := CommandFor(vramBytes).bytes;
      && |b| == 44
      && Load(b, 0, 4) == 1 && Load(b, 4, 4) == 24 && Load(b, 8, 8) == 0 && Load(b, 16, 4) == 0 && Load(b, 20, 4) == 2
      && Load(b, 24, 4) == 1 && Load(b, 28, 4) == 20 && Load(b, 32, 4) == (vramBytes - 0x20_0000) / 0x1000
      && Load(b, 36, 4) == 256 && Load(b, 40, 4) == 2
  {
    hide Structure, Ordered, Load;
    var region4K := (vramBytes - RESERVE) / 0x1000;
    var fs := CommandFields(region4K);
    CommandFieldsOrdered(region4K);
    forall k | 0 <= k < 10 ensures fs[k].off + fs[k].width <= 44 && Load(CommandFor(vramBytes).bytes, fs[k].off, fs[k].width) == fs[k].value {
      FieldReadsBack(fs, COMMAND_BYTES, k);
    }
    assert fs[0].off == 0 && fs[1].off == 4 && fs[2].off == 8 && fs[3].off == 16 && fs[4].off == 20;
    assert fs[5].off == 24 && fs[6].off == 28 && fs[7].off == 32 && fs[8].off == 36 && fs[9].off == 40;
  }

  // ---- Planning the patch ----

  datatype Descriptor = Descriptor(storedSize: u32, pkcDataOffset: u32, interfaceOffset: u32, imemLoadSize: u32)

  datatype PatchStatus =
    | PatchOk
    | InvalidStoredImage
    | InterfaceHeaderOutOfRange
    | InvalidInterfaceHeader
    | InterfaceEntriesOutOfRange
    | DmemMapperNotFound
    | DmemMapperOutOfRange
    | CommandBufferOutOfRange
    | SignatureDestinationOutOfRange
    | SignatureSourceTooSmall

  datatype PatchPlan = PatchPlan(
    status: PatchStatus,
    logicalImageBytes: nat,
    initCommandField: nat,
    commandBuffer: nat,
    signatureDestination: nat,
    signatureBytes: nat)

  function AddFits(base: nat, add: nat, limit: nat): Option<nat>
  {
    if base > limit || add > limit - base then None else Some(base + add)
  }

  function RoundUp256(v: u32): nat { (v + 255) / 256 * 256 }

  /** The identifier and value of interface entry `i`; nothing past the image. */
  function EntryId(image: seq<byte>, at: nat, size: nat, i: nat): u32
  {
    if 0 <= at + i * size && at + i * size + 4 <= |image| then Load32(image, at + i * size) else 0
  }

  function EntryValue(image: seq<byte>, at: nat, size: nat, i: nat): u32
  {
    if 0 <= at + i * size && at + i * size + 8 <= |image| then Load32(image, at + i * size + 4) else 0
  }

  /** The first DMEM mapper entry at or after `k`. */
  function FirstMapper(image: seq<byte>, at: nat, size: nat, count: nat, k: nat): (r: Option<nat>)
    requires k <= count
    ensures r.None? ==> forall i :: k <= i < count ==> EntryId(image, at, size, i) != MAPPER_ENTRY
    ensures r.Some? ==> k <= r.value < count && EntryId(image, at, size, r.value) == MAPPER_ENTRY
                        && forall i :: k <= i < r.value ==> EntryId(image, at, size, i) != MAPPER_ENTRY
    decreases count - k
  {
    if k == count then None
    else if EntryId(image, at, size, k) == MAPPER_ENTRY then Some(k)
    else FirstMapper(image, at, size, count, k + 1)
  }

  /** Scans the entries in order for the mapper. */
  method ScanEntries(image: seq<byte>, at: nat, size: nat, count: nat) returns (dmemOffset: Option<u32>)
    requires size >= 8 && at + size * count <= |image|
    ensures var first := FirstMapper(image, at, size, count, 0);
      dmemOffset == if first.None? then None else Some(EntryValue(image, at, size, first.value))
  {
    hide Load32;
    for i := 0 to count
      invariant FirstMapper(image, at, size, count, 0) == FirstMapper(image, at, size, count, i)
    {
      MulMono(i + 1, count, size);
      MulMono(0, i, size);
      Distributes(i, 1, size);
      var entry := at + i * size;
      if Load32(image, entry) == MAPPER_ENTRY {
        return Some(Load32(image, entry + 4));
      }
    }
    dmemOffset := None;
  }

  /** Where the interface header lies in the image. */
  function Interface(d: Descriptor): nat { d.imemLoadSize + d.interfaceOffset }

  /** Where the entries an interface header announces end. */
  function EntriesEnd(image: seq<byte>, iface: nat): nat
    requires iface + 4 <= |image|
  {
    var header: nat, size: nat, count: nat := image[iface + 1], image[iface + 2], image[iface + 3];
    iface + header + size * count
  }

  /** The first mapper among the entries an interface header at `iface` announces. */
  function Mapper(image: seq<byte>, iface: nat): Option<nat>
    requires iface + 4 <= |image|
  {
    FirstMapper(image, iface + image[iface + 1], image[iface + 2], image[iface + 3], 0)
  }

  /** Where the first mapper entry points. */
  function MapperAt(d: Descriptor, image: seq<byte>): nat
    requires Interface(d) + 4 <= |image| && Mapper(image, Interface(d)).Some?
  {
    var iface := Interface(d);
    d.imemLoadSize + EntryValue(image, iface + image[iface + 1], image[iface + 2], Mapper(image, iface).value)
  }

  /** Header, entries and mapper all lie in the image rounded to 256 bytes. */
  function HeaderStatus(d: Descriptor, image: seq<byte>): (status: PatchStatus)
    ensures status == PatchOk ==>
              && d.storedSize > 0 && Interface(d) + 4 <= |image| && Mapper(image, Interface(d)).Some?
              && MapperAt(d, image) + 64 <= RoundUp256(d.storedSize) <= |image|
  {
    var rounded, iface := RoundUp256(d.storedSize), Interface(d);
    if d.storedSize == 0 || |image| < rounded then InvalidStoredImage
    else if iface + 4 > rounded then InterfaceHeaderOutOfRange
    else if image[iface + 1] < 4 || image[iface + 2] < 8 || image[iface + 3] == 0 then InvalidInterfaceHeader
    else if EntriesEnd(image, iface) > rounded then InterfaceEntriesOutOfRange
    else if Mapper(image, iface).None? then DmemMapperNotFound
    else if MapperAt(d, image) + 64 > rounded then DmemMapperOutOfRange
    else PatchOk
  }

  /** What the mapper announces, and the signature, lie in the image too. */
  function TargetStatus(d: Descriptor, image: seq<byte>, mapper: nat, signatureSourceBytes: nat): PatchStatus
    requires mapper + 64 <= |image|
  {
    var rounded := RoundUp256(d.storedSize);
    if Load32(image, mapper + 12) < COMMAND_BYTES || d.imemLoadSize + Load32(image, mapper + 8) + COMMAND_BYTES > rounded then
      CommandBufferOutOfRange
    else if d.imemLoadSize + d.pkcDataOffset + SIGNATURE_BYTES > rounded then SignatureDestinationOutOfRange
    else if signatureSourceBytes < SIGNATURE_BYTES then SignatureSourceTooSmall
    else PatchOk
  }

  /** The first thing that keeps an image from being patched. */
  function PatchStatusOf(d: Descriptor, image: seq<byte>, signatureSourceBytes: nat): PatchStatus
  {
    if HeaderStatus(d, image) != PatchOk then HeaderStatus(d, image)
    else TargetStatus(d, image, MapperAt(d, image), signatureSourceBytes)
  }

  /** The plan of an accepted image: the mapper's command field, its command buffer, and the signature. */
  function PatchFor(d: Descriptor, image: seq<byte>): PatchPlan
    requires HeaderStatus(d, image) == PatchOk
  {
    var mapper := MapperAt(d, image);
    PatchPlan(PatchOk, RoundUp256(d.storedSize), mapper + 44, d.imemLoadSize + Load32(image, mapper + 8),
              d.imemLoadSize + d.pkcDataOffset, SIGNATURE_BYTES)
  }

  /** The plan of an accepted image, followed through its bytes: the interface header gives the entries, the first entry
      of kind 4 the mapper, and the mapper the command buffer; everything written lies in the rounded image. */
  lemma PatchFollowsImage(d: Descriptor, image: seq<byte>, signatureSourceBytes: nat) returns (entry: nat, mapper: nat)
    requires PatchStatusOf(d, image, signatureSourceBytes) == PatchOk
    ensures var iface, rounded := d.imemLoadSize + d.interfaceOffset, (d.storedSize + 255) / 256 * 256;
      && iface + 4 <= rounded <= |image| && image[iface + 1] >= 4 && image[iface + 2] >= 8
      && Entry(image, iface, entry) + 8 <= |image|
      && 0 <= entry < image[iface + 3] && Load32(image, Entry(image, iface, entry)) == 4
      && mapper == d.imemLoadSize + Load32(image, Entry(image, iface, entry) + 4) && mapper + 64 <= rounded
      && HeaderStatus(d, image) == PatchOk && var p := PatchFor(d, image);
      && p.logicalImageBytes == rounded && p.initCommandField == mapper + 44
      && p.commandBuffer == d.imemLoadSize + Load32(image, mapper + 8) && p.commandBuffer + 44 <= rounded
      && Load32(image, mapper + 12) >= 44
      && p.signatureDestination == d.imemLoadSize + d.pkcDataOffset && p.signatureDestination + 0x180 <= rounded
      && p.signatureBytes == 0x180 <= signatureSourceBytes
  {
    hide Load32, FirstMapper;
    var iface := Interface(d);
    var first := FirstMapper(image, iface + image[iface + 1], image[iface + 2], image[iface + 3], 0);
    entry, mapper := first.value, MapperAt(d, image);
    EntryInside(image, iface, entry);
  }

  /** Where entry `i` behind an interface header lies. */
  function Entry(image: seq<byte>, iface: nat, i: nat): (at: nat)
    requires iface + 4 <= |image|
  {
    var header: nat, size: nat := image[iface + 1], image[iface + 2];
    iface + header + i * size
  }

  lemma EntryInside(image: seq<byte>, iface: nat, i: nat)
    requires iface + 4 <= |image| && image[iface + 2] >= 8 && i < image[iface + 3] && EntriesEnd(image, iface) <= |image|
    ensures Entry(image, iface, i) + 8 <= |image|
  {
    var size: nat, count: nat := image[iface + 2], image[iface + 3];
    MulMono(i + 1, count, size);
    Distributes(i, 1, size);
  }

  method PlanFwsecFrtsPatch(d: Descriptor, image: seq<byte>, signatureSourceBytes: nat) returns (out: PatchPlan)
    ensures out.status == PatchStatusOf(d, image, signatureSourceBytes)
    ensures out.status == PatchOk ==> HeaderStatus(d, image) == PatchOk && out == PatchFor(d, image)
  {
    hide Load32, EntryValue, FirstMapper, TargetStatus;
    out := PatchPlan(InvalidStoredImage, 0, 0, 0, 0, SIGNATURE_BYTES);
    if d.storedSize == 0 {
      return;
    }
    var rounded := RoundUp256(d.storedSize);
    if rounded == 0 || |image| < rounded {
      return;
    }
    var iface := AddFits(d.imemLoadSize, d.interfaceOffset, rounded);
    if iface.None? || iface.value + 4 > rounded {
      return out.(status := InterfaceHeaderOutOfRange);
    }
    var headerSize: nat, entrySize: nat, entryCount: nat := image[iface.value + 1], image[iface.value + 2], image[iface.value + 3];
    if headerSize < 4 || entrySize < 8 || entryCount == 0 {
      return out.(status := InvalidInterfaceHeader);
    }
    var entries := AddFits(iface.value, headerSize, rounded);
    if entries.None? {
      return out.(status := InterfaceEntriesOutOfRange);
    }
    MulMono(0, entrySize, entryCount);
    var tableBytes := entrySize * entryCount;
    if tableBytes > rounded - entries.value {
      return out.(status := InterfaceEntriesOutOfRange);
    }
    var dmemOffset := ScanEntries(image, entries.value, entrySize, entryCount);
    if dmemOffset.None? {
      return out.(status := DmemMapperNotFound);
    }
    out := FinishPlan(d, image, signatureSourceBytes, rounded, dmemOffset.value);
  }

  /** The checks behind the mapper entry. */
  method FinishPlan(d: Descriptor, image: seq<byte>, signatureSourceBytes: nat, rounded: nat, dmemOffset: u32)
    returns (out: PatchPlan)
    requires rounded <= |image|
    requires rounded == RoundUp256(d.storedSize)
    ensures var mapper := d.imemLoadSize + dmemOffset;
      && out.status == (if mapper + 64 > rounded then DmemMapperOutOfRange else TargetStatus(d, image, mapper, signatureSourceBytes))
      && (out.status == PatchOk ==>
            out == PatchPlan(PatchOk, rounded, mapper + 44, d.imemLoadSize + Load32(image, mapper + 8),
                             d.imemLoadSize + d.pkcDataOffset, SIGNATURE_BYTES))
  {
    hide Load32;
    out := PatchPlan(DmemMapperOutOfRange, 0, 0, 0, 0, SIGNATURE_BYTES);
    var mapper := AddFits(d.imemLoadSize, dmemOffset, rounded);
    if mapper.None? || mapper.value + 64 > rounded {
      return;
    }
    var cmdRel, cmdCapacity := Load32(image, mapper.value + 8), Load32(image, mapper.value + 12);
    var cmd := AddFits(d.imemLoadSize, cmdRel, rounded);
    if cmdCapacity < COMMAND_BYTES || cmd.None? || COMMAND_BYTES > rounded - cmd.value {
      return out.(status := CommandBufferOutOfRange);
    }
    var sigDest := AddFits(d.imemLoadSize, d.pkcDataOffset, rounded);
    if sigDest.None? || SIGNATURE_BYTES > rounded - sigDest.value {
      return out.(status := SignatureDestinationOutOfRange);
    }
    if signatureSourceBytes < SIGNATURE_BYTES {
      return out.(status := SignatureSourceTooSmall);
    }
    out := PatchPlan(PatchOk, rounded, mapper.value + 44, cmd.value, sigDest.value, SIGNATURE_BYTES);
  }

  // ---- Applying it ----

  /** The source's guards, for offsets whose sums stay within 64 bits: on others its sums wrap and its
      writes leave the image. */
  predicate Applicable(image: seq<byte>, plan: PatchPlan, signature: seq<byte>)
  {
    && plan.status == PatchOk && plan.logicalImageBytes != 0
    && plan.logicalImageBytes <= |image| && plan.signatureBytes <= |signature|
    && plan.initCommandField + 4 <= plan.logicalImageBytes
    && plan.commandBuffer + COMMAND_BYTES <= plan.logicalImageBytes
    && plan.signatureDestination + plan.signatureBytes <= plan.logicalImageBytes
  }

  /** A planned patch can be applied with any signature of the stated length. */
  lemma PlannedPatchApplies(d: Descriptor, image: seq<byte>, signature: seq<byte>)
    requires PatchStatusOf(d, image, |signature|) == PatchOk
    ensures HeaderStatus(d, image) == PatchOk && Applicable(image, PatchFor(d, image), signature)
    ensures PatchFor(d, image).initCommandField + 20 <= PatchFor(d, image).logicalImageBytes
  {
    hide HeaderStatus, Load32, MapperAt, RoundUp256;
  }

  /** The image with command id, command and signature written over it, in that order. */
  function Patched(image: seq<byte>, plan: PatchPlan, command: seq<byte>, signature: seq<byte>): (r: seq<byte>)
    requires Applicable(image, plan, signature) && |command| == COMMAND_BYTES
    ensures |r| == plan.logicalImageBytes
  {
    Splice(Splice(Splice(image[..plan.logicalImageBytes], plan.initCommandField, Le(4, COMMAND_ID)), plan.commandBuffer, command),
           plan.signatureDestination, signature[|signature| - plan.signatureBytes..])
  }

  method ApplyFwsecFrtsPatch(image: seq<byte>, plan: PatchPlan, command: FrtsCommand, signature: seq<byte>)
    returns (out: Option<seq<byte>>)
    requires |command.bytes| == COMMAND_BYTES
    ensures out == if Applicable(image, plan, signature) then Some(Patched(image, plan, command.bytes, signature)) else None
  {
    hide Splice, Le;
    if plan.status != PatchOk || plan.logicalImageBytes == 0 || |image| < plan.logicalImageBytes
       || |signature| < plan.signatureBytes {
      return None;
    }
    if plan.initCommandField + 4 > plan.logicalImageBytes
       || plan.commandBuffer + COMMAND_BYTES > plan.logicalImageBytes
       || plan.signatureDestination + plan.signatureBytes > plan.logicalImageBytes {
      return None;
    }
    var buffer := new byte[plan.logicalImageBytes](i requires 0 <= i < |image| => image[i]);
    assert buffer[..] == image[..plan.logicalImageBytes];
    StoreLe(buffer, plan.initCommandField, 4, COMMAND_ID);
    CopyInto(buffer, plan.commandBuffer, command.bytes);
    CopyInto(buffer, plan.signatureDestination, signature[|signature| - plan.signatureBytes..]);
    out := Some(buffer[..]);
  }

  predicate Apart(a: nat, n: nat, b: nat, m: nat) { a + n <= b || b + m <= a }

  /** The patch puts each part where the plan says unless a later part overwrites it, and changes no
      other byte. */
  lemma PatchTouchesOnlyItsFields(image: seq<byte>, plan: PatchPlan, command: seq<byte>, signature: seq<byte>)
    requires Applicable(image, plan, signature) && |command| == COMMAND_BYTES
    ensures var p, id := Patched(image, plan, command, signature), plan.initCommandField;
      var cmd, sig := plan.commandBuffer, plan.signatureDestination;
      && p[sig..sig + plan.signatureBytes] == signature[|signature| - plan.signatureBytes..]
      && (Apart(cmd, COMMAND_BYTES, sig, plan.signatureBytes) ==> p[cmd..cmd + COMMAND_BYTES] == command)
      && (Apart(id, 4, sig, plan.signatureBytes) && Apart(id, 4, cmd, COMMAND_BYTES) ==> p[id..id + 4] == [0x15, 0, 0, 0])
      && forall k :: 0 <= k < |p| && !(id <= k < id + 4) && !(cmd <= k < cmd + COMMAND_BYTES) && !(sig <= k < sig + plan.signatureBytes)
                     ==> p[k] == image[k]
  {
    hide Splice, Le;
    IdBytes();
    var base, tail := image[..plan.logicalImageBytes], signature[|signature| - plan.signatureBytes..];
    PartsReadBack(base, plan.initCommandField, Le(4, COMMAND_ID), plan.commandBuffer, command, plan.signatureDestination, tail);
    OtherBytesKept(base, plan.initCommandField, Le(4, COMMAND_ID), plan.commandBuffer, command, plan.signatureDestination, tail);
  }

  lemma IdBytes()
    ensures Le(4, COMMAND_ID) == [0x15, 0, 0, 0]
  {
  }

  /** Of three writes in a row each reads back where no later one overlaps it. */
  lemma PartsReadBack(s: seq<byte>, a: nat, x: seq<byte>, b: nat, y: seq<byte>, c: nat, z: seq<byte>)
    requires a + |x| <= |s| && b + |y| <= |s| && c + |z| <= |s|
    ensures var r := Splice(Splice(Splice(s, a, x), b, y), c, z);
      && r[c..c + |z|] == z
      && (Apart(b, |y|, c, |z|) ==> r[b..b + |y|] == y)
      && (Apart(a, |x|, c, |z|) && Apart(a, |x|, b, |y|) ==> r[a..a + |x|] == x)
  {
    hide Splice;
    var one := Splice(s, a, x);
    var two := Splice(one, b, y);
    SpliceAt(two, c, z, c, |z|);
    SpliceAt(two, c, z, b, |y|);
    SpliceAt(one, b, y, b, |y|);
    SpliceAt(two, c, z, a, |x|);
    SpliceAt(one, b, y, a, |x|);
    SpliceAt(s, a, x, a, |x|);
  }

  lemma OtherBytesKept(s: seq<byte>, a: nat, x: seq<byte>, b: nat, y: seq<byte>, c: nat, z: seq<byte>)
    ensures var r := Splice(Splice(Splice(s, a, x), b, y), c, z);
      forall k :: 0 <= k < |s| && !(a <= k < a + |x|) && !(b <= k < b + |y|) && !(c <= k < c + |z|) ==> r[k] == s[k]
  {
    hide Splice;
    SpliceByte(s, a, x);
    SpliceByte(Splice(s, a, x), b, y);
    SpliceByte(Splice(Splice(s, a, x), b, y), c, z);
  }

  lemma SpliceByte(s: seq<byte>, off: nat, data: seq<byte>)
    ensures forall k :: 0 <= k < |s| && !(off <= k < off + |data|) ==> Splice(s, off, data)[k] == s[k]
  {
  }
}
