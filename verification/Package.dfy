/** The boot package: five hashed payloads behind a fixed header and a section table. */
module Package {
  import opened Words
  import opened Wrappers
  import opened Bytes
  import opened Fields
  import opened Wpr
  import S = Sha256
  import Frts

  const HEADER: nat := 160
  const RECORD: nat := 56
  const SECTIONS: nat := 5
  const TABLE_END: nat := 440
  const ALIGN: u64 := 0x1000
  const RESERVED_BYTE: nat := 99
  const RESERVED_BEGIN: nat := 116
  const VERSION: u32 := 1

  /** "RTXMACP1" */
  const MAGIC: seq<byte> := [0x52, 0x54, 0x58, 0x4D, 0x41, 0x43, 0x50, 0x31]

  datatype PciIdentity = PciIdentity(vendor: u16, device: u16, subsystemVendor: u16, subsystemDevice: u16)

  predicate IsKnown(pci: PciIdentity) { pci.vendor == 0x10DE && pci.device == 0x2489 }

  datatype Metadata = Metadata(
    pci: PciIdentity,
    vramBytes: u64,
    gspAppVersion: u32,
    gspMonitorCodeOffset: u32,
    gspMonitorDataOffset: u32,
    gspManifestOffset: u32,
    fwsecPkcDataOffset: u32,
    fwsecImemPhysBase: u32,
    fwsecImemLoadSize: u32,
    fwsecImemVirtBase: u32,
    fwsecDmemPhysBase: u32,
    fwsecDmemLoadSize: u32,
    fwsecEngineIdMask: u16,
    fwsecUcodeId: byte,
    sec2CodeOffset: u32,
    sec2CodeSize: u32,
    sec2DataOffset: u32,
    sec2DataSize: u32)

  datatype SectionKind = FirmwareSection | SignatureSection | BootloaderSection | FwsecSection | BooterSection

  /** Kinds in the order the builder writes them. */
  function KindAt(i: nat): (k: SectionKind)
    requires i < SECTIONS
    ensures Code(k) == i + 1
  {
    if i == 0 then FirmwareSection
    else if i == 1 then SignatureSection
    else if i == 2 then BootloaderSection
    else if i == 3 then FwsecSection
    else BooterSection
  }

  function Code(k: SectionKind): u32
  {
    match k
    case FirmwareSection => 1
    case SignatureSection => 2
    case BootloaderSection => 3
    case FwsecSection => 4
    case BooterSection => 5
  }

  datatype SectionRecord = SectionRecord(kind: SectionKind, offset: u64, size: u64, sha256: seq<byte>)

  predicate VramOk(vramBytes: u64) { Frts.RegionExists(vramBytes) && vramBytes % ALIGN == 0 }

  // ---- The serialized form ----

  function HeaderFields(m: Metadata, total: u64): seq<Field>
  {
    [ Field(0, 8, UnLe(MAGIC)), Field(8, 4, VERSION), Field(12, 4, HEADER), Field(16, 8, total), Field(24, 8, HEADER),
      Field(32, 4, SECTIONS), Field(36, 4, RECORD),
      Field(40, 2, m.pci.vendor), Field(42, 2, m.pci.device), Field(44, 2, m.pci.subsystemVendor),
      Field(46, 2, m.pci.subsystemDevice), Field(48, 8, m.vramBytes),
      Field(56, 4, m.gspAppVersion), Field(60, 4, m.gspMonitorCodeOffset), Field(64, 4, m.gspMonitorDataOffset),
      Field(68, 4, m.gspManifestOffset), Field(72, 4, m.fwsecPkcDataOffset), Field(76, 4, m.fwsecImemPhysBase),
      Field(80, 4, m.fwsecImemLoadSize), Field(84, 4, m.fwsecImemVirtBase), Field(88, 4, m.fwsecDmemPhysBase),
      Field(92, 4, m.fwsecDmemLoadSize), Field(96, 2, m.fwsecEngineIdMask), Field(98, 1, m.fwsecUcodeId),
      Field(100, 4, m.sec2CodeOffset), Field(104, 4, m.sec2CodeSize), Field(108, 4, m.sec2DataOffset),
      Field(112, 4, m.sec2DataSize) ]
  }

  lemma HeaderFieldsOrdered(m: Metadata, total: u64)
    ensures Ordered(HeaderFields(m, total), HEADER)
  {
    Pow256Values();
    LeOfUnLe(MAGIC);
    hide UnLe, Pow256;
  }

  function Header(m: Metadata, total: u64): (r: seq<byte>)
    ensures |r| == HEADER
  {
    HeaderFieldsOrdered(m, total);
    Structure(HeaderFields(m, total), HEADER)
  }

  function RecordBytes(r: SectionRecord): (b: seq<byte>)
    requires |r.sha256| == 32
    ensures |b| == RECORD
  {
    Le(4, Code(r.kind)) + Le(4, 0) + Le(8, r.offset) + Le(8, r.size) + r.sha256
  }

  /** Where payload `k` starts. */
  function OffsetOf(ps: seq<seq<byte>>, k: nat): nat
    requires k <= |ps|
  {
    if k == 0 then ALIGN else AlignedUp(OffsetOf(ps, k - 1) + |ps[k - 1]|, ALIGN)
  }

  function EndOf(ps: seq<seq<byte>>, k: nat): nat
    requires k < |ps|
  {
    OffsetOf(ps, k) + |ps[k]|
  }

  /** Payload `k` is not empty and neither its end nor the next start exceeds 64 bits. */
  predicate Placeable(ps: seq<seq<byte>>, k: nat)
    requires k < |ps|
  {
    ps[k] != [] && EndOf(ps, k) <= MAX64 - (if k + 1 < |ps| then ALIGN - 1 else 0)
  }

  predicate SizesOk(ps: seq<seq<byte>>)
  {
    |ps| == SECTIONS && forall k :: 0 <= k < SECTIONS ==> Placeable(ps, k)
  }

  function Total(ps: seq<seq<byte>>): u64
    requires SizesOk(ps)
  {
    assert Placeable(ps, 4);
    EndOf(ps, 4)
  }

  function RecordOf(ps: seq<seq<byte>>, k: nat): SectionRecord
    requires k < |ps| == SECTIONS && Placeable(ps, k)
  {
    SectionRecord(KindAt(k), OffsetOf(ps, k), |ps[k]|, S.Fips180(ps[k]))
  }

  function RecordsTo(ps: seq<seq<byte>>, k: nat): (r: seq<SectionRecord>)
    requires k <= |ps| == SECTIONS && forall j :: 0 <= j < k ==> Placeable(ps, j)
    ensures |r| == k
  {
    if k == 0 then [] else RecordsTo(ps, k - 1) + [RecordOf(ps, k - 1)]
  }

  function TableTo(ps: seq<seq<byte>>, k: nat): (r: seq<byte>)
    requires k <= |ps| == SECTIONS && forall j :: 0 <= j < k ==> Placeable(ps, j)
    ensures |r| == RECORD * k
  {
    if k == 0 then [] else TableTo(ps, k - 1) + RecordBytes(RecordOf(ps, k - 1))
  }

  /** The bytes after the table up to the end of payload `k - 1`. */
  function AreaTo(ps: seq<seq<byte>>, k: nat): (r: seq<byte>)
    requires k <= |ps|
    ensures |r| == if k == 0 then 0 else EndOf(ps, k - 1) - TABLE_END
  {
    if k == 0 then []
    else
      OffsetsGrow(ps, k - 1);
      AreaTo(ps, k - 1) + Zeros(OffsetOf(ps, k - 1) - TABLE_END - |AreaTo(ps, k - 1)|) + ps[k - 1]
  }

  lemma {:induction false} OffsetsGrow(ps: seq<seq<byte>>, k: nat)
    requires k <= |ps|
    ensures OffsetOf(ps, k) >= ALIGN && OffsetOf(ps, k) % ALIGN == 0
    ensures k > 0 ==> EndOf(ps, k - 1) <= OffsetOf(ps, k)
  {
    if k > 0 { OffsetsGrow(ps, k - 1); }
  }

  function File(m: Metadata, ps: seq<seq<byte>>): seq<byte>
    requires SizesOk(ps)
  {
    Header(m, Total(ps)) + TableTo(ps, SECTIONS) + AreaTo(ps, SECTIONS)
  }

  // ---- Building ----

  datatype BuildStatus = BuildOk | InvalidTarget | InvalidVram | SizeOverflow

  datatype BuildResult = BuildResult(status: BuildStatus, sections: seq<SectionRecord>, bytes: seq<byte>)

  /** Places the payloads from the first page after the table, each on its own page. */
  method PlacePayloads(ps: seq<seq<byte>>) returns (records: Option<seq<SectionRecord>>, total: u64)
    requires |ps| == SECTIONS
    ensures records.Some? <==> SizesOk(ps)
    ensures records.Some? ==> records.value == RecordsTo(ps, SECTIONS) && total == Total(ps)
  {
    hide AlignedUp, OffsetOf, EndOf, S.Fips180, KindAt;
    var cursor: u64 := ALIGN;
    var sections := [];
    FirstOffset(ps);
    for i := 0 to SECTIONS
      invariant forall k :: 0 <= k < i ==> Placeable(ps, k)
      invariant sections == RecordsTo(ps, i)
      invariant cursor == if i < SECTIONS then OffsetOf(ps, i) else EndOf(ps, 4)
    {
      NextOffset(ps, i);
      if ps[i] == [] || |ps[i]| > MAX64 - cursor {
        assert !Placeable(ps, i);
        return None, 0;
      }
      if i + 1 != SECTIONS && cursor + |ps[i]| > MAX64 - (ALIGN - 1) {
        assert !Placeable(ps, i);
        return None, 0;
      }
      var digest := S.Sha256(ps[i]);
      sections := sections + [SectionRecord(KindAt(i), cursor, |ps[i]|, digest)];
      cursor := cursor + |ps[i]|;
      if i + 1 != SECTIONS {
        cursor := AlignedUp(cursor, ALIGN);
      }
    }
    records, total := Some(sections), cursor;
  }

  lemma FirstOffset(ps: seq<seq<byte>>)
    ensures OffsetOf(ps, 0) == ALIGN
  {
  }

  lemma NextOffset(ps: seq<seq<byte>>, k: nat)
    requires k < |ps|
    ensures EndOf(ps, k) == OffsetOf(ps, k) + |ps[k]|
    ensures OffsetOf(ps, k + 1) == AlignedUp(EndOf(ps, k), ALIGN)
  {
  }

  /** Stores the header fields of a zeroed package, in offset order. */
  method StoreHeader(buffer: array<byte>, m: Metadata)
    requires TABLE_END <= buffer.Length <= MAX64 && buffer[..] == Zeros(buffer.Length)
    modifies buffer
    ensures buffer[..] == Header(m, buffer.Length) + Zeros(buffer.Length - HEADER)
  {
    hide Laid, Zeros, Ordered, Le, Header, HeaderFields;
    ghost var fs := HeaderFields(m, buffer.Length);
    WholeOrdered(m, buffer.Length);
    Start(fs, buffer[..]);
    StoreFormat(buffer, m);
    StoreTarget(buffer, m);
    StoreImages(buffer, m);
    HeaderIs(m, buffer.Length);
  }

  lemma WholeOrdered(m: Metadata, total: u64)
    requires total >= TABLE_END
    ensures Ordered(HeaderFields(m, total), total)
  {
    hide UnLe;
    HeaderFieldsOrdered(m, total);
  }

  lemma HeaderIs(m: Metadata, total: u64)
    requires total >= TABLE_END && Ordered(HeaderFields(m, total), total)
    ensures var fs := HeaderFields(m, total);
      |fs| == 28 && End(fs, 28) == 116 && Laid(fs, 28, total) + Zeros(total - 116) == Header(m, total) + Zeros(total - HEADER)
  {
    hide Laid, Ordered, Zeros;
    var fs := HeaderFields(m, total);
    HeaderFieldsOrdered(m, total);
    LaidAnySize(fs, 28, HEADER, total);
    ZerosSplit(HEADER - 116, total - HEADER);
    Assoc(Laid(fs, 28, total), Zeros(HEADER - 116), Zeros(total - HEADER));
  }

  method StoreFormat(buffer: array<byte>, m: Metadata)
    requires TABLE_END <= buffer.Length <= MAX64 && Ordered(HeaderFields(m, buffer.Length), buffer.Length)
    requires buffer[..] == Laid(HeaderFields(m, buffer.Length), 0, buffer.Length) + Zeros(buffer.Length)
    modifies buffer
    ensures buffer[..] == Laid(HeaderFields(m, buffer.Length), 7, buffer.Length) + Zeros(buffer.Length - 40)
  {
    hide Laid, Zeros, Ordered, UnLe;
    ghost var fs := HeaderFields(m, buffer.Length);
    Store(buffer, 0, 8, UnLe(MAGIC), fs, 0);
    Store(buffer, 8, 4, VERSION, fs, 1);
    Store(buffer, 12, 4, HEADER, fs, 2);
    Store(buffer, 16, 8, buffer.Length, fs, 3);
    Store(buffer, 24, 8, HEADER, fs, 4);
    Store(buffer, 32, 4, SECTIONS, fs, 5);
    Store(buffer, 36, 4, RECORD, fs, 6);
  }

  method StoreTarget(buffer: array<byte>, m: Metadata)
    requires TABLE_END <= buffer.Length <= MAX64 && Ordered(HeaderFields(m, buffer.Length), buffer.Length)
    requires buffer[..] == Laid(HeaderFields(m, buffer.Length), 7, buffer.Length) + Zeros(buffer.Length - 40)
    modifies buffer
    ensures buffer[..] == Laid(HeaderFields(m, buffer.Length), 16, buffer.Length) + Zeros(buffer.Length - 72)
  {
    hide Laid, Zeros, Ordered, UnLe;
    ghost var fs := HeaderFields(m, buffer.Length);
    Store(buffer, 40, 2, m.pci.vendor, fs, 7);
    Store(buffer, 42, 2, m.pci.device, fs, 8);
    Store(buffer, 44, 2, m.pci.subsystemVendor, fs, 9);
    Store(buffer, 46, 2, m.pci.subsystemDevice, fs, 10);
    Store(buffer, 48, 8, m.vramBytes, fs, 11);
    Store(buffer, 56, 4, m.gspAppVersion, fs, 12);
    Store(buffer, 60, 4, m.gspMonitorCodeOffset, fs, 13);
    Store(buffer, 64, 4, m.gspMonitorDataOffset, fs, 14);
    Store(buffer, 68, 4, m.gspManifestOffset, fs, 15);
  }

  method StoreImages(buffer: array<byte>, m: Metadata)
    requires TABLE_END <= buffer.Length <= MAX64 && Ordered(HeaderFields(m, buffer.Length), buffer.Length)
    requires buffer[..] == Laid(HeaderFields(m, buffer.Length), 16, buffer.Length) + Zeros(buffer.Length - 72)
    modifies buffer
    ensures buffer[..] == Laid(HeaderFields(m, buffer.Length), 28, buffer.Length) + Zeros(buffer.Length - 116)
  {
    hide Laid, Zeros, Ordered, UnLe;
    ghost var fs := HeaderFields(m, buffer.Length);
    Store(buffer, 72, 4, m.fwsecPkcDataOffset, fs, 16);
    Store(buffer, 76, 4, m.fwsecImemPhysBase, fs, 17);
    Store(buffer, 80, 4, m.fwsecImemLoadSize, fs, 18);
    Store(buffer, 84, 4, m.fwsecImemVirtBase, fs, 19);
    Store(buffer, 88, 4, m.fwsecDmemPhysBase, fs, 20);
    Store(buffer, 92, 4, m.fwsecDmemLoadSize, fs, 21);
    Store(buffer, 96, 2, m.fwsecEngineIdMask, fs, 22);
    Store(buffer, 98, 1, m.fwsecUcodeId, fs, 23);
    Store(buffer, 100, 4, m.sec2CodeOffset, fs, 24);
    Store(buffer, 104, 4, m.sec2CodeSize, fs, 25);
    Store(buffer, 108, 4, m.sec2DataOffset, fs, 26);
    Store(buffer, 112, 4, m.sec2DataSize, fs, 27);
  }

  /** Stores a number at the start of a zero run that something follows. */
  method StoreNext(buffer: array<byte>, off: nat, n: nat, value: nat, ghost front: seq<byte>, ghost zeros: nat, ghost rest: seq<byte>)
    requires off == |front| && n <= zeros && buffer[..] == front + Zeros(zeros) + rest
    modifies buffer
    ensures buffer[..] == front + Le(n, value) + Zeros(zeros - n) + rest
  {
    hide Zeros, Splice, Le;
    SpliceLeft(front + Zeros(zeros), rest, off, Le(n, value));
    SpliceZeros(front, zeros, Le(n, value));
    StoreLe(buffer, off, n, value);
  }

  method StoreRecord(buffer: array<byte>, ro: nat, r: SectionRecord, ghost front: seq<byte>, ghost zeros: nat, ghost rest: seq<byte>)
    requires |r.sha256| == 32 && ro == |front| && RECORD <= zeros && buffer[..] == front + Zeros(zeros) + rest
    modifies buffer
    ensures buffer[..] == front + RecordBytes(r) + Zeros(zeros - RECORD) + rest
  {
    hide Zeros, Splice, Le;
    ghost var a, b, c, d := Le(4, Code(r.kind)), Le(4, 0), Le(8, r.offset), Le(8, r.size);
    StoreNext(buffer, ro, 4, Code(r.kind), front, zeros, rest);
    StoreNext(buffer, ro + 4, 4, 0, front + a, zeros - 4, rest);
    StoreNext(buffer, ro + 8, 8, r.offset, front + a + b, zeros - 8, rest);
    StoreNext(buffer, ro + 16, 8, r.size, front + a + b + c, zeros - 16, rest);
    SpliceLeft(front + a + b + c + d + Zeros(zeros - 24), rest, ro + 24, r.sha256);
    SpliceZeros(front + a + b + c + d, zeros - 24, r.sha256);
    CopyInto(buffer, ro + 24, r.sha256);
    FiveParts(front, a, b, c, d, r.sha256);
  }

  lemma FiveParts(p: seq<byte>, a: seq<byte>, b: seq<byte>, c: seq<byte>, d: seq<byte>, e: seq<byte>)
    ensures p + a + b + c + d + e == p + (a + b + c + d + e)
  {
  }

  /** Copies one payload to its place, `gap` zeros after the area so far. */
  method StorePayload(buffer: array<byte>, off: nat, payload: seq<byte>, ghost front: seq<byte>, ghost area: seq<byte>, ghost zeros: nat, ghost gap: nat)
    requires off == |front| + |area| + gap && gap + |payload| <= zeros
    requires buffer[..] == front + (area + Zeros(zeros))
    modifies buffer
    ensures buffer[..] == front + (area + Zeros(gap) + payload + Zeros(zeros - gap - |payload|))
  {
    hide Zeros, Splice;
    SpliceRight(front, area + Zeros(zeros), |area| + gap, payload);
    ZerosSplit(gap, zeros - gap);
    Assoc(area, Zeros(gap), Zeros(zeros - gap));
    SpliceZeros(area + Zeros(gap), zeros - gap, payload);
    CopyInto(buffer, off, payload);
  }

  /** The header and the first `i` records, the other records still zero. */
  ghost function FrontTo(m: Metadata, ps: seq<seq<byte>>, i: nat): seq<byte>
    requires SizesOk(ps) && i <= SECTIONS
  {
    Header(m, Total(ps)) + TableTo(ps, i) + Zeros(TABLE_END - HEADER - RECORD * i)
  }

  ghost function AreaThen(ps: seq<seq<byte>>, i: nat): seq<byte>
    requires SizesOk(ps) && i <= SECTIONS
  {
    EndsInside(ps, i);
    AreaTo(ps, i) + Zeros(Total(ps) - TABLE_END - |AreaTo(ps, i)|)
  }

  lemma EndsInside(ps: seq<seq<byte>>, i: nat)
    requires SizesOk(ps) && i <= SECTIONS
    ensures i > 0 ==> EndOf(ps, i - 1) <= Total(ps)
    ensures ALIGN <= Total(ps)
    decreases SECTIONS - i
  {
    OffsetsGrow(ps, i);
    if i < SECTIONS {
      EndsInside(ps, i + 1);
    } else {
      OffsetsGrow(ps, i - 1);
    }
  }

  /** Writes record `i` and its payload. */
  method StoreSection(buffer: array<byte>, m: Metadata, ps: seq<seq<byte>>, i: nat, r: SectionRecord)
    requires SizesOk(ps) && i < SECTIONS && Placeable(ps, i) && r == RecordOf(ps, i)
    requires buffer[..] == FrontTo(m, ps, i) + AreaThen(ps, i)
    modifies buffer
    ensures buffer[..] == FrontTo(m, ps, i + 1) + AreaThen(ps, i + 1)
  {
    hide FrontTo, AreaThen, RecordOf, OffsetOf;
    RecordFields(ps, i);
    StoreSectionRecord(buffer, m, ps, i, r);
    StoreSectionPayload(buffer, m, ps, i, r.offset);
  }

  method StoreSectionRecord(buffer: array<byte>, m: Metadata, ps: seq<seq<byte>>, i: nat, r: SectionRecord)
    requires SizesOk(ps) && i < SECTIONS && Placeable(ps, i) && r == RecordOf(ps, i)
    requires buffer[..] == FrontTo(m, ps, i) + AreaThen(ps, i)
    modifies buffer
    ensures buffer[..] == FrontTo(m, ps, i + 1) + AreaThen(ps, i)
  {
    hide Zeros, Header, RecordBytes, RecordOf, OffsetOf, TableTo, FrontTo, AreaThen;
    FrontStep(m, ps, i);
    StoreRecord(buffer, HEADER + RECORD * i, r, Header(m, Total(ps)) + TableTo(ps, i), TABLE_END - HEADER - RECORD * i,
                AreaThen(ps, i));
  }

  method StoreSectionPayload(buffer: array<byte>, m: Metadata, ps: seq<seq<byte>>, i: nat, offset: nat)
    requires SizesOk(ps) && i < SECTIONS && Placeable(ps, i) && offset == OffsetOf(ps, i)
    requires buffer[..] == FrontTo(m, ps, i + 1) + AreaThen(ps, i)
    modifies buffer
    ensures buffer[..] == FrontTo(m, ps, i + 1) + AreaThen(ps, i + 1)
  {
    hide Zeros, RecordOf, OffsetOf, AreaTo, FrontTo, AreaThen;
    FrontStep(m, ps, i);
    AreaThenStep(m, ps, i);
    ghost var area := AreaTo(ps, i);
    StorePayload(buffer, offset, ps[i], FrontTo(m, ps, i + 1), area, Total(ps) - TABLE_END - |area|,
                 OffsetOf(ps, i) - TABLE_END - |area|);
  }

  lemma FrontStep(m: Metadata, ps: seq<seq<byte>>, i: nat)
    requires SizesOk(ps) && i < SECTIONS && Placeable(ps, i)
    ensures |RecordOf(ps, i).sha256| == 32 && |Header(m, Total(ps)) + TableTo(ps, i)| == HEADER + RECORD * i
    ensures FrontTo(m, ps, i) == Header(m, Total(ps)) + TableTo(ps, i) + Zeros(TABLE_END - HEADER - RECORD * i)
    ensures FrontTo(m, ps, i + 1) ==
            Header(m, Total(ps)) + TableTo(ps, i) + RecordBytes(RecordOf(ps, i)) + Zeros(TABLE_END - HEADER - RECORD * i - RECORD)
    ensures |FrontTo(m, ps, i + 1)| == TABLE_END
  {
    hide Zeros, Header, RecordBytes, RecordOf, TableTo;
    TableStep(ps, i);
    Assoc(Header(m, Total(ps)), TableTo(ps, i), RecordBytes(RecordOf(ps, i)));
  }

  lemma AreaThenStep(m: Metadata, ps: seq<seq<byte>>, i: nat)
    requires SizesOk(ps) && i < SECTIONS
    ensures TABLE_END + |AreaTo(ps, i)| <= OffsetOf(ps, i) && EndOf(ps, i) <= Total(ps)
    ensures AreaThen(ps, i) == AreaTo(ps, i) + Zeros(Total(ps) - TABLE_END - |AreaTo(ps, i)|)
    ensures AreaThen(ps, i + 1) ==
            AreaTo(ps, i) + Zeros(OffsetOf(ps, i) - TABLE_END - |AreaTo(ps, i)|) + ps[i] + Zeros(Total(ps) - EndOf(ps, i))
  {
    hide Zeros, AreaTo, OffsetOf;
    EndsInside(ps, i);
    EndsInside(ps, i + 1);
    AreaStep(ps, i);
  }

  lemma RecordFields(ps: seq<seq<byte>>, i: nat)
    requires SizesOk(ps) && i < SECTIONS && Placeable(ps, i)
    ensures RecordOf(ps, i).offset == OffsetOf(ps, i) && RecordOf(ps, i).size == |ps[i]|
    ensures RecordOf(ps, i).kind == KindAt(i) && RecordOf(ps, i).sha256 == S.Fips180(ps[i])
  {
  }

  lemma TableStep(ps: seq<seq<byte>>, i: nat)
    requires SizesOk(ps) && i < SECTIONS && Placeable(ps, i)
    ensures |RecordOf(ps, i).sha256| == 32
    ensures TableTo(ps, i + 1) == TableTo(ps, i) + RecordBytes(RecordOf(ps, i))
  {
  }

  lemma AreaStep(ps: seq<seq<byte>>, i: nat)
    requires SizesOk(ps) && i < SECTIONS
    ensures TABLE_END + |AreaTo(ps, i)| <= OffsetOf(ps, i)
    ensures AreaTo(ps, i + 1) == AreaTo(ps, i) + Zeros(OffsetOf(ps, i) - TABLE_END - |AreaTo(ps, i)|) + ps[i]
  {
    OffsetsGrow(ps, i);
  }

  /** Builds the package from metadata and its five payloads. */
  method BuildPackage(m: Metadata, ps: seq<seq<byte>>) returns (out: BuildResult)
    requires |ps| == SECTIONS
    ensures out.status == if !IsKnown(m.pci) then InvalidTarget else if !VramOk(m.vramBytes) then InvalidVram
                          else if !SizesOk(ps) then SizeOverflow else BuildOk
    ensures out.status == BuildOk ==> out.sections == RecordsTo(ps, SECTIONS) && out.bytes == File(m, ps)
  {
    hide Zeros, Header, TableTo, AreaTo, RecordsTo, OffsetOf, FrontTo, AreaThen, RecordOf;
    if !IsKnown(m.pci) {
      return BuildResult(InvalidTarget, [], []);
    }
    var command := Frts.BuildFrtsCommand(m.vramBytes);
    if command.None? || m.vramBytes % ALIGN != 0 {
      return BuildResult(InvalidVram, [], []);
    }
    var records, total := PlacePayloads(ps);
    if records.None? {
      return BuildResult(SizeOverflow, [], []);
    }
    EndsInside(ps, 0);
    var buffer := new byte[total](_ => 0);
    AllZeros(buffer[..]);
    StoreHeader(buffer, m);
    NothingStored(m, ps);
    for i := 0 to SECTIONS
      invariant buffer[..] == FrontTo(m, ps, i) + AreaThen(ps, i)
    {
      assert Placeable(ps, i);
      RecordAt(ps, SECTIONS, i);
      StoreSection(buffer, m, ps, i, records.value[i]);
    }
    AllStored(m, ps);
    out := BuildResult(BuildOk, records.value, buffer[..]);
  }

  lemma NothingStored(m: Metadata, ps: seq<seq<byte>>)
    requires SizesOk(ps) && Total(ps) >= ALIGN
    ensures FrontTo(m, ps, 0) + AreaThen(ps, 0) == Header(m, Total(ps)) + Zeros(Total(ps) - HEADER)
  {
    hide Header, Zeros;
    var h, n := Header(m, Total(ps)), Total(ps) - TABLE_END;
    assert h + TableTo(ps, 0) == h && AreaTo(ps, 0) + Zeros(n) == Zeros(n);
    ZerosSplit(TABLE_END - HEADER, n);
    Assoc(h, Zeros(TABLE_END - HEADER), Zeros(n));
  }

  lemma AllStored(m: Metadata, ps: seq<seq<byte>>)
    requires SizesOk(ps)
    ensures FrontTo(m, ps, SECTIONS) + AreaThen(ps, SECTIONS) == File(m, ps)
  {
    hide Header, TableTo, AreaTo;
    EndsInside(ps, SECTIONS);
  }

  lemma {:induction false} RecordAt(ps: seq<seq<byte>>, k: nat, i: nat)
    requires SizesOk(ps) && i < k <= SECTIONS && Placeable(ps, i)
    ensures RecordsTo(ps, k)[i] == RecordOf(ps, i)
  {
    hide RecordOf;
    if i < k - 1 { RecordAt(ps, k - 1, i); }
  }
}
