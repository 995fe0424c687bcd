/** What a package guarantees: building then parsing returns everything, and whatever parses is sound. */
module PackageLaws {
  import opened Words
  import opened Bytes
  import opened Fields
  import opened Package
  import opened PackageParse
  import S = Sha256

  // ---- The header of a built package ----

  lemma FileParts(m: Metadata, ps: seq<seq<byte>>)
    requires SizesOk(ps)
    ensures |File(m, ps)| == Total(ps) && Total(ps) >= ALIGN
    ensures File(m, ps) == Header(m, Total(ps)) + (TableTo(ps, SECTIONS) + AreaTo(ps, SECTIONS))
    ensures |TableTo(ps, SECTIONS)| == TABLE_END - HEADER
  {
    hide Header, TableTo, AreaTo, OffsetOf;
    EndsInside(ps, SECTIONS);
    Assoc(Header(m, Total(ps)), TableTo(ps, SECTIONS), AreaTo(ps, SECTIONS));
  }

  /** The field reads back out of `s`. */
  ghost predicate Held(s: seq<byte>, f: Field)
  {
    f.off + f.width <= |s| && Load(s, f.off, f.width) == f.value
  }

  ghost predicate AllHeld(s: seq<byte>, fs: seq<Field>)
  {
    forall i :: 0 <= i < |fs| ==> Held(s, fs[i])
  }

  /** Every header field reads back out of the file. */
  lemma HeaderHeld(m: Metadata, ps: seq<seq<byte>>)
    requires SizesOk(ps)
    ensures AllHeld(File(m, ps), HeaderFields(m, Total(ps)))
  {
    hide HeaderFields, Ordered, Structure, File, UnLe, TableTo, AreaTo, Load;
    FileParts(m, ps);
    var fs := HeaderFields(m, Total(ps));
    HeaderFieldsOrdered(m, Total(ps));
    forall i | 0 <= i < |fs| ensures Held(File(m, ps), fs[i]) {
      FieldReadsBack(fs, HEADER, i);
      LoadLeft(Header(m, Total(ps)), TableTo(ps, SECTIONS) + AreaTo(ps, SECTIONS), fs[i].off, fs[i].width);
    }
  }

  lemma LoadLeft(a: seq<byte>, b: seq<byte>, off: nat, width: nat)
    requires off + width <= |a|
    ensures Load(a + b, off, width) == Load(a, off, width)
  {
    SliceLeft(a, b, off, width);
  }

  lemma Take(s: seq<byte>, fs: seq<Field>, i: nat, f: Field)
    requires AllHeld(s, fs) && i < |fs| && fs[i] == f
    ensures f.off + f.width <= |s| && Load(s, f.off, f.width) == f.value
  {
    hide Load;
    assert Held(s, fs[i]);
  }

  lemma FormatReads(s: seq<byte>, m: Metadata, total: u64)
    requires AllHeld(s, HeaderFields(m, total)) && |s| >= TABLE_END
    ensures Load(s, 0, 8) == UnLe(MAGIC) && Load32(s, 8) == VERSION && Load32(s, 12) == HEADER && Load64(s, 16) == total
    ensures Load64(s, 24) == HEADER && Load32(s, 32) == SECTIONS && Load32(s, 36) == RECORD
  {
    hide Load, UnLe, AllHeld;
    var fs := HeaderFields(m, total);
    Take(s, fs, 0, Field(0, 8, UnLe(MAGIC)));
    Take(s, fs, 1, Field(8, 4, VERSION));
    Take(s, fs, 2, Field(12, 4, HEADER));
    Take(s, fs, 3, Field(16, 8, total));
    Take(s, fs, 4, Field(24, 8, HEADER));
    Take(s, fs, 5, Field(32, 4, SECTIONS));
    Take(s, fs, 6, Field(36, 4, RECORD));
  }

  lemma TargetReads(s: seq<byte>, m: Metadata, total: u64)
    requires AllHeld(s, HeaderFields(m, total)) && |s| >= TABLE_END
    ensures Load16(s, 40) == m.pci.vendor && Load16(s, 42) == m.pci.device && Load16(s, 44) == m.pci.subsystemVendor
    ensures Load16(s, 46) == m.pci.subsystemDevice && Load64(s, 48) == m.vramBytes && Load32(s, 56) == m.gspAppVersion
    ensures Load32(s, 60) == m.gspMonitorCodeOffset && Load32(s, 64) == m.gspMonitorDataOffset
    ensures Load32(s, 68) == m.gspManifestOffset
  {
    hide Load, UnLe, AllHeld;
    var fs := HeaderFields(m, total);
    Take(s, fs, 7, Field(40, 2, m.pci.vendor));
    Take(s, fs, 8, Field(42, 2, m.pci.device));
    Take(s, fs, 9, Field(44, 2, m.pci.subsystemVendor));
    Take(s, fs, 10, Field(46, 2, m.pci.subsystemDevice));
    Take(s, fs, 11, Field(48, 8, m.vramBytes));
    Take(s, fs, 12, Field(56, 4, m.gspAppVersion));
    Take(s, fs, 13, Field(60, 4, m.gspMonitorCodeOffset));
    Take(s, fs, 14, Field(64, 4, m.gspMonitorDataOffset));
    Take(s, fs, 15, Field(68, 4, m.gspManifestOffset));
  }

  lemma FwsecReads(s: seq<byte>, m: Metadata, total: u64)
    requires AllHeld(s, HeaderFields(m, total)) && |s| >= TABLE_END
    ensures Load32(s, 72) == m.fwsecPkcDataOffset && Load32(s, 76) == m.fwsecImemPhysBase
    ensures Load32(s, 80) == m.fwsecImemLoadSize && Load32(s, 84) == m.fwsecImemVirtBase
    ensures Load32(s, 88) == m.fwsecDmemPhysBase && Load32(s, 92) == m.fwsecDmemLoadSize
    ensures Load16(s, 96) == m.fwsecEngineIdMask
  {
    hide Load, UnLe, AllHeld;
    var fs := HeaderFields(m, total);
    Take(s, fs, 16, Field(72, 4, m.fwsecPkcDataOffset));
    Take(s, fs, 17, Field(76, 4, m.fwsecImemPhysBase));
    Take(s, fs, 18, Field(80, 4, m.fwsecImemLoadSize));
    Take(s, fs, 19, Field(84, 4, m.fwsecImemVirtBase));
    Take(s, fs, 20, Field(88, 4, m.fwsecDmemPhysBase));
    Take(s, fs, 21, Field(92, 4, m.fwsecDmemLoadSize));
    Take(s, fs, 22, Field(96, 2, m.fwsecEngineIdMask));
  }

  lemma Sec2Reads(s: seq<byte>, m: Metadata, total: u64)
    requires AllHeld(s, HeaderFields(m, total)) && |s| >= TABLE_END
    ensures Load(s, 98, 1) == m.fwsecUcodeId
    ensures Load32(s, 100) == m.sec2CodeOffset && Load32(s, 104) == m.sec2CodeSize
    ensures Load32(s, 108) == m.sec2DataOffset && Load32(s, 112) == m.sec2DataSize
  {
    hide Load, UnLe, AllHeld;
    var fs := HeaderFields(m, total);
    Take(s, fs, 23, Field(98, 1, m.fwsecUcodeId));
    Take(s, fs, 24, Field(100, 4, m.sec2CodeOffset));
    Take(s, fs, 25, Field(104, 4, m.sec2CodeSize));
    Take(s, fs, 26, Field(108, 4, m.sec2DataOffset));
    Take(s, fs, 27, Field(112, 4, m.sec2DataSize));
  }

  lemma MetadataReads(s: seq<byte>, m: Metadata, total: u64)
    requires AllHeld(s, HeaderFields(m, total)) && |s| >= TABLE_END
    ensures MetadataOf(s) == m
  {
    hide Load, Load16, Load32, Load64, AllHeld;
    TargetReads(s, m, total);
    FwsecReads(s, m, total);
    Sec2Reads(s, m, total);
    OneByte(s, 98);
  }

  lemma OneByte(s: seq<byte>, off: nat)
    requires off < |s|
    ensures Load(s, off, 1) == s[off]
  {
    var one := s[off..off + 1];
    assert one == [s[off]] && one[1..] == [];
    assert UnLe([]) == 0;
  }

  lemma MagicReads(s: seq<byte>)
    requires |s| >= 8 && Load(s, 0, 8) == UnLe(MAGIC)
    ensures s[..8] == MAGIC
  {
    hide UnLe;
    assert s[0..8] == s[..8];
    LeOfUnLe(s[..8]);
    LeOfUnLe(MAGIC);
  }

  /** The reserved bytes of a built header are zero. */
  lemma ReservedAreZero(m: Metadata, ps: seq<seq<byte>>)
    requires SizesOk(ps)
    ensures var f := File(m, ps);
      |f| >= TABLE_END && f[RESERVED_BYTE] == 0 && forall i :: RESERVED_BEGIN <= i < HEADER ==> f[i] == 0
  {
    hide File, TableTo, AreaTo, HeaderFields, SizesOk;
    FileParts(m, ps);
    HeaderZeros(m, Total(ps));
  }

  lemma HeaderZeros(m: Metadata, total: u64)
    ensures Header(m, total)[RESERVED_BYTE] == 0
    ensures forall i :: RESERVED_BEGIN <= i < HEADER ==> Header(m, total)[i] == 0
  {
    hide Ordered, Laid, Le;
    HeaderFieldsOrdered(m, total);
    var fs := HeaderFields(m, total);
    assert |fs| == 28 && End(fs, 28) == 116 && End(fs, 24) == 99 && fs[24].off == 100;
    GapIsZero(fs, HEADER, 24);
    hide HeaderFields;
  }

  /** The bytes between two fields are zero. */
  lemma GapIsZero(fs: seq<Field>, size: nat, i: nat)
    requires Ordered(fs, size) && i < |fs|
    ensures fs[i].off <= size
    ensures forall k :: End(fs, i) <= k < fs[i].off ==> Structure(fs, size)[k] == 0
  {
    hide Le, Laid;
    assert Placed(fs, i);
    EndInside(fs, i + 1, size);
    LaidPrefix(fs, |fs|, size, i);
  }

  lemma {:induction false} LaidPrefix(fs: seq<Field>, k: nat, size: nat, i: nat)
    requires Ordered(fs, size) && i < k <= |fs|
    ensures End(fs, i) <= fs[i].off <= End(fs, i + 1) <= End(fs, k)
    ensures forall j :: End(fs, i) <= j < fs[i].off ==> Laid(fs, k, size)[j] == 0
  {
    hide Le;
    assert Placed(fs, k - 1) && Placed(fs, i);
    if i < k - 1 { LaidPrefix(fs, k - 1, size, i); }
  }

  // ---- The table and the payloads of a built package ----

  lemma {:induction false} TableRecord(ps: seq<seq<byte>>, k: nat, i: nat)
    requires SizesOk(ps) && i < k <= SECTIONS && Placeable(ps, i)
    ensures |RecordOf(ps, i).sha256| == 32
    ensures TableTo(ps, k)[RECORD * i..RECORD * i + RECORD] == RecordBytes(RecordOf(ps, i))
  {
    hide RecordBytes, RecordOf;
    TableStep(ps, i);
    TableStep(ps, k - 1);
    var before, last := TableTo(ps, k - 1), RecordBytes(RecordOf(ps, k - 1));
    if i < k - 1 {
      TableRecord(ps, k - 1, i);
      SliceLeft(before, last, RECORD * i, RECORD);
    } else {
      SliceRight(before, last, 0, RECORD);
    }
  }

  /** Record `i` reads back out of the file. */
  lemma RecordReads(m: Metadata, ps: seq<seq<byte>>, i: nat)
    requires SizesOk(ps) && i < SECTIONS
    ensures var f := File(m, ps);
      && |f| == Total(ps) >= TABLE_END
      && CodeAt(f, i) == i + 1 && Load32(f, RecordOffset(i) + 4) == 0
      && OffsetAt(f, i) == OffsetOf(ps, i) && SizeAt(f, i) == |ps[i]| && HashAt(f, i) == S.Fips180(ps[i])
  {
    hide File, Header, TableTo, AreaTo, RecordBytes, OffsetOf, S.Fips180;
    assert Placeable(ps, i);
    FileParts(m, ps);
    TableRecord(ps, SECTIONS, i);
    var f, h, t, r := File(m, ps), Header(m, Total(ps)), TableTo(ps, SECTIONS), RecordOf(ps, i);
    SliceLeft(t, AreaTo(ps, SECTIONS), RECORD * i, RECORD);
    SliceRight(h, t + AreaTo(ps, SECTIONS), RECORD * i, RECORD);
    RecordParts(r);
    Within(f, RecordOffset(i), RecordBytes(r));
  }

  lemma RecordParts(r: SectionRecord)
    requires |r.sha256| == 32
    ensures var b := RecordBytes(r);
      && UnLe(b[0..4]) == Code(r.kind) && UnLe(b[4..8]) == 0 && UnLe(b[8..16]) == r.offset && UnLe(b[16..24]) == r.size
      && b[24..56] == r.sha256
  {
    hide Le, UnLe;
    Stored32(Code(r.kind));
    Stored32(0);
    Stored64(r.offset);
    Stored64(r.size);
    var b := RecordBytes(r);
    assert b[0..4] == Le(4, Code(r.kind)) && b[4..8] == Le(4, 0) && b[8..16] == Le(8, r.offset) && b[16..24] == Le(8, r.size);
  }

  lemma Within(f: seq<byte>, ro: nat, b: seq<byte>)
    requires |b| == RECORD && ro + RECORD <= |f| && f[ro..ro + RECORD] == b
    ensures Load(f, ro, 4) == UnLe(b[0..4]) && Load(f, ro + 4, 4) == UnLe(b[4..8])
    ensures Load(f, ro + 8, 8) == UnLe(b[8..16]) && Load(f, ro + 16, 8) == UnLe(b[16..24])
    ensures f[ro + 24..ro + RECORD] == b[24..56]
  {
    hide UnLe;
    SubSlice(f, ro, b, 0, 4);
    SubSlice(f, ro, b, 4, 4);
    SubSlice(f, ro, b, 8, 8);
    SubSlice(f, ro, b, 16, 8);
    SubSlice(f, ro, b, 24, 32);
  }

  lemma {:induction false} AreaPayload(ps: seq<seq<byte>>, k: nat, i: nat)
    requires i < k <= |ps|
    ensures TABLE_END <= OffsetOf(ps, i) && EndOf(ps, i) - TABLE_END <= |AreaTo(ps, k)|
    ensures AreaTo(ps, k)[OffsetOf(ps, i) - TABLE_END..EndOf(ps, i) - TABLE_END] == ps[i]
  {
    hide Zeros, OffsetOf;
    OffsetsGrow(ps, i);
    OffsetsGrow(ps, k - 1);
    if i < k - 1 { AreaPayload(ps, k - 1, i); }
  }

  lemma PayloadReads(m: Metadata, ps: seq<seq<byte>>, i: nat)
    requires SizesOk(ps) && i < SECTIONS
    ensures EndOf(ps, i) <= |File(m, ps)| && File(m, ps)[OffsetOf(ps, i)..EndOf(ps, i)] == ps[i]
  {
    hide Header, TableTo, AreaTo, OffsetOf;
    AreaPayload(ps, SECTIONS, i);
    var front := Header(m, Total(ps)) + TableTo(ps, SECTIONS);
    SliceRight(front, AreaTo(ps, SECTIONS), OffsetOf(ps, i) - TABLE_END, |ps[i]|);
  }

  /** Payloads follow one another. */
  lemma {:induction false} PayloadsInOrder(ps: seq<seq<byte>>, i: nat, j: nat)
    requires i < j < |ps|
    ensures EndOf(ps, i) <= OffsetOf(ps, j)
  {
    OffsetsGrow(ps, j);
    if i < j - 1 { PayloadsInOrder(ps, i, j - 1); }
  }

  // ---- Round trip ----

  /** The view of a built package. */
  function ViewOf(m: Metadata, ps: seq<seq<byte>>): PackageView
    requires SizesOk(ps)
  {
    PackageView(ParseOk, m, RecordsTo(ps, SECTIONS), Total(ps))
  }

  lemma HeaderAccepted(m: Metadata, ps: seq<seq<byte>>)
    requires SizesOk(ps) && IsKnown(m.pci) && VramOk(m.vramBytes)
    ensures HeaderStatus(File(m, ps)) == ParseOk && MetadataOf(File(m, ps)) == m
  {
    hide File, Load, Load32, Load64, SizesOk, MetadataOf, HeaderFields, AllHeld, UnLe;
    FileParts(m, ps);
    var f := File(m, ps);
    HeaderHeld(m, ps);
    FormatReads(f, m, Total(ps));
    MagicReads(f);
    ReservedAreZero(m, ps);
    MetadataReads(f, m, Total(ps));
  }

  lemma RecordsAccepted(m: Metadata, ps: seq<seq<byte>>, i: nat)
    requires SizesOk(ps) && i < SECTIONS
    ensures |File(m, ps)| >= TABLE_END && RecordStatus(File(m, ps), i) == ParseOk
    ensures Placeable(ps, i) && SectionAt(File(m, ps), i) == RecordOf(ps, i) && HashOk(File(m, ps), i)
  {
    hide File, OffsetOf, CodeAt, OffsetAt, SizeAt, HashAt, S.Fips180;
    var f := File(m, ps);
    assert Placeable(ps, i);
    RecordReads(m, ps, i);
    forall j | 0 <= j < i ensures CodeAt(f, j) != CodeAt(f, i) { RecordReads(m, ps, j); }
    OffsetsGrow(ps, i);
    PayloadReads(m, ps, i);
  }

  lemma SectionsApart(m: Metadata, ps: seq<seq<byte>>)
    requires SizesOk(ps) && |File(m, ps)| >= TABLE_END
    ensures AllDisjoint(File(m, ps))
  {
    hide File, SizesOk, Disjoint;
    forall i, j | 0 <= i < j < SECTIONS ensures Disjoint(File(m, ps), i, j) { PairApart(m, ps, i, j); }
  }

  lemma PairApart(m: Metadata, ps: seq<seq<byte>>, i: nat, j: nat)
    requires SizesOk(ps) && i < j < SECTIONS && |File(m, ps)| >= TABLE_END
    ensures Disjoint(File(m, ps), i, j)
  {
    assert |ps| == SECTIONS;
    hide File, OffsetOf, OffsetAt, SizeAt, SizesOk, CodeAt, HashAt, Load32, S.Fips180;
    RecordReads(m, ps, i);
    RecordReads(m, ps, j);
    PayloadsInOrder(ps, i, j);
  }

  lemma SectionsAre(m: Metadata, ps: seq<seq<byte>>)
    requires SizesOk(ps) && |File(m, ps)| >= TABLE_END
    requires forall i :: 0 <= i < SECTIONS ==> RecordStatus(File(m, ps), i) == ParseOk
    ensures SectionsTo(File(m, ps), SECTIONS) == RecordsTo(ps, SECTIONS)
  {
    hide File, RecordStatus, RecordOf, SectionAt;
    forall i | 0 <= i < SECTIONS ensures SectionsTo(File(m, ps), SECTIONS)[i] == RecordsTo(ps, SECTIONS)[i] {
      RecordsAccepted(m, ps, i);
      RecordAt(ps, SECTIONS, i);
    }
  }

  /** Parsing a built package accepts it and returns its metadata and records. */
  lemma BuiltPackageParses(m: Metadata, ps: seq<seq<byte>>)
    requires SizesOk(ps) && IsKnown(m.pci) && VramOk(m.vramBytes)
    ensures Verdict(File(m, ps)) == ParseOk && |File(m, ps)| <= MAX64
    ensures ParsedView(File(m, ps)) == ViewOf(m, ps)
  {
    hide File, RecordStatus, HashOk, HeaderStatus, AllDisjoint, MetadataOf, RecordsTo, SectionsTo;
    var f := File(m, ps);
    FileParts(m, ps);
    HeaderAccepted(m, ps);
    forall i | 0 <= i < SECTIONS ensures RecordStatus(f, i) == ParseOk && HashOk(f, i) { RecordsAccepted(m, ps, i); }
    SectionsApart(m, ps);
    SectionsAre(m, ps);
  }

  /** And every payload is found again by its kind. */
  lemma PayloadsAreFound(m: Metadata, ps: seq<seq<byte>>, i: nat)
    requires SizesOk(ps) && i < SECTIONS
    ensures FindSection(File(m, ps), ViewOf(m, ps), KindAt(i)) == ps[i]
  {
    hide File, RecordsTo, S.Fips180, OffsetOf;
    FileParts(m, ps);
    FindSkips(m, ps, 0, i);
  }

  lemma {:induction false} FindSkips(m: Metadata, ps: seq<seq<byte>>, k: nat, i: nat)
    requires SizesOk(ps) && k <= i < SECTIONS
    ensures FindFrom(File(m, ps), RecordsTo(ps, SECTIONS), KindAt(i), k) == ps[i]
    decreases i - k
  {
    hide File, RecordsTo, S.Fips180, OffsetOf;
    assert Placeable(ps, k);
    RecordAt(ps, SECTIONS, k);
    if k < i {
      FindSkips(m, ps, k + 1, i);
    } else {
      PayloadReads(m, ps, i);
    }
  }

  // ---- The converse ----

  /** Some record has each kind. */
  ghost predicate KindPresent(s: seq<byte>, code: u32)
    requires |s| >= TABLE_END
  {
    exists i :: 0 <= i < SECTIONS && CodeAt(s, i) == code
  }

  lemma FiveDistinct(a: int, b: int, c: int, d: int, e: int, k: int)
    requires 1 <= a <= 5 && 1 <= b <= 5 && 1 <= c <= 5 && 1 <= d <= 5 && 1 <= e <= 5 && 1 <= k <= 5
    requires a != b && a != c && a != d && a != e && b != c && b != d && b != e && c != d && c != e && d != e
    ensures k == a || k == b || k == c || k == d || k == e
  {
  }

  lemma DistinctKinds(s: seq<byte>, i: nat, j: nat)
    requires |s| >= TABLE_END && i < j < SECTIONS && RecordStatus(s, j) == ParseOk
    ensures CodeAt(s, i) != CodeAt(s, j)
  {
    hide CodeAt, OffsetAt, SizeAt, Load32;
    assert SeenBefore(s, j, CodeAt(s, i));
  }

  lemma EveryKindPresent(s: seq<byte>, code: u32)
    requires |s| >= TABLE_END && 1 <= code <= 5 && forall i :: 0 <= i < SECTIONS ==> RecordStatus(s, i) == ParseOk
    ensures KindPresent(s, code)
  {
    hide CodeAt, RecordStatus;
    forall i, j | 0 <= i < j < SECTIONS ensures CodeAt(s, i) != CodeAt(s, j) { DistinctKinds(s, i, j); }
    forall i | 0 <= i < SECTIONS ensures 1 <= CodeAt(s, i) <= 5 { CodeInRange(s, i); }
    FiveDistinct(CodeAt(s, 0), CodeAt(s, 1), CodeAt(s, 2), CodeAt(s, 3), CodeAt(s, 4), code);
  }

  lemma CodeInRange(s: seq<byte>, i: nat)
    requires |s| >= TABLE_END && i < SECTIONS && RecordStatus(s, i) == ParseOk
    ensures 1 <= CodeAt(s, i) <= 5
  {
    hide CodeAt, OffsetAt, SizeAt, Load32;
  }

  /** Whatever parses holds all five kinds exactly once, each section page aligned, past the table,
      inside the file, apart from the others, and with the hash its record states. */
  lemma ParsedPackageIsSound(s: seq<byte>)
    requires Verdict(s) == ParseOk
    ensures |s| >= TABLE_END && IsKnown(MetadataOf(s).pci) && VramOk(MetadataOf(s).vramBytes)
    ensures forall code: u32 :: 1 <= code <= 5 ==> KindPresent(s, code)
    ensures forall i, j :: 0 <= i < j < SECTIONS ==> CodeAt(s, i) != CodeAt(s, j) && Disjoint(s, i, j)
    ensures forall i :: 0 <= i < SECTIONS ==>
              && TABLE_END < OffsetAt(s, i) && OffsetAt(s, i) % ALIGN == 0
              && 0 < SizeAt(s, i) && OffsetAt(s, i) + SizeAt(s, i) <= |s|
    ensures forall i :: 0 <= i < SECTIONS ==> RecordStatus(s, i) == ParseOk && HashOk(s, i)
  {
    hide CodeAt, OffsetAt, SizeAt, RecordStatus, HashOk, KindPresent, Disjoint, MetadataOf, FormatOk;
    forall code: u32 | 1 <= code <= 5 ensures KindPresent(s, code) { EveryKindPresent(s, code); }
    forall i, j | 0 <= i < j < SECTIONS ensures CodeAt(s, i) != CodeAt(s, j) { DistinctKinds(s, i, j); }
    forall i | 0 <= i < SECTIONS
      ensures TABLE_END < OffsetAt(s, i) && OffsetAt(s, i) % ALIGN == 0 && 0 < SizeAt(s, i) && OffsetAt(s, i) + SizeAt(s, i) <= |s|
    {
      Inside(s, i);
    }
  }
}
