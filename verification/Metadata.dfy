/** The serialized WPR metadata and the libOS init page. */
module Metadata {
  import opened Words
  import opened Wrappers
  import opened Bytes
  import opened Fields
  import opened Gsp
  import Rpc

  const WPR_META_MAGIC: u64 := 0xDC3A_AE21_371A_60B3
  const WPR_META_REVISION: u64 := 1
  const WPR_META_BYTES: nat := 256
  const LIBOS_PAGE: nat := 4096
  const REGION_BYTES: nat := 32
  const REGION_CAPACITY: nat := 128

  datatype WprMetaInputs = WprMetaInputs(
    layout: WprLayout,
    radix3Elf: u64,
    bootloader: u64,
    codeOffset: u64,
    dataOffset: u64,
    manifestOffset: u64,
    signature: u64,
    signatureBytes: u64,
    vfPartitionCount: byte,
    flags: byte,
    pmuReservedSize: u32)

  function WprMetaFields(i: WprMetaInputs): seq<Field>
  {
    [ Field(0, 8, WPR_META_MAGIC), Field(8, 8, WPR_META_REVISION),
      Field(16, 8, i.radix3Elf), Field(24, 8, i.layout.sizeOfRadix3Elf),
      Field(32, 8, i.bootloader), Field(40, 8, i.layout.sizeOfBootloader),
      Field(48, 8, i.codeOffset), Field(56, 8, i.dataOffset), Field(64, 8, i.manifestOffset),
      Field(72, 8, i.signature), Field(80, 8, i.signatureBytes),
      Field(88, 8, i.layout.gspFwRsvdStart), Field(96, 8, i.layout.nonWprHeapOffset),
      Field(104, 8, i.layout.nonWprHeapSize), Field(112, 8, i.layout.gspFwWprStart),
      Field(120, 8, i.layout.gspFwHeapOffset), Field(128, 8, i.layout.gspFwHeapSize),
      Field(136, 8, i.layout.gspFwOffset), Field(144, 8, i.layout.bootBinOffset),
      Field(152, 8, i.layout.frtsOffset), Field(160, 8, i.layout.frtsSize),
      Field(168, 8, i.layout.gspFwWprEnd), Field(176, 8, i.layout.fbSize),
      Field(184, 8, i.layout.vgaWorkspaceOffset), Field(192, 8, i.layout.vgaWorkspaceSize),
      Field(200, 8, 0), Field(240, 1, i.vfPartitionCount), Field(241, 1, i.flags),
      Field(244, 4, i.pmuReservedSize), Field(248, 8, 0) ]
  }

  lemma WprMetaFieldsOrdered(i: WprMetaInputs)
    ensures Ordered(WprMetaFields(i), WPR_META_BYTES)
  {
    Pow256Values();
  }

  function WprMeta(i: WprMetaInputs): (r: seq<byte>)
    ensures |r| == WPR_META_BYTES
  {
    WprMetaFieldsOrdered(i);
    Structure(WprMetaFields(i), WPR_META_BYTES)
  }

  /** Where the booter finds the parts in system memory. */
  ghost predicate NamesParts(b: seq<byte>, i: WprMetaInputs)
    requires |b| == 256
  {
    && Load(b, 0, 8) == 0xDC3A_AE21_371A_60B3 && Load(b, 8, 8) == 1
    && Load(b, 16, 8) == i.radix3Elf && Load(b, 24, 8) == i.layout.sizeOfRadix3Elf
    && Load(b, 32, 8) == i.bootloader && Load(b, 40, 8) == i.layout.sizeOfBootloader
    && Load(b, 48, 8) == i.codeOffset && Load(b, 56, 8) == i.dataOffset && Load(b, 64, 8) == i.manifestOffset
    && Load(b, 72, 8) == i.signature && Load(b, 80, 8) == i.signatureBytes
  }

  /** Where the regions lie in video memory. */
  ghost predicate NamesRegions(b: seq<byte>, l: WprLayout)
    requires |b| == 256
  {
    && Load(b, 88, 8) == l.gspFwRsvdStart && Load(b, 96, 8) == l.nonWprHeapOffset && Load(b, 104, 8) == l.nonWprHeapSize
    && Load(b, 112, 8) == l.gspFwWprStart && Load(b, 120, 8) == l.gspFwHeapOffset && Load(b, 128, 8) == l.gspFwHeapSize
    && Load(b, 136, 8) == l.gspFwOffset && Load(b, 144, 8) == l.bootBinOffset
    && Load(b, 152, 8) == l.frtsOffset && Load(b, 160, 8) == l.frtsSize && Load(b, 168, 8) == l.gspFwWprEnd
    && Load(b, 176, 8) == l.fbSize && Load(b, 184, 8) == l.vgaWorkspaceOffset && Load(b, 192, 8) == l.vgaWorkspaceSize
  }

  /** The rest: two options and a reserved size; the boot count, the verified marker and every other byte are zero. */
  ghost predicate NamesOptions(b: seq<byte>, i: WprMetaInputs)
    requires |b| == 256
  {
    && Load(b, 240, 1) == i.vfPartitionCount && Load(b, 241, 1) == i.flags && Load(b, 244, 4) == i.pmuReservedSize
    && Load(b, 200, 8) == 0 && Load(b, 248, 8) == 0
    && forall j :: 208 <= j < 240 || 242 <= j < 244 ==> b[j] == 0
  }

  lemma FieldAt(i: WprMetaInputs, k: nat)
    requires k < 30
    ensures |WprMetaFields(i)| == 30
    ensures var f := WprMetaFields(i)[k];
      f.off + f.width <= 256 && Load(WprMeta(i), f.off, f.width) == f.value
  {
    hide Laid, Structure, Ordered, Load;
    WprMetaFieldsOrdered(i);
    FieldReadsBack(WprMetaFields(i), WPR_META_BYTES, k);
  }

  lemma WprMetaReads(i: WprMetaInputs)
    ensures NamesParts(WprMeta(i), i) && NamesRegions(WprMeta(i), i.layout) && NamesOptions(WprMeta(i), i)
  {
    hide WprMeta, Load;
    PartsRead(i);
    RegionsRead(i);
    OptionsRead(i);
  }

  lemma PartsRead(i: WprMetaInputs)
    ensures NamesParts(WprMeta(i), i)
  {
    hide WprMeta, Load;
    FieldAt(i, 0); FieldAt(i, 1); FieldAt(i, 2); FieldAt(i, 3); FieldAt(i, 4); FieldAt(i, 5);
    FieldAt(i, 6); FieldAt(i, 7); FieldAt(i, 8); FieldAt(i, 9); FieldAt(i, 10);
  }

  lemma RegionsRead(i: WprMetaInputs)
    ensures NamesRegions(WprMeta(i), i.layout)
  {
    hide WprMeta, Load;
    FieldAt(i, 11); FieldAt(i, 12); FieldAt(i, 13); FieldAt(i, 14); FieldAt(i, 15); FieldAt(i, 16); FieldAt(i, 17);
    FieldAt(i, 18); FieldAt(i, 19); FieldAt(i, 20); FieldAt(i, 21); FieldAt(i, 22); FieldAt(i, 23); FieldAt(i, 24);
  }

  lemma OptionsRead(i: WprMetaInputs)
    ensures NamesOptions(WprMeta(i), i)
  {
    hide Laid, Structure, Load;
    FieldAt(i, 25); FieldAt(i, 26); FieldAt(i, 27); FieldAt(i, 28); FieldAt(i, 29);
    forall j | 208 <= j < 240 || 242 <= j < 244 ensures WprMeta(i)[j] == 0 {
      WprMetaFieldsOrdered(i);
      GapIsZero(WprMetaFields(i), WPR_META_BYTES, j);
    }
  }

  method BuildWprMeta(i: WprMetaInputs) returns (out: seq<byte>)
    ensures out == WprMeta(i)
    ensures |out| == 256 && NamesParts(out, i) && NamesRegions(out, i.layout) && NamesOptions(out, i)
  {
    hide Laid, Zeros, Ordered, NamesParts, NamesRegions, NamesOptions;
    WprMetaReads(i);
    ghost var fs := WprMetaFields(i);
    WprMetaFieldsOrdered(i);
    var buffer := new byte[WPR_META_BYTES](_ => 0);
    Start(fs, buffer[..]);
    StoreWprAddresses(buffer, i);
    StoreWprRegions(buffer, i);
    StoreWprEnds(buffer, i);
    Store(buffer, 200, 8, 0, fs, 25);
    Store(buffer, 240, 1, i.vfPartitionCount, fs, 26);
    Store(buffer, 241, 1, i.flags, fs, 27);
    Store(buffer, 244, 4, i.pmuReservedSize, fs, 28);
    Store(buffer, 248, 8, 0, fs, 29);
    out := buffer[..];
  }

  /** The first eleven fields: where the parts are in system memory. */
  method StoreWprAddresses(buffer: array<byte>, i: WprMetaInputs)
    requires buffer.Length == WPR_META_BYTES && Ordered(WprMetaFields(i), WPR_META_BYTES)
    requires buffer[..] == Laid(WprMetaFields(i), 0, WPR_META_BYTES) + Zeros(WPR_META_BYTES)
    modifies buffer
    ensures buffer[..] == Laid(WprMetaFields(i), 11, WPR_META_BYTES) + Zeros(WPR_META_BYTES - 88)
  {
    hide Laid, Zeros, Ordered;
    ghost var fs := WprMetaFields(i);
    Store(buffer, 0, 8, WPR_META_MAGIC, fs, 0);
    Store(buffer, 8, 8, WPR_META_REVISION, fs, 1);
    Store(buffer, 16, 8, i.radix3Elf, fs, 2);
    Store(buffer, 24, 8, i.layout.sizeOfRadix3Elf, fs, 3);
    Store(buffer, 32, 8, i.bootloader, fs, 4);
    Store(buffer, 40, 8, i.layout.sizeOfBootloader, fs, 5);
    Store(buffer, 48, 8, i.codeOffset, fs, 6);
    Store(buffer, 56, 8, i.dataOffset, fs, 7);
    Store(buffer, 64, 8, i.manifestOffset, fs, 8);
    Store(buffer, 72, 8, i.signature, fs, 9);
    Store(buffer, 80, 8, i.signatureBytes, fs, 10);
  }

  /** The next fourteen: the layout of VRAM, up to the firmware and behind it. */
  method StoreWprRegions(buffer: array<byte>, i: WprMetaInputs)
    requires buffer.Length == WPR_META_BYTES && Ordered(WprMetaFields(i), WPR_META_BYTES)
    requires buffer[..] == Laid(WprMetaFields(i), 11, WPR_META_BYTES) + Zeros(WPR_META_BYTES - 88)
    modifies buffer
    ensures buffer[..] == Laid(WprMetaFields(i), 18, WPR_META_BYTES) + Zeros(WPR_META_BYTES - 144)
  {
    hide Laid, Zeros, Ordered;
    ghost var fs := WprMetaFields(i);
    Store(buffer, 88, 8, i.layout.gspFwRsvdStart, fs, 11);
    Store(buffer, 96, 8, i.layout.nonWprHeapOffset, fs, 12);
    Store(buffer, 104, 8, i.layout.nonWprHeapSize, fs, 13);
    Store(buffer, 112, 8, i.layout.gspFwWprStart, fs, 14);
    Store(buffer, 120, 8, i.layout.gspFwHeapOffset, fs, 15);
    Store(buffer, 128, 8, i.layout.gspFwHeapSize, fs, 16);
    Store(buffer, 136, 8, i.layout.gspFwOffset, fs, 17);
  }

  method StoreWprEnds(buffer: array<byte>, i: WprMetaInputs)
    requires buffer.Length == WPR_META_BYTES && Ordered(WprMetaFields(i), WPR_META_BYTES)
    requires buffer[..] == Laid(WprMetaFields(i), 18, WPR_META_BYTES) + Zeros(WPR_META_BYTES - 144)
    modifies buffer
    ensures buffer[..] == Laid(WprMetaFields(i), 25, WPR_META_BYTES) + Zeros(WPR_META_BYTES - 200)
  {
    hide Laid, Zeros, Ordered;
    ghost var fs := WprMetaFields(i);
    Store(buffer, 144, 8, i.layout.bootBinOffset, fs, 18);
    Store(buffer, 152, 8, i.layout.frtsOffset, fs, 19);
    Store(buffer, 160, 8, i.layout.frtsSize, fs, 20);
    Store(buffer, 168, 8, i.layout.gspFwWprEnd, fs, 21);
    Store(buffer, 176, 8, i.layout.fbSize, fs, 22);
    Store(buffer, 184, 8, i.layout.vgaWorkspaceOffset, fs, 23);
    Store(buffer, 192, 8, i.layout.vgaWorkspaceSize, fs, 24);
  }

  // ---- The libOS init page ----

  datatype LibosRegion = LibosRegion(id: seq<byte>, physicalAddress: u64, size: u64, kind: byte, location: byte)

  /** The first `k` characters of an id as one big-endian number. */
  function Id8To(id: seq<byte>, k: nat): (r: nat)
    requires k <= |id|
    ensures r < Pow256(k)
  {
    if k == 0 then 0 else 0x100 * Id8To(id, k - 1) + id[k - 1]
  }

  predicate IdOk(id: seq<byte>) { 0 < |id| <= 8 }

  function Id8(id: seq<byte>): u64
    requires IdOk(id)
  {
    Rpc.WordBound(|id|);
    Id8To(id, |id|)
  }

  /** Shifts the characters in from the right. */
  method MakeLibosId8(id: seq<byte>) returns (out: Option<u64>)
    ensures out == if IdOk(id) then Some(Id8(id)) else None
  {
    if |id| == 0 || |id| > 8 {
      return None;
    }
    var sum: nat := 0;
    for i := 0 to |id|
      invariant sum == Id8To(id, i)
    {
      sum := sum * 0x100 + id[i];
    }
    out := Some(Id8(id));
  }

  function Reversed(s: seq<byte>, k: nat): (r: seq<byte>)
    requires k <= |s|
    ensures |r| == k
  {
    if k == 0 then [] else [s[k - 1]] + Reversed(s, k - 1)
  }

  /** Stored little-endian, an id is its characters in reverse and then zeros: distinct ids that hold
      no NUL are stored as distinct words. */
  lemma {:induction false} IdIsReversed(id: seq<byte>, k: nat, n: nat)
    requires k <= |id| && k <= n
    ensures Le(n, Id8To(id, k)) == Reversed(id, k) + Zeros(n - k)
  {
    if k > 0 {
      IdIsReversed(id, k - 1, n - 1);
      assert Id8To(id, k) % 0x100 == id[k - 1] && Id8To(id, k) / 0x100 == Id8To(id, k - 1);
      Assoc([id[k - 1]], Reversed(id, k - 1), Zeros(n - k));
    } else {
      LeOfZero(n);
    }
  }

  lemma {:induction false} LeOfZero(n: nat)
    ensures Le(n, 0) == Zeros(n)
  {
    if n > 0 { LeOfZero(n - 1); }
  }

  predicate RegionOk(r: LibosRegion) { IdOk(r.id) && r.size != 0 }

  function RegionBytes(r: LibosRegion): (b: seq<byte>)
    requires RegionOk(r)
    ensures |b| == REGION_BYTES
  {
    Le(8, Id8(r.id)) + Le(8, r.physicalAddress) + Le(8, r.size) + [r.kind] + [r.location] + Zeros(6)
  }

  function RegionsTo(rs: seq<LibosRegion>, k: nat): (b: seq<byte>)
    requires k <= |rs| && forall i :: 0 <= i < k ==> RegionOk(rs[i])
    ensures |b| == REGION_BYTES * k
  {
    if k == 0 then [] else RegionsTo(rs, k - 1) + RegionBytes(rs[k - 1])
  }

  predicate PageBuildable(rs: seq<LibosRegion>)
  {
    |rs| <= REGION_CAPACITY && forall i :: 0 <= i < |rs| ==> RegionOk(rs[i])
  }

  function LibosPage(rs: seq<LibosRegion>): (b: seq<byte>)
    requires PageBuildable(rs)
    ensures |b| == LIBOS_PAGE
  {
    RegionsTo(rs, |rs|) + Zeros(LIBOS_PAGE - REGION_BYTES * |rs|)
  }

  method BuildLibosInitPage(rs: seq<LibosRegion>) returns (out: Option<seq<byte>>)
    ensures out == if PageBuildable(rs) then Some(LibosPage(rs)) else None
  {
    hide Zeros, RegionBytes;
    if |rs| > REGION_CAPACITY {
      return None;
    }
    var buffer := new byte[LIBOS_PAGE](_ => 0);
    AllZeros(buffer[..]);
    assert [] + Zeros(LIBOS_PAGE) == Zeros(LIBOS_PAGE);
    for i := 0 to |rs|
      invariant forall k :: 0 <= k < i ==> RegionOk(rs[k])
      invariant buffer[..] == RegionsTo(rs, i) + Zeros(LIBOS_PAGE - REGION_BYTES * i)
    {
      var id8 := MakeLibosId8(rs[i].id);
      if id8.None? || rs[i].size == 0 {
        assert !RegionOk(rs[i]);
        return None;
      }
      StoreRegion(buffer, REGION_BYTES * i, rs[i], id8.value, RegionsTo(rs, i));
    }
    out := Some(buffer[..]);
  }

  /** Stores one region where the regions so far end. */
  method StoreRegion(buffer: array<byte>, off: nat, r: LibosRegion, id8: u64, ghost front: seq<byte>)
    requires RegionOk(r) && id8 == Id8(r.id) && off == |front| && off + REGION_BYTES <= buffer.Length
    requires buffer[..] == front + Zeros(buffer.Length - off)
    modifies buffer
    ensures buffer[..] == front + RegionBytes(r) + Zeros(buffer.Length - off - REGION_BYTES)
  {
    hide Zeros, Splice, Le;
    ghost var n := buffer.Length - off;
    ghost var a, b, c := Le(8, id8), Le(8, r.physicalAddress), Le(8, r.size);
    SpliceZeros(front, n, a);
    StoreLe(buffer, off, 8, id8);
    SpliceZeros(front + a, n - 8, b);
    StoreLe(buffer, off + 8, 8, r.physicalAddress);
    SpliceZeros(front + a + b, n - 16, c);
    StoreLe(buffer, off + 16, 8, r.size);
    SpliceZeros(front + a + b + c, n - 24, [r.kind]);
    CopyInto(buffer, off + 24, [r.kind]);
    SpliceZeros(front + a + b + c + [r.kind], n - 25, [r.location]);
    CopyInto(buffer, off + 25, [r.location]);
    ZerosSplit(6, n - 32);
    Joins(front, a, b, c, [r.kind], [r.location], Zeros(6), Zeros(n - 32));
  }

  lemma Joins(p: seq<byte>, a: seq<byte>, b: seq<byte>, c: seq<byte>, d: seq<byte>, e: seq<byte>, f: seq<byte>, g: seq<byte>)
    ensures p + a + b + c + d + e + (f + g) == p + (a + b + c + d + e + f) + g
  {
  }

  /** Region `i` of the page reads back. */
  lemma {:induction false} RegionAt(rs: seq<LibosRegion>, k: nat, i: nat)
    requires i < k <= |rs| && forall j :: 0 <= j < k ==> RegionOk(rs[j])
    ensures RegionsTo(rs, k)[REGION_BYTES * i..REGION_BYTES * i + REGION_BYTES] == RegionBytes(rs[i])
  {
    hide RegionBytes;
    if i < k - 1 { RegionAt(rs, k - 1, i); }
  }

  lemma RegionReadsBack(rs: seq<LibosRegion>, i: nat)
    requires PageBuildable(rs) && i < |rs|
    ensures var p, off := LibosPage(rs), REGION_BYTES * i;
      && p[off..off + 8] == Reversed(rs[i].id, |rs[i].id|) + Zeros(8 - |rs[i].id|)
      && Load64(p, off + 8) == rs[i].physicalAddress
      && Load64(p, off + 16) == rs[i].size
      && p[off + 24] == rs[i].kind && p[off + 25] == rs[i].location
  {
    hide Zeros, UnLe, RegionsTo, RegionBytes, Le;
    RegionAt(rs, |rs|, i);
    var off, r := REGION_BYTES * i, rs[i];
    SliceLeft(RegionsTo(rs, |rs|), Zeros(LIBOS_PAGE - REGION_BYTES * |rs|), off, REGION_BYTES);
    IdIsReversed(r.id, |r.id|, 8);
    Stored64(r.physicalAddress);
    Stored64(r.size);
    RegionParts(r);
    Nested(LibosPage(rs), off, RegionBytes(r));
  }

  /** Its id reads back as the number its characters spell. */
  lemma RegionIdReads(rs: seq<LibosRegion>, i: nat)
    requires PageBuildable(rs) && i < |rs|
    ensures Load64(LibosPage(rs), REGION_BYTES * i) == Id8(rs[i].id)
  {
    hide Zeros, UnLe, RegionsTo, RegionBytes, Le;
    RegionAt(rs, |rs|, i);
    SliceLeft(RegionsTo(rs, |rs|), Zeros(LIBOS_PAGE - REGION_BYTES * |rs|), REGION_BYTES * i, REGION_BYTES);
    Stored64(Id8(rs[i].id));
    RegionParts(rs[i]);
    Nested(LibosPage(rs), REGION_BYTES * i, RegionBytes(rs[i]));
  }

  lemma RegionParts(r: LibosRegion)
    requires RegionOk(r)
    ensures var b := RegionBytes(r);
      && b[0..8] == Le(8, Id8(r.id)) && b[8..16] == Le(8, r.physicalAddress) && b[16..24] == Le(8, r.size)
      && b[24] == r.kind && b[25] == r.location
  {
    hide Le, Zeros;
  }

  lemma Nested(p: seq<byte>, off: nat, b: seq<byte>)
    requires |b| == REGION_BYTES && off + REGION_BYTES <= |p| && p[off..off + REGION_BYTES] == b
    ensures p[off..off + 8] == b[0..8] && p[off + 8..off + 16] == b[8..16] && p[off + 16..off + 24] == b[16..24]
    ensures p[off + 24] == b[24] && p[off + 25] == b[25]
  {
    SubSlice(p, off, b, 0, 8);
    SubSlice(p, off, b, 8, 8);
    SubSlice(p, off, b, 16, 8);
  }
}
