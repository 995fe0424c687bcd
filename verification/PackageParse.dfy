/** Parsing a boot package: every structural check, then every hash. */
module PackageParse {
  import opened Words
  import opened Wrappers
  import opened Bytes
  import opened Package
  import S = Sha256
  import Frts

  datatype ParseStatus =
    | ParseOk
    | TooSmall
    | BadMagic
    | UnsupportedVersion
    | BadHeader
    | BadPackageSize
    | BadTarget
    | DuplicateOrUnknownSection
    | BadSectionRange
    | BadSectionAlignment
    | OverlappingSections
    | HashMismatch

  datatype PackageView = PackageView(status: ParseStatus, metadata: Metadata, sections: seq<SectionRecord>, packageBytes: u64)

  function Load16(s: seq<byte>, off: nat): u16
    requires off + 2 <= |s|
  {
    LeOfUnLe(s[off..off + 2]);
    Pow256Values();
    Load(s, off, 2)
  }

  function MetadataOf(s: seq<byte>): Metadata
    requires |s| >= HEADER
  {
    Metadata(PciIdentity(Load16(s, 40), Load16(s, 42), Load16(s, 44), Load16(s, 46)), Load64(s, 48),
             Load32(s, 56), Load32(s, 60), Load32(s, 64), Load32(s, 68), Load32(s, 72), Load32(s, 76), Load32(s, 80),
             Load32(s, 84), Load32(s, 88), Load32(s, 92), Load16(s, 96), s[98], Load32(s, 100), Load32(s, 104),
             Load32(s, 108), Load32(s, 112))
  }

  // ---- What each check demands ----

  predicate FormatOk(s: seq<byte>)
    requires |s| >= TABLE_END
  {
    && Load32(s, 12) == HEADER && Load64(s, 24) == HEADER && Load32(s, 32) == SECTIONS && Load32(s, 36) == RECORD
    && s[RESERVED_BYTE] == 0
    && forall i :: RESERVED_BEGIN <= i < HEADER ==> s[i] == 0
  }

  predicate TargetOk(s: seq<byte>)
    requires |s| >= TABLE_END
  {
    IsKnown(MetadataOf(s).pci) && VramOk(MetadataOf(s).vramBytes)
  }

  function HeaderStatus(s: seq<byte>): ParseStatus
  {
    if |s| < TABLE_END then TooSmall
    else if s[..8] != MAGIC then BadMagic
    else if Load32(s, 8) != VERSION then UnsupportedVersion
    else if !FormatOk(s) then BadHeader
    else if Load64(s, 16) != |s| then BadPackageSize
    else if !TargetOk(s) then BadTarget
    else ParseOk
  }

  function RecordOffset(i: nat): nat { HEADER + RECORD * i }

  function CodeAt(s: seq<byte>, i: nat): u32
    requires |s| >= TABLE_END && i < SECTIONS
  {
    Load32(s, RecordOffset(i))
  }

  function OffsetAt(s: seq<byte>, i: nat): u64
    requires |s| >= TABLE_END && i < SECTIONS
  {
    Load64(s, RecordOffset(i) + 8)
  }

  function SizeAt(s: seq<byte>, i: nat): u64
    requires |s| >= TABLE_END && i < SECTIONS
  {
    Load64(s, RecordOffset(i) + 16)
  }

  function HashAt(s: seq<byte>, i: nat): (h: seq<byte>)
    requires |s| >= TABLE_END && i < SECTIONS
    ensures |h| == 32
  {
    s[RecordOffset(i) + 24..RecordOffset(i) + RECORD]
  }

  predicate SeenBefore(s: seq<byte>, i: nat, code: u32)
    requires |s| >= TABLE_END && i <= SECTIONS
  {
    exists j :: 0 <= j < i && CodeAt(s, j) == code
  }

  function RecordStatus(s: seq<byte>, i: nat): ParseStatus
    requires |s| >= TABLE_END && i < SECTIONS
  {
    if Load32(s, RecordOffset(i) + 4) != 0 || !(1 <= CodeAt(s, i) <= 5) then DuplicateOrUnknownSection
    else if SeenBefore(s, i, CodeAt(s, i)) then DuplicateOrUnknownSection
    else if SizeAt(s, i) == 0 || OffsetAt(s, i) + SizeAt(s, i) > |s| || OffsetAt(s, i) < ALIGN then BadSectionRange
    else if OffsetAt(s, i) % ALIGN != 0 then BadSectionAlignment
    else ParseOk
  }

  /** The first complaint about records `i` on. */
  function TableStatus(s: seq<byte>, i: nat): (status: ParseStatus)
    requires |s| >= TABLE_END && i <= SECTIONS
    ensures status == ParseOk <==> forall j :: i <= j < SECTIONS ==> RecordStatus(s, j) == ParseOk
    decreases SECTIONS - i
  {
    if i == SECTIONS then ParseOk
    else if RecordStatus(s, i) != ParseOk then RecordStatus(s, i)
    else TableStatus(s, i + 1)
  }

  predicate Disjoint(s: seq<byte>, i: nat, j: nat)
    requires |s| >= TABLE_END && i < SECTIONS && j < SECTIONS
  {
    OffsetAt(s, i) + SizeAt(s, i) <= OffsetAt(s, j) || OffsetAt(s, j) + SizeAt(s, j) <= OffsetAt(s, i)
  }

  predicate AllDisjoint(s: seq<byte>)
    requires |s| >= TABLE_END
  {
    forall i, j :: 0 <= i < j < SECTIONS ==> Disjoint(s, i, j)
  }

  function PayloadAt(s: seq<byte>, i: nat): seq<byte>
    requires |s| >= TABLE_END && i < SECTIONS && RecordStatus(s, i) == ParseOk
  {
    s[OffsetAt(s, i)..OffsetAt(s, i) + SizeAt(s, i)]
  }

  predicate HashOk(s: seq<byte>, i: nat)
    requires |s| >= TABLE_END && i < SECTIONS && RecordStatus(s, i) == ParseOk
  {
    S.Fips180(PayloadAt(s, i)) == HashAt(s, i)
  }

  function Verdict(s: seq<byte>): ParseStatus
  {
    if HeaderStatus(s) != ParseOk then HeaderStatus(s)
    else if TableStatus(s, 0) != ParseOk then TableStatus(s, 0)
    else if !AllDisjoint(s) then OverlappingSections
    else if exists i :: 0 <= i < SECTIONS && !HashOk(s, i) then HashMismatch
    else ParseOk
  }

  function KindOf(code: u32): (k: SectionKind)
    requires 1 <= code <= 5
    ensures Code(k) == code
  {
    KindAt(code - 1)
  }

  function SectionAt(s: seq<byte>, i: nat): SectionRecord
    requires |s| >= TABLE_END && i < SECTIONS && RecordStatus(s, i) == ParseOk
  {
    SectionRecord(KindOf(CodeAt(s, i)), OffsetAt(s, i), SizeAt(s, i), HashAt(s, i))
  }

  function SectionsTo(s: seq<byte>, k: nat): (r: seq<SectionRecord>)
    requires |s| >= TABLE_END && k <= SECTIONS && forall i :: 0 <= i < k ==> RecordStatus(s, i) == ParseOk
    ensures |r| == k && forall i :: 0 <= i < k ==> r[i] == SectionAt(s, i)
  {
    if k == 0 then [] else SectionsTo(s, k - 1) + [SectionAt(s, k - 1)]
  }

  /** What an accepted package says. */
  function ParsedView(s: seq<byte>): PackageView
    requires Verdict(s) == ParseOk && |s| <= MAX64
  {
    PackageView(ParseOk, MetadataOf(s), SectionsTo(s, SECTIONS), |s|)
  }

  // ---- The parser ----

  method CheckHeader(s: seq<byte>) returns (status: ParseStatus)
    ensures status == HeaderStatus(s)
  {
    hide Load32, Load64, MetadataOf;
    if |s| < TABLE_END {
      return TooSmall;
    }
    if s[..8] != MAGIC {
      return BadMagic;
    }
    if Load32(s, 8) != VERSION {
      return UnsupportedVersion;
    }
    if Load32(s, 12) != HEADER || Load64(s, 24) != HEADER || Load32(s, 32) != SECTIONS || Load32(s, 36) != RECORD
       || s[RESERVED_BYTE] != 0 {
      return BadHeader;
    }
    for i := RESERVED_BEGIN to HEADER
      invariant forall k :: RESERVED_BEGIN <= k < i ==> s[k] == 0
    {
      if s[i] != 0 {
        return BadHeader;
      }
    }
    if Load64(s, 16) != |s| {
      return BadPackageSize;
    }
    var m := MetadataOf(s);
    var command := Frts.BuildFrtsCommand(m.vramBytes);
    if !IsKnown(m.pci) || command.None? || m.vramBytes % ALIGN != 0 {
      return BadTarget;
    }
    status := ParseOk;
  }

  /** The kinds of the first `i` records, by code. */
  ghost predicate Marks(seen: seq<bool>, s: seq<byte>, i: nat)
    requires |seen| == SECTIONS && |s| >= TABLE_END && i <= SECTIONS
  {
    forall k :: 0 <= k < SECTIONS ==> (seen[k] <==> SeenBefore(s, i, k + 1))
  }

  /** Checks record `i` and marks its kind. */
  method ReadRecord(s: seq<byte>, i: nat, seen: array<bool>) returns (status: ParseStatus, record: Option<SectionRecord>)
    requires |s| >= TABLE_END && i < SECTIONS && seen.Length == SECTIONS && Marks(seen[..], s, i)
    modifies seen
    ensures status == RecordStatus(s, i)
    ensures status == ParseOk ==> record == Some(SectionAt(s, i)) && Marks(seen[..], s, i + 1)
  {
    hide Load32, Load64, SeenBefore;
    record := None;
    var ro := HEADER + RECORD * i;
    var code := Load32(s, ro);
    if Load32(s, ro + 4) != 0 || !(1 <= code <= 5) {
      return DuplicateOrUnknownSection, None;
    }
    if seen[code - 1] {
      return DuplicateOrUnknownSection, None;
    }
    SeenStep(s, i);
    seen[code - 1] := true;
    var offset, size := Load64(s, ro + 8), Load64(s, ro + 16);
    if size == 0 || offset + size > |s| || offset < ALIGN {
      return BadSectionRange, None;
    }
    if offset % ALIGN != 0 {
      return BadSectionAlignment, None;
    }
    status, record := ParseOk, Some(SectionRecord(KindOf(code), offset, size, s[ro + 24..ro + 56]));
  }

  /** Reads the records in order. */
  method ReadTable(s: seq<byte>) returns (status: ParseStatus, sections: seq<SectionRecord>)
    requires |s| >= TABLE_END
    ensures status == TableStatus(s, 0)
    ensures status == ParseOk ==> sections == SectionsTo(s, SECTIONS)
  {
    hide RecordStatus, SectionAt, Marks;
    var seen := new bool[SECTIONS](_ => false);
    NoneSeen(seen[..], s);
    sections := [];
    for i := 0 to SECTIONS
      invariant forall k :: 0 <= k < i ==> RecordStatus(s, k) == ParseOk
      invariant TableStatus(s, 0) == TableStatus(s, i)
      invariant Marks(seen[..], s, i)
      invariant sections == SectionsTo(s, i)
    {
      var recordStatus, record := ReadRecord(s, i, seen);
      if recordStatus != ParseOk {
        return recordStatus, [];
      }
      sections := sections + [record.value];
    }
    status := ParseOk;
  }

  lemma NoneSeen(seen: seq<bool>, s: seq<byte>)
    requires |seen| == SECTIONS && |s| >= TABLE_END && forall k :: 0 <= k < SECTIONS ==> !seen[k]
    ensures Marks(seen, s, 0)
  {
  }

  lemma SeenStep(s: seq<byte>, i: nat)
    requires |s| >= TABLE_END && i < SECTIONS
    ensures forall code: u32 :: SeenBefore(s, i + 1, code) <==> SeenBefore(s, i, code) || CodeAt(s, i) == code
  {
    hide CodeAt;
  }

  method CheckOverlaps(s: seq<byte>, sections: seq<SectionRecord>) returns (disjoint: bool)
    requires |s| >= TABLE_END && TableStatus(s, 0) == ParseOk && sections == SectionsTo(s, SECTIONS)
    ensures disjoint <==> AllDisjoint(s)
  {
    hide OffsetAt, SizeAt, CodeAt, HashAt, RecordStatus;
    for i := 0 to SECTIONS
      invariant forall k, j :: 0 <= k < i && k < j < SECTIONS ==> Disjoint(s, k, j)
    {
      var a0, a1 := sections[i].offset, sections[i].offset + sections[i].size;
      for j := i + 1 to SECTIONS
        invariant forall k :: i < k < j ==> Disjoint(s, i, k)
      {
        var b0, b1 := sections[j].offset, sections[j].offset + sections[j].size;
        if a0 < b1 && b0 < a1 {
          assert !Disjoint(s, i, j);
          return false;
        }
      }
    }
    disjoint := true;
  }

  method CheckHashes(s: seq<byte>, sections: seq<SectionRecord>) returns (ok: bool)
    requires |s| >= TABLE_END && TableStatus(s, 0) == ParseOk && sections == SectionsTo(s, SECTIONS)
    ensures ok <==> forall i :: 0 <= i < SECTIONS ==> HashOk(s, i)
  {
    hide S.Fips180, CodeAt, RecordStatus, OffsetAt, SizeAt, HashAt;
    for i := 0 to SECTIONS
      invariant forall k :: 0 <= k < i ==> HashOk(s, k)
    {
      var r := sections[i];
      Inside(s, i);
      var digest := S.Sha256(s[r.offset..r.offset + r.size]);
      var equal := S.Sha256Equal(digest, r.sha256);
      if !equal {
        assert !HashOk(s, i);
        return false;
      }
    }
    ok := true;
  }

  lemma Inside(s: seq<byte>, i: nat)
    requires |s| >= TABLE_END && i < SECTIONS && RecordStatus(s, i) == ParseOk
    ensures ALIGN <= OffsetAt(s, i) && OffsetAt(s, i) % ALIGN == 0 && 0 < SizeAt(s, i) && OffsetAt(s, i) + SizeAt(s, i) <= |s|
  {
  }

  method ParseAndVerify(s: seq<byte>) returns (view: PackageView)
    ensures view.status == Verdict(s)
    ensures view.status == ParseOk ==> |s| <= MAX64 && view == ParsedView(s)
  {
    hide RecordStatus, HashOk, TableStatus, MetadataOf, FormatOk, AllDisjoint;
    view := PackageView(TooSmall, EMPTY_METADATA, [], 0);
    var header := CheckHeader(s);
    if header != ParseOk {
      return view.(status := header);
    }
    var table, sections := ReadTable(s);
    if table != ParseOk {
      return view.(status := table);
    }
    var disjoint := CheckOverlaps(s, sections);
    if !disjoint {
      return view.(status := OverlappingSections);
    }
    var hashes := CheckHashes(s, sections);
    if !hashes {
      return view.(status := HashMismatch);
    }
    view := PackageView(ParseOk, MetadataOf(s), sections, |s|);
  }

  const EMPTY_METADATA := Metadata(PciIdentity(0, 0, 0, 0), 0, 0, 0, 0, 0, 0, 0, 0, 0, 0, 0, 0, 0, 0, 0, 0, 0)

  /** The payload of the first section of a kind; empty when the view does not fit the bytes. */
  function FindFrom(s: seq<byte>, sections: seq<SectionRecord>, kind: SectionKind, k: nat): seq<byte>
    requires k <= |sections|
    decreases |sections| - k
  {
    if k == |sections| then []
    else if sections[k].kind == kind then
      if sections[k].offset + sections[k].size <= |s| then s[sections[k].offset..sections[k].offset + sections[k].size] else []
    else FindFrom(s, sections, kind, k + 1)
  }

  function FindSection(s: seq<byte>, view: PackageView, kind: SectionKind): seq<byte>
  {
    if view.status != ParseOk || view.packageBytes != |s| then [] else FindFrom(s, view.sections, kind, 0)
  }
}
