/** What a parsed package says, read by byte offset, and the profile it gives. */
module PackageReads {
  import opened Words
  import opened Bytes
  import opened Gsp
  import opened Manifest
  import opened Prototype
  import P = Package
  import V = PackageParse
  import PackageLaws
  import Wpr
  import S = Sha256

  // ---- The format ----

  /** The header, byte by byte: the magic, the version, the sizes, the card, and the bytes that must be zero. */
  predicate HeaderConforms(s: seq<byte>)
    requires |s| >= 440
  {
    && s[..8] == [0x52, 0x54, 0x58, 0x4D, 0x41, 0x43, 0x50, 0x31]
    && Load32(s, 8) == 1 && Load32(s, 12) == 160 && Load64(s, 16) == |s| && Load64(s, 24) == 160
    && Load32(s, 32) == 5 && Load32(s, 36) == 56 && V.Load16(s, 40) == 0x10DE && V.Load16(s, 42) == 0x2489
    && Load64(s, 48) >= 0x20_0000 && Load64(s, 48) % 0x1000 == 0 && (Load64(s, 48) - 0x20_0000) / 0x1000 <= 0xFFFF_FFFF
    && s[99] == 0 && forall j :: 116 <= j < 160 ==> s[j] == 0
  }

  /** Section record `k`: a known code, and a page-aligned part of the file behind the table with the hash it states. */
  predicate SectionConforms(s: seq<byte>, k: nat)
    requires |s| >= 440 && k < 5
  {
    var at := 160 + 56 * k;
    var offset, size := Load64(s, at + 8), Load64(s, at + 16);
    && 1 <= Load32(s, at) <= 5 && Load32(s, at + 4) == 0
    && 0x1000 <= offset && offset % 0x1000 == 0 && 0 < size && offset + size <= |s|
    && S.Fips180(s[offset..offset + size]) == s[at + 24..at + 56]
  }

  /** Two records name different kinds and parts of the file that do not meet. */
  predicate Apart(s: seq<byte>, j: nat, k: nat)
    requires |s| >= 440 && j < 5 && k < 5
  {
    var x, y := 160 + 56 * j, 160 + 56 * k;
    && Load32(s, x) != Load32(s, y)
    && (Load64(s, x + 8) + Load64(s, x + 16) <= Load64(s, y + 8) || Load64(s, y + 8) + Load64(s, y + 16) <= Load64(s, x + 8))
  }

  predicate Conforms(s: seq<byte>)
  {
    && |s| >= 440 && HeaderConforms(s)
    && (forall k :: 0 <= k < 5 ==> SectionConforms(s, k))
    && forall j, k :: 0 <= j < k < 5 ==> Apart(s, j, k)
  }

  lemma HeaderExactly(s: seq<byte>)
    requires |s| >= 440
    ensures V.HeaderStatus(s) == V.ParseOk <==> HeaderConforms(s)
  {
    hide V.Load16, Load32, Load64;
  }

  lemma RecordExactly(s: seq<byte>, k: nat)
    requires |s| >= 440 && k < 5 && !V.SeenBefore(s, k, V.CodeAt(s, k))
    ensures V.RecordStatus(s, k) == V.ParseOk && V.HashOk(s, k) <==> SectionConforms(s, k)
  {
    hide Load32, Load64, S.Fips180, V.SeenBefore;
  }

  lemma ApartExactly(s: seq<byte>, j: nat, k: nat)
    requires |s| >= 440 && j < k < 5
    ensures V.CodeAt(s, j) != V.CodeAt(s, k) && V.Disjoint(s, j, k) <==> Apart(s, j, k)
  {
    hide Load32, Load64;
  }

  /** A file is accepted exactly when it conforms, byte by byte. */
  lemma ParsesExactly(s: seq<byte>)
    ensures V.Verdict(s) == V.ParseOk <==> Conforms(s)
  {
    hide V.HeaderStatus, V.RecordStatus, V.HashOk, V.CodeAt, V.Disjoint, HeaderConforms, SectionConforms, Apart;
    if |s| >= 440 {
      HeaderExactly(s);
      if V.Verdict(s) == V.ParseOk {
        ParsedConforms(s);
      } else if Conforms(s) {
        ConformingParses(s);
      }
    } else {
      ShortIsRefused(s);
    }
  }

  lemma ShortIsRefused(s: seq<byte>)
    requires |s| < 440
    ensures V.Verdict(s) != V.ParseOk
  {
  }

  lemma ParsedConforms(s: seq<byte>)
    requires |s| >= 440 && V.Verdict(s) == V.ParseOk
    ensures Conforms(s)
  {
    hide V.HeaderStatus, V.RecordStatus, V.HashOk, V.CodeAt, V.Disjoint, V.SeenBefore, HeaderConforms, SectionConforms, Apart;
    HeaderExactly(s);
    PackageLaws.ParsedPackageIsSound(s);
    forall k | 0 <= k < 5 ensures SectionConforms(s, k) {
      NotSeen(s, k);
      RecordExactly(s, k);
    }
    forall j, k | 0 <= j < k < 5 ensures Apart(s, j, k) { ApartExactly(s, j, k); }
  }

  lemma NotSeen(s: seq<byte>, k: nat)
    requires |s| >= 440 && k < 5 && forall j :: 0 <= j < k ==> V.CodeAt(s, j) != V.CodeAt(s, k)
    ensures !V.SeenBefore(s, k, V.CodeAt(s, k))
  {
    hide V.CodeAt;
  }

  lemma ConformingParses(s: seq<byte>)
    requires Conforms(s)
    ensures V.Verdict(s) == V.ParseOk
  {
    hide V.HeaderStatus, V.RecordStatus, V.HashOk, V.CodeAt, V.Disjoint, V.SeenBefore, HeaderConforms, SectionConforms, Apart;
    HeaderExactly(s);
    forall j, k | 0 <= j < k < 5 ensures V.CodeAt(s, j) != V.CodeAt(s, k) && V.Disjoint(s, j, k) { ApartExactly(s, j, k); }
    forall k | 0 <= k < 5 ensures V.RecordStatus(s, k) == V.ParseOk && V.HashOk(s, k) {
      NotSeen(s, k);
      RecordExactly(s, k);
    }
  }

  // ---- A built file ----

  /** The bytes behind the table up to payload `i` that belong to no payload. */
  lemma {:induction false} AreaGap(ps: seq<seq<byte>>, k: nat, i: nat)
    requires i < k <= |ps|
    ensures |P.AreaTo(ps, i)| <= P.OffsetOf(ps, i) - 440 <= |P.AreaTo(ps, k)|
    ensures forall j :: |P.AreaTo(ps, i)| <= j < P.OffsetOf(ps, i) - 440 ==> P.AreaTo(ps, k)[j] == 0
  {
    hide P.OffsetOf;
    P.OffsetsGrow(ps, i);
    P.OffsetsGrow(ps, k - 1);
    if i < k - 1 { AreaGap(ps, k - 1, i); }
  }

  lemma FileGap(m: P.Metadata, ps: seq<seq<byte>>, i: nat)
    requires P.SizesOk(ps) && i < 5
    ensures var f := P.File(m, ps);
      forall j :: (if i == 0 then 440 else P.EndOf(ps, i - 1)) <= j < P.OffsetOf(ps, i) && j < |f| ==> f[j] == 0
  {
    hide P.Header, P.TableTo, P.AreaTo, P.OffsetOf;
    AreaGap(ps, 5, i);
    var f, area := P.File(m, ps), P.AreaTo(ps, 5);
    forall j | (if i == 0 then 440 else P.EndOf(ps, i - 1)) <= j < P.OffsetOf(ps, i) && j < |f| ensures f[j] == 0 {
      assert f[j] == area[j - 440];
    }
  }

  /** Where payload `i` lies in a built file: its record names it, it starts at the first page behind the one before, and
      the bytes between are zero. */
  ghost predicate Packed(f: seq<byte>, ps: seq<seq<byte>>, i: nat)
    requires |f| >= 440 && i < 5 == |ps|
  {
    var at := 160 + 56 * i;
    var offset, behind := Load64(f, at + 8), if i == 0 then 440 else Load64(f, at - 48) + Load64(f, at - 40);
    && Load32(f, at) == i + 1 && Load32(f, at + 4) == 0 && Load64(f, at + 16) == |ps[i]|
    && behind <= offset < behind + 0x1000 && offset % 0x1000 == 0 && offset + |ps[i]| <= |f|
    && (forall j :: behind <= j < offset ==> f[j] == 0)
    && f[offset..offset + |ps[i]|] == ps[i] && f[at + 24..at + 56] == S.Fips180(ps[i])
  }

  lemma PayloadPacked(m: P.Metadata, ps: seq<seq<byte>>, i: nat)
    requires P.SizesOk(ps) && i < 5
    ensures |P.File(m, ps)| >= 440 && Packed(P.File(m, ps), ps, i)
  {
    hide P.File, P.OffsetOf, Load32, Load64, S.Fips180;
    PackageLaws.RecordReads(m, ps, i);
    PackageLaws.PayloadReads(m, ps, i);
    FileGap(m, ps, i);
    if i > 0 {
      PackageLaws.RecordReads(m, ps, i - 1);
      P.NextOffset(ps, i - 1);
    } else {
      P.FirstOffset(ps);
    }
  }

  /** The metadata, word by word. */
  predicate Tells(f: seq<byte>, m: P.Metadata)
    requires |f| >= 440
  {
    && V.Load16(f, 40) == m.pci.vendor && V.Load16(f, 42) == m.pci.device
    && V.Load16(f, 44) == m.pci.subsystemVendor && V.Load16(f, 46) == m.pci.subsystemDevice
    && Load64(f, 48) == m.vramBytes && Load32(f, 56) == m.gspAppVersion
    && Load32(f, 60) == m.gspMonitorCodeOffset && Load32(f, 64) == m.gspMonitorDataOffset && Load32(f, 68) == m.gspManifestOffset
    && Load32(f, 72) == m.fwsecPkcDataOffset && Load32(f, 76) == m.fwsecImemPhysBase && Load32(f, 80) == m.fwsecImemLoadSize
    && Load32(f, 84) == m.fwsecImemVirtBase && Load32(f, 88) == m.fwsecDmemPhysBase && Load32(f, 92) == m.fwsecDmemLoadSize
    && V.Load16(f, 96) == m.fwsecEngineIdMask && f[98] == m.fwsecUcodeId
    && Load32(f, 100) == m.sec2CodeOffset && Load32(f, 104) == m.sec2CodeSize
    && Load32(f, 108) == m.sec2DataOffset && Load32(f, 112) == m.sec2DataSize
  }

  /** A built file byte by byte: it conforms, tells its metadata, and packs its payloads tightly to its end. */
  lemma BuiltFileReads(m: P.Metadata, ps: seq<seq<byte>>)
    requires P.SizesOk(ps) && P.IsKnown(m.pci) && P.VramOk(m.vramBytes)
    ensures var f := P.File(m, ps);
      && Conforms(f) && Tells(f, m)
      && (forall i :: 0 <= i < 5 ==> Packed(f, ps, i))
      && |f| == Load64(f, 392) + Load64(f, 400)
  {
    assert |ps| == 5;
    hide P.File, P.OffsetOf, Load32, Load64, V.Load16, P.SizesOk, Packed, V.Verdict, Conforms, S.Fips180;
    PackageLaws.BuiltPackageParses(m, ps);
    ParsesExactly(P.File(m, ps));
    PackageLaws.HeaderAccepted(m, ps);
    forall i | 0 <= i < 5 ensures |P.File(m, ps)| >= 440 && Packed(P.File(m, ps), ps, i) { PayloadPacked(m, ps, i); }
    EndReads(m, ps);
  }

  lemma EndReads(m: P.Metadata, ps: seq<seq<byte>>)
    requires P.SizesOk(ps)
    ensures var f := P.File(m, ps);
      |f| >= 440 && |f| == Load64(f, 392) + Load64(f, 400)
  {
    hide P.File, P.OffsetOf, Load32, Load64, S.Fips180;
    PackageLaws.RecordReads(m, ps, 4);
  }

  // ---- The profile ----

  /** The two descriptors of the first loads, and the booter's, as the package has them. */
  ghost predicate Descriptors(s: seq<byte>, p: Profile)
    requires |s| >= 440
  {
    && p.bootloader.appVersion == Load32(s, 56) && p.bootloader.monitorCodeOffset == Load32(s, 60)
    && p.bootloader.monitorDataOffset == Load32(s, 64) && p.bootloader.manifestOffset == Load32(s, 68)
    && p.fwsec.pkcDataOffset == Load32(s, 72) && p.fwsec.imemPhysBase == Load32(s, 76) && p.fwsec.imemLoadSize == Load32(s, 80)
    && p.fwsec.imemVirtBase == Load32(s, 84) && p.fwsec.dmemPhysBase == Load32(s, 88) && p.fwsec.dmemLoadSize == Load32(s, 92)
    && p.fwsec.engineIdMask == V.Load16(s, 96) && p.fwsec.ucodeId == s[98]
    && p.booter.codeOffset == Load32(s, 100) && p.booter.codeSize == Load32(s, 104)
    && p.booter.dataOffset == Load32(s, 108) && p.booter.osDataSize == Load32(s, 112)
  }

  /** The manifest's inputs: the card's memory, the constants, and the size of each section by its code. */
  ghost predicate Inputs(s: seq<byte>, i: ManifestInputs, boundary: u64)
    requires |s| >= 440
  {
    && i.fbSize == Load64(s, 48) && i.vgaWorkspaceOffset == Load64(s, 48) - 0x10_0000 && i.vbiosReservedOffset == boundary
    && i.wprEndMargin == 0 && i.frtsSize == 0x10_0000 && i.nonWprHeapSize == 0x10_0000 && i.requestedWprHeapSize == 0x810_0000
    && i.queueBytes == 0x4_0000
    && forall k :: 0 <= k < 5 ==> Sized(Load32(s, 160 + 56 * k), Load64(s, 160 + 56 * k + 16), i)
  }

  predicate Sized(code: u32, size: u64, i: ManifestInputs)
  {
    && (code == 1 ==> i.gspFirmwareImageBytes == size)
    && (code == 2 ==> i.gspSignatureBytes == size)
    && (code == 3 ==> i.gspBootloaderBytes == size)
    && (code == 4 ==> i.frtsFwsecImageBytes == size)
    && (code == 5 ==> i.sec2BooterImageBytes == size)
  }

  lemma {:induction false} BytesAt(rs: seq<P.SectionRecord>, k: nat, i: nat)
    requires k <= i < |rs| && forall j :: k <= j < i ==> rs[j].kind != rs[i].kind
    ensures SectionBytesFrom(rs, rs[i].kind, k) == rs[i].size
    decreases i - k
  {
    if k < i { BytesAt(rs, k + 1, i); }
  }

  lemma SectionSized(s: seq<byte>, boundary: u64, k: nat)
    requires V.Verdict(s) == V.ParseOk && |s| <= MAX64 && k < 5 && |s| >= 440
    requires V.ParsedView(s).metadata.vramBytes >= 0x10_0000
    ensures Sized(Load32(s, 160 + 56 * k), Load64(s, 160 + 56 * k + 16), InputsOf(V.ParsedView(s), boundary))
  {
    hide Load32, Load64, V.HeaderStatus, V.AllDisjoint, V.HashOk, V.RecordStatus, V.MetadataOf, SectionBytesFrom, V.HashAt;
    PackageLaws.ParsedPackageIsSound(s);
    var rs := V.ParsedView(s).sections;
    assert rs[k] == V.SectionAt(s, k);
    forall j | 0 <= j < k ensures rs[j].kind != rs[k].kind {
      assert rs[j] == V.SectionAt(s, j) && V.CodeAt(s, j) != V.CodeAt(s, k);
    }
    BytesAt(rs, 0, k);
    KindByCode(V.CodeAt(s, k));
  }

  lemma KindByCode(code: u32)
    requires 1 <= code <= 5
    ensures code == 1 ==> V.KindOf(code) == P.FirmwareSection
    ensures code == 2 ==> V.KindOf(code) == P.SignatureSection
    ensures code == 3 ==> V.KindOf(code) == P.BootloaderSection
    ensures code == 4 ==> V.KindOf(code) == P.FwsecSection
    ensures code == 5 ==> V.KindOf(code) == P.BooterSection
  {
  }

  /** The profile of a parsed package, number by number. */
  lemma ProfileReads(s: seq<byte>, boundary: u64)
    requires V.Verdict(s) == V.ParseOk && |s| <= MAX64 && StatusOf(V.ParsedView(s), boundary) == ProfileOk
    ensures |s| >= 440
    ensures Descriptors(s, ProfileOf(V.ParsedView(s), boundary))
    ensures Inputs(s, ProfileOf(V.ParsedView(s), boundary).manifest.inputs, boundary)
  {
    hide V.Load16, Load32, Load64, V.Verdict, V.SectionsTo, SectionBytesFrom, ManifestOk, Allocations, Sized, Wpr.LayoutOf;
    ParsesExactly(s);
    forall k | 0 <= k < 5
      ensures Sized(Load32(s, 160 + 56 * k), Load64(s, 160 + 56 * k + 16), InputsOf(V.ParsedView(s), boundary))
    {
      SectionSized(s, boundary, k);
    }
  }
}
