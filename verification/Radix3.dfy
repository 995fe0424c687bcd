/** The three-level page tree that hands the GSP firmware to LibOS through one root page. */
module Radix3 {
  import opened Words
  import opened Wrappers
  import opened Bytes
  import opened Gsp

  const PAGE: u64 := 4096
  const FANOUT: u64 := 512
  const MAX_IMAGE: u64 := 0x80_0000_0000

  function CeilDiv(value: u64, divisor: u64): (r: u64)
    requires divisor > 0
    ensures r * divisor >= value && (value > 0 ==> 0 < r && (r - 1) * divisor < value)
  {
    if value == 0 then 0 else 1 + (value - 1) / divisor
  }

  /** Pages of the image and of each table level above it. */
  function ImagePages(imageBytes: u64): u64 { CeilDiv(imageBytes, PAGE) }
  function InnerPages(imageBytes: u64): u64 { CeilDiv(ImagePages(imageBytes), FANOUT) }
  function MiddlePages(imageBytes: u64): u64 { CeilDiv(InnerPages(imageBytes), FANOUT) }
  function RootPages(imageBytes: u64): u64 { CeilDiv(MiddlePages(imageBytes), FANOUT) }

  function LayoutOf(imageBytes: u64): Radix3Layout
    requires 1 <= imageBytes <= MAX_IMAGE
  {
    var middle, inner, image := MiddlePages(imageBytes), InnerPages(imageBytes), ImagePages(imageBytes);
    var tablePages := 1 + middle + inner;
    Radix3Layout([1, middle, inner, image],
                 [0, PAGE, (1 + middle) * PAGE, tablePages * PAGE],
                 tablePages * PAGE, imageBytes, tablePages * PAGE + imageBytes, tablePages + image)
  }

  /** One root page suffices for exactly the images of up to 2^39 bytes. */
  lemma RootCapacity(imageBytes: u64)
    requires imageBytes > 0
    ensures RootPages(imageBytes) == 1 <==> imageBytes <= MAX_IMAGE
    ensures imageBytes <= MAX_IMAGE ==>
              && 1 <= MiddlePages(imageBytes) <= 512
              && 1 <= InnerPages(imageBytes) <= 512 * MiddlePages(imageBytes)
              && 1 <= ImagePages(imageBytes) <= 512 * InnerPages(imageBytes)
  {
    var image, inner, middle := ImagePages(imageBytes), InnerPages(imageBytes), MiddlePages(imageBytes);
    assert image <= 0x800_0000 <==> imageBytes <= MAX_IMAGE;
    assert inner <= 0x4_0000 <==> image <= 0x800_0000;
    assert middle <= 512 <==> inner <= 0x4_0000;
  }

  /** Plans the tree; planning succeeds exactly for images of 1 to 2^39 bytes. */
  method PlanRadix3(imageBytes: u64) returns (out: Option<Radix3Layout>)
    ensures out == if 1 <= imageBytes <= MAX_IMAGE then Some(LayoutOf(imageBytes)) else None
  {
    if imageBytes == 0 {
      return None;
    }
    var pageCounts: seq<u64> := [0, 0, 0, CeilDiv(imageBytes, PAGE)];
    var i := 3;
    while i > 0
      invariant 0 <= i <= 3 && |pageCounts| == 4
      invariant pageCounts[3] == ImagePages(imageBytes)
      invariant i <= 2 ==> pageCounts[2] == InnerPages(imageBytes)
      invariant i <= 1 ==> pageCounts[1] == MiddlePages(imageBytes)
      invariant i <= 0 ==> pageCounts[0] == RootPages(imageBytes)
    {
      var parent := CeilDiv(pageCounts[i], FANOUT);
      pageCounts := pageCounts[i - 1 := parent];
      i := i - 1;
    }
    RootCapacity(imageBytes);
    if pageCounts[0] != 1 {
      return None;
    }
    assert pageCounts == [1, MiddlePages(imageBytes), InnerPages(imageBytes), ImagePages(imageBytes)];
    var offsets: seq<u64> := [0, 0, 0, 0];
    var prefix: u64 := 0;
    i := 0;
    while i < 4
      invariant 0 <= i <= 4 && |offsets| == 4
      invariant prefix == (if i >= 1 then 1 else 0) + (if i >= 2 then pageCounts[1] else 0) + (if i >= 3 then pageCounts[2] else 0)
      invariant i >= 1 ==> offsets[0] == 0
      invariant i >= 2 ==> offsets[1] == PAGE
      invariant i >= 3 ==> offsets[2] == (1 + pageCounts[1]) * PAGE
      invariant i >= 4 ==> offsets[3] == (1 + pageCounts[1] + pageCounts[2]) * PAGE
    {
      if prefix > MAX64 / PAGE {
        assert false;
      }
      offsets := offsets[i := prefix * PAGE];
      if i < 3 {
        prefix := prefix + pageCounts[i];
      }
      i := i + 1;
    }
    var tableBytes := offsets[3];
    AllocationSplit(imageBytes, tableBytes / PAGE);
    var allocationBytes := tableBytes + imageBytes;
    out := Some(Radix3Layout(pageCounts, offsets, tableBytes, imageBytes, allocationBytes, CeilDiv(allocationBytes, PAGE)));
    assert offsets == [0, PAGE, (1 + pageCounts[1]) * PAGE, (1 + pageCounts[1] + pageCounts[2]) * PAGE];
  }

  lemma AllocationSplit(imageBytes: u64, tablePages: nat)
    requires imageBytes > 0 && tablePages * PAGE + imageBytes <= MAX64
    ensures CeilDiv(tablePages * PAGE + imageBytes, PAGE) == tablePages + ImagePages(imageBytes)
  {
  }

  /** A layout by its numbers: each level has the fewest pages that name the level below, the levels follow each
      other page by page, and the image begins behind them. */
  lemma LayoutIsTight(imageBytes: u64)
    requires 1 <= imageBytes <= MAX_IMAGE
    ensures var l := LayoutOf(imageBytes);
      && |l.pageCounts| == 4 && |l.offsets| == 4 && l.pageCounts[0] == 1
      && (l.pageCounts[3] - 1) * 0x1000 < imageBytes <= l.pageCounts[3] * 0x1000
      && (l.pageCounts[2] - 1) * 512 < l.pageCounts[3] <= l.pageCounts[2] * 512
      && (l.pageCounts[1] - 1) * 512 < l.pageCounts[2] <= l.pageCounts[1] * 512
      && l.offsets[0] == 0 && l.offsets[1] == 0x1000 && l.offsets[2] == l.offsets[1] + l.pageCounts[1] * 0x1000
      && l.offsets[3] == l.offsets[2] + l.pageCounts[2] * 0x1000 == l.tableBytes
      && l.imageBytes == imageBytes && l.allocationBytes == l.tableBytes + imageBytes
      && l.allocationPages * 0x1000 == l.tableBytes + l.pageCounts[3] * 0x1000
  {
    hide CeilDiv;
    RootCapacity(imageBytes);
  }

  // ---- The tables ----

  /** Little-endian page addresses, eight bytes each. */
  function Entries(pages: seq<u64>): (r: seq<byte>)
    ensures |r| == 8 * |pages|
  {
    if pages == [] then [] else Le(8, pages[0]) + Entries(pages[1..])
  }

  lemma {:induction false} EntriesSnoc(pages: seq<u64>, p: u64)
    ensures Entries(pages + [p]) == Entries(pages) + Le(8, p)
  {
    if pages == [] {
      assert [p][1..] == [];
    } else {
      assert (pages + [p])[0] == pages[0] && (pages + [p])[1..] == pages[1..] + [p];
      EntriesSnoc(pages[1..], p);
    }
  }

  lemma {:induction false} EntryAt(pages: seq<u64>, i: nat)
    requires i < |pages|
    ensures Entries(pages)[8 * i..8 * i + 8] == Le(8, pages[i])
  {
    if i == 0 {
      assert Entries(pages)[..8] == Le(8, pages[0]);
    } else {
      EntryAt(pages[1..], i - 1);
      assert pages[1..][i - 1] == pages[i];
      SliceRight(Le(8, pages[0]), Entries(pages[1..]), 8 * (i - 1), 8);
    }
  }

  /** A table level: its entries and the zeros that fill its pages. */
  function Level(pages: seq<u64>, bytes: nat): (r: seq<byte>)
    requires 8 * |pages| <= bytes
    ensures |r| == bytes
  {
    Entries(pages) + Zeros(bytes - 8 * |pages|)
  }

  /** A layout as planned, with one address per page of the allocation. */
  predicate Planned(l: Radix3Layout, pages: seq<u64>)
  {
    && 1 <= l.imageBytes <= MAX_IMAGE && l == LayoutOf(l.imageBytes)
    && |pages| == l.allocationPages
    && forall i :: 0 <= i < |pages| ==> pages[i] % PAGE == 0
  }

  function Middle(l: Radix3Layout): nat requires |l.pageCounts| == 4 { l.pageCounts[1] }
  function Inner(l: Radix3Layout): nat requires |l.pageCounts| == 4 { l.pageCounts[2] }
  function Image(l: Radix3Layout): nat requires |l.pageCounts| == 4 { l.pageCounts[3] }

  lemma Shape(l: Radix3Layout, pages: seq<u64>)
    requires Planned(l, pages)
    ensures |l.pageCounts| == 4 && |l.offsets| == 4
    ensures l.pageCounts == [1, Middle(l), Inner(l), Image(l)]
    ensures l.offsets == [0, PAGE, (1 + Middle(l)) * PAGE, (1 + Middle(l) + Inner(l)) * PAGE]
    ensures 1 <= Middle(l) <= 512 && 1 <= Inner(l) <= 512 * Middle(l) && 1 <= Image(l) <= 512 * Inner(l)
    ensures |pages| == 1 + Middle(l) + Inner(l) + Image(l)
    ensures l.tableBytes == (1 + Middle(l) + Inner(l)) * PAGE
    ensures (Image(l) - 1) * PAGE < l.imageBytes <= Image(l) * PAGE
  {
    RootCapacity(l.imageBytes);
  }

  function RootTable(l: Radix3Layout, pages: seq<u64>): (r: seq<byte>)
    requires Planned(l, pages)
    ensures |r| == PAGE
  {
    Shape(l, pages);
    Level(pages[1..1 + Middle(l)], PAGE)
  }

  function MiddleTable(l: Radix3Layout, pages: seq<u64>): (r: seq<byte>)
    requires Planned(l, pages)
    ensures |r| == l.pageCounts[1] * PAGE
  {
    Shape(l, pages);
    Level(pages[1 + Middle(l)..1 + Middle(l) + Inner(l)], Middle(l) * PAGE)
  }

  function InnerTable(l: Radix3Layout, pages: seq<u64>): (r: seq<byte>)
    requires Planned(l, pages)
    ensures |r| == l.pageCounts[2] * PAGE
  {
    Shape(l, pages);
    Level(pages[1 + Middle(l) + Inner(l)..], Inner(l) * PAGE)
  }

  function Tables(l: Radix3Layout, pages: seq<u64>): (r: seq<byte>)
    requires Planned(l, pages)
    ensures |r| == l.tableBytes
  {
    Shape(l, pages);
    RootTable(l, pages) + MiddleTable(l, pages) + InnerTable(l, pages)
  }

  /** Storing one more entry of a level into the zeros that follow the ones already there. */
  lemma StoreEntry(before: seq<byte>, pages: seq<u64>, p: u64, zeros: nat)
    requires zeros >= 8
    ensures Splice(before + Entries(pages) + Zeros(zeros), |before| + 8 * |pages|, Le(8, p)) ==
            before + Entries(pages + [p]) + Zeros(zeros - 8)
  {
    hide Splice, Zeros, Entries, Le;
    var prefix := before + Entries(pages);
    SpliceZeros(prefix, zeros, Le(8, p));
    EntriesSnoc(pages, p);
    Assoc(before, Entries(pages), Le(8, p));
  }

  lemma NoEntries(before: seq<byte>, zeros: nat)
    ensures before + Zeros(zeros) == before + Entries([]) + Zeros(zeros)
  {
    hide Zeros;
    assert Entries([]) == [];
  }

  /** One level of the build: fills the entries for `children` at `tableOffset`. */
  method FillLevel(buffer: array<byte>, tableOffset: nat, children: seq<u64>, ghost before: seq<byte>)
    requires |before| == tableOffset && tableOffset + 8 * |children| <= buffer.Length
    requires buffer[..] == before + Zeros(buffer.Length - tableOffset)
    modifies buffer
    ensures buffer[..] == before + Entries(children) + Zeros(buffer.Length - tableOffset - 8 * |children|)
  {
    hide Entries, Zeros, Splice, Le;
    var i := 0;
    NoEntries(before, buffer.Length - tableOffset);
    assert children[..0] == [];
    while i < |children|
      invariant 0 <= i <= |children|
      invariant buffer[..] == before + Entries(children[..i]) + Zeros(buffer.Length - tableOffset - 8 * i)
    {
      StoreEntry(before, children[..i], children[i], buffer.Length - tableOffset - 8 * i);
      StoreLe(buffer, tableOffset + i * 8, 8, children[i]);
      assert children[..i + 1] == children[..i] + [children[i]];
      i := i + 1;
    }
    assert children[..i] == children;
  }

  /** A level's leftover zeros complete it and leave the zeros of the levels after it. */
  lemma CloseLevel(before: seq<byte>, pages: seq<u64>, bytes: nat, after: nat)
    requires 8 * |pages| <= bytes
    ensures before + Entries(pages) + Zeros(bytes + after - 8 * |pages|) ==
            before + Level(pages, bytes) + Zeros(after)
  {
    hide Zeros, Entries;
    var e, fill := Entries(pages), Zeros(bytes - 8 * |pages|);
    ZerosSplit(bytes - 8 * |pages|, after);
    Assoc(before + e, fill, Zeros(after));
    Assoc(before, e, fill);
  }

  /** Builds the table prefix of the allocation. A planned layout never fails. */
  method BuildRadix3Tables(l: Radix3Layout, pages: seq<u64>) returns (out: Option<seq<byte>>)
    requires |l.pageCounts| == 4 && |l.offsets| == 4
    requires 1 <= l.imageBytes <= MAX_IMAGE && l == LayoutOf(l.imageBytes)
    ensures out == if Planned(l, pages) then Some(Tables(l, pages)) else None
  {
    hide LayoutOf, Entries, Zeros, Level;
    if |pages| != l.allocationPages {
      return None;
    }
    for i := 0 to |pages|
      invariant forall j :: 0 <= j < i ==> pages[j] % PAGE == 0
    {
      if pages[i] % PAGE != 0 {
        return None;
      }
    }
    Shape(l, pages);
    ghost var m, n := Middle(l) * PAGE, Inner(l) * PAGE;
    var buffer := new byte[l.tableBytes](_ => 0);
    ghost var rootBytes, middleBytes := RootTable(l, pages), MiddleTable(l, pages);
    assert buffer[..] == [] + Zeros(buffer.Length) by { AllZero(buffer[..]); }
    var firstInner := 1 + l.pageCounts[1];
    var firstImage := firstInner + l.pageCounts[2];
    FillLevel(buffer, l.offsets[0], pages[1..firstInner], []);
    CloseLevel([], pages[1..firstInner], PAGE, m + n);
    assert buffer[..] == rootBytes + Zeros(m + n) by { assert [] + rootBytes == rootBytes; }
    FillLevel(buffer, l.offsets[1], pages[firstInner..firstImage], rootBytes);
    CloseLevel(rootBytes, pages[firstInner..firstImage], m, n);
    FillLevel(buffer, l.offsets[2], pages[firstImage..], rootBytes + middleBytes);
    CloseLevel(rootBytes + middleBytes, pages[firstImage..], n, 0);
    NoZeros(Tables(l, pages));
    out := Some(buffer[..]);
  }

  lemma AllZero(s: seq<byte>)
    requires forall i :: 0 <= i < |s| ==> s[i] == 0
    ensures s == [] + Zeros(|s|)
  {
  }

  lemma NoZeros(s: seq<byte>)
    ensures s + Zeros(0) == s
  {
  }

  /** The whole allocation: tables, firmware, and zeros to the end of its last page. */
  function Allocation(l: Radix3Layout, pages: seq<u64>, firmware: seq<byte>): (r: seq<byte>)
    requires Planned(l, pages) && |firmware| == l.imageBytes
    ensures |r| == |pages| * PAGE
  {
    Shape(l, pages);
    Tables(l, pages) + firmware + Zeros(Image(l) * PAGE - |firmware|)
  }

  method BuildRadix3AllocationImage(l: Radix3Layout, pages: seq<u64>, firmware: seq<byte>)
    returns (out: Option<seq<byte>>)
    requires |l.pageCounts| == 4 && |l.offsets| == 4
    requires 1 <= l.imageBytes <= MAX_IMAGE && l == LayoutOf(l.imageBytes)
    ensures out == if Planned(l, pages) && |firmware| == l.imageBytes then Some(Allocation(l, pages, firmware)) else None
  {
    hide Tables, LayoutOf;
    if |firmware| != l.imageBytes {
      return None;
    }
    var tables := BuildRadix3Tables(l, pages);
    if tables.None? {
      return None;
    }
    Shape(l, pages);
    var padded := l.allocationPages * PAGE;
    var image := Zeros(padded);
    image := tables.value + image[|tables.value|..];
    image := image[..l.offsets[3]] + firmware + image[l.offsets[3] + |firmware|..];
    assert image == tables.value + firmware + Zeros(padded - l.offsets[3] - |firmware|);
    out := Some(image);
  }

  // ---- Walking the tree ----

  /** Physical memory, one page per address. */
  type Memory = map<u64, seq<byte>>

  predicate Distinct(pages: seq<u64>)
  {
    forall i, j :: 0 <= i < j < |pages| ==> pages[i] != pages[j]
  }

  function PageOf(bytes: seq<byte>, k: nat): seq<byte>
    requires (k + 1) * PAGE <= |bytes|
  {
    bytes[k * PAGE..k * PAGE + PAGE]
  }

  /** The allocation as the device sees it: page `k` of the bytes at the k-th physical address. */
  ghost predicate Mapped(mem: Memory, pages: seq<u64>, bytes: seq<byte>)
    requires |bytes| == |pages| * PAGE
  {
    forall k :: 0 <= k < |pages| ==> pages[k] in mem && mem[pages[k]] == PageOf(bytes, k)
  }

  function MemoryOf(pages: seq<u64>, bytes: seq<byte>): Memory
    requires |bytes| == |pages| * PAGE
  {
    if pages == [] then map[]
    else
      var n := |pages| - 1;
      MemoryOf(pages[..n], bytes[..n * PAGE])[pages[n] := bytes[n * PAGE..]]
  }

  /** Distinct addresses can hold the allocation. */
  lemma {:induction false} MemoryHolds(pages: seq<u64>, bytes: seq<byte>)
    requires |bytes| == |pages| * PAGE && Distinct(pages)
    ensures Mapped(MemoryOf(pages, bytes), pages, bytes)
  {
    if pages != [] {
      var n := |pages| - 1;
      var init, front := pages[..n], bytes[..n * PAGE];
      MemoryHolds(init, front);
      forall k | 0 <= k < |pages|
        ensures pages[k] in MemoryOf(pages, bytes) && MemoryOf(pages, bytes)[pages[k]] == PageOf(bytes, k)
      {
        if k < n {
          assert init[k] == pages[k] && pages[k] != pages[n];
          assert PageOf(front, k) == PageOf(bytes, k);
        }
      }
    }
  }

  /** Entry `k` of the table page at a physical address. */
  function Entry(mem: Memory, address: u64, k: nat): Option<u64>
    requires k < FANOUT
  {
    if address in mem && |mem[address]| == PAGE then Some(Load64(mem[address], 8 * k)) else None
  }

  /** Three table reads from the root, nine index bits each. */
  function Walk(mem: Memory, root: u64, i: nat): Option<u64>
    requires i < 0x800_0000
  {
    match Entry(mem, root, i / 0x4_0000)
    case None => None
    case Some(middle) =>
      match Entry(mem, middle, i / 0x200 % 0x200)
      case None => None
      case Some(inner) => Entry(mem, inner, i % 0x200)
  }

  /** Page `k` of a level holds the entries for its 512 children, zeros past the last. */
  lemma LevelEntry(children: seq<u64>, tablePages: nat, k: nat, e: nat)
    requires 8 * |children| <= tablePages * PAGE && k < tablePages && e < FANOUT
    ensures Load64(PageOf(Level(children, tablePages * PAGE), k), 8 * e) ==
            if k * FANOUT + e < |children| then children[k * FANOUT + e] else 0
  {
    hide Entries, Le, Zeros, UnLe;
    var level := Level(children, tablePages * PAGE);
    var at := k * FANOUT + e;
    assert PageOf(level, k)[8 * e..8 * e + 8] == level[8 * at..8 * at + 8];
    if at < |children| {
      EntryAt(children, at);
      SliceLeft(Entries(children), Zeros(tablePages * PAGE - 8 * |children|), 8 * at, 8);
      Stored64(children[at]);
    } else {
      var z := 8 * at - 8 * |children|;
      SliceRight(Entries(children), Zeros(tablePages * PAGE - 8 * |children|), z, 8);
      ZeroWord(tablePages * PAGE - 8 * |children|, z);
    }
  }

  lemma ZeroWord(n: nat, from: nat)
    requires from + 8 <= n
    ensures UnLe(Zeros(n)[from..from + 8]) == 0
  {
    assert Zeros(n)[from..from + 8] == Zeros(8);
    ZeroValue(8);
  }

  lemma {:induction false} ZeroValue(n: nat)
    ensures UnLe(Zeros(n)) == 0
  {
    if n > 0 {
      assert Zeros(n)[1..] == Zeros(n - 1);
      ZeroValue(n - 1);
    }
  }

  lemma PageOfLeft(a: seq<byte>, b: seq<byte>, k: nat)
    requires (k + 1) * PAGE <= |a|
    ensures PageOf(a + b, k) == PageOf(a, k)
  {
    SliceLeft(a, b, k * PAGE, PAGE);
  }

  lemma PageOfRight(a: seq<byte>, b: seq<byte>, m: nat, k: nat)
    requires |a| == m * PAGE && (k + 1) * PAGE <= |b|
    ensures PageOf(a + b, m + k) == PageOf(b, k)
  {
    SliceRight(a, b, k * PAGE, PAGE);
  }

  lemma PageSplit(root: seq<byte>, middle: seq<byte>, inner: seq<byte>, image: seq<byte>, m: nat, n: nat, p: nat, k: nat)
    requires |root| == PAGE && |middle| == m * PAGE && |inner| == n * PAGE && |image| == p * PAGE
    ensures var all := root + middle + inner + image;
      && |all| == (1 + m + n + p) * PAGE
      && PageOf(all, 0) == PageOf(root, 0)
      && (k < m ==> PageOf(all, 1 + k) == PageOf(middle, k))
      && (k < n ==> PageOf(all, 1 + m + k) == PageOf(inner, k))
      && (k < p ==> PageOf(all, 1 + m + n + k) == PageOf(image, k))
  {
    hide PageOf;
    var front := root + middle;
    PageOfLeft(front + inner, image, 0);
    PageOfLeft(front, inner, 0);
    PageOfLeft(root, middle, 0);
    if k < m {
      PageOfLeft(front + inner, image, 1 + k);
      PageOfLeft(front, inner, 1 + k);
      PageOfRight(root, middle, 1, k);
    }
    if k < n {
      PageOfLeft(front + inner, image, 1 + m + k);
      PageOfRight(front, inner, 1 + m, k);
    }
    if k < p { PageOfRight(front + inner, image, 1 + m + n, k); }
  }

  /** Where the k-th page of each level lies in the allocation. */
  lemma AllocationPages(l: Radix3Layout, pages: seq<u64>, firmware: seq<byte>, k: nat)
    requires Planned(l, pages) && |firmware| == l.imageBytes
    ensures |l.pageCounts| == 4
    ensures var all := Allocation(l, pages, firmware);
      && PageOf(all, 0) == PageOf(RootTable(l, pages), 0)
      && (k < Middle(l) ==> PageOf(all, 1 + k) == PageOf(MiddleTable(l, pages), k))
      && (k < Inner(l) ==> PageOf(all, 1 + Middle(l) + k) == PageOf(InnerTable(l, pages), k))
      && (k < Image(l) ==> PageOf(all, 1 + Middle(l) + Inner(l) + k) ==
                           PageOf(firmware + Zeros(Image(l) * PAGE - |firmware|), k))
  {
    hide RootTable, MiddleTable, InnerTable, LayoutOf, Zeros;
    Shape(l, pages);
    var root, middle, inner := RootTable(l, pages), MiddleTable(l, pages), InnerTable(l, pages);
    var image := firmware + Zeros(Image(l) * PAGE - |firmware|);
    Assoc(root + middle + inner, firmware, Zeros(Image(l) * PAGE - |firmware|));
    assert Allocation(l, pages, firmware) == root + middle + inner + image;
    PageSplit(root, middle, inner, image, Middle(l), Inner(l), Image(l), k);
  }

  lemma RootEntry(l: Radix3Layout, pages: seq<u64>, firmware: seq<byte>, mem: Memory, e: nat)
    requires Planned(l, pages) && |firmware| == l.imageBytes
    requires Mapped(mem, pages, Allocation(l, pages, firmware))
    requires |l.pageCounts| == 4 && e < Middle(l) && e < FANOUT
    ensures 1 + e < |pages| && Entry(mem, pages[0], e) == Some(pages[1 + e])
  {
    hide Allocation, LayoutOf, Load64, Level;
    Shape(l, pages);
    AllocationPages(l, pages, firmware, 0);
    var children := pages[1..1 + Middle(l)];
    LevelEntry(children, 1, 0, e);
    assert children[e] == pages[1 + e];
  }

  lemma MiddleEntry(l: Radix3Layout, pages: seq<u64>, firmware: seq<byte>, mem: Memory, k: nat, e: nat)
    requires Planned(l, pages) && |firmware| == l.imageBytes
    requires Mapped(mem, pages, Allocation(l, pages, firmware))
    requires |l.pageCounts| == 4 && k < Middle(l) && e < FANOUT && k * FANOUT + e < Inner(l)
    ensures var child := 1 + Middle(l) + k * FANOUT + e;
      1 + k < |pages| && child < |pages| && Entry(mem, pages[1 + k], e) == Some(pages[child])
  {
    hide Allocation, LayoutOf, Load64, Level;
    Shape(l, pages);
    AllocationPages(l, pages, firmware, k);
    var children := pages[1 + Middle(l)..1 + Middle(l) + Inner(l)];
    LevelEntry(children, Middle(l), k, e);
    assert children[k * FANOUT + e] == pages[1 + Middle(l) + k * FANOUT + e];
  }

  lemma InnerEntry(l: Radix3Layout, pages: seq<u64>, firmware: seq<byte>, mem: Memory, k: nat, e: nat)
    requires Planned(l, pages) && |firmware| == l.imageBytes
    requires Mapped(mem, pages, Allocation(l, pages, firmware))
    requires |l.pageCounts| == 4 && k < Inner(l) && e < FANOUT && k * FANOUT + e < Image(l)
    ensures var child := 1 + Middle(l) + Inner(l) + k * FANOUT + e;
      1 + Middle(l) + k < |pages| && child < |pages| && Entry(mem, pages[1 + Middle(l) + k], e) == Some(pages[child])
  {
    hide Allocation, LayoutOf, Load64, Level;
    Shape(l, pages);
    AllocationPages(l, pages, firmware, k);
    var children := pages[1 + Middle(l) + Inner(l)..];
    LevelEntry(children, Inner(l), k, e);
    assert children[k * FANOUT + e] == pages[1 + Middle(l) + Inner(l) + k * FANOUT + e];
  }

  /** The walk from the root page reaches, for every image page, the physical page that holds it;
      and that page holds the firmware bytes, zero padded. */
  lemma WalkReachesImage(l: Radix3Layout, pages: seq<u64>, firmware: seq<byte>, mem: Memory, i: nat)
    requires Planned(l, pages) && |firmware| == l.imageBytes
    requires Mapped(mem, pages, Allocation(l, pages, firmware))
    requires i < ImagePages(l.imageBytes)
    ensures i < 0x800_0000
    ensures var leaf := l.offsets[3] / PAGE + i;
      && leaf < |pages|
      && Walk(mem, pages[0], i) == Some(pages[leaf])
      && pages[leaf] in mem
      && |mem[pages[leaf]]| == PAGE
      && forall o :: 0 <= o < PAGE ==>
           mem[pages[leaf]][o] == if i * PAGE + o < |firmware| then firmware[i * PAGE + o] else 0
  {
    hide LayoutOf, Walk, Allocation;
    Shape(l, pages);
    AllocationPages(l, pages, firmware, i);
    WalkSteps(l, pages, firmware, mem, i);
    assert mem[pages[1 + Middle(l) + Inner(l) + i]] == PageOf(firmware + Zeros(Image(l) * PAGE - |firmware|), i);
  }

  lemma PlannedImage(l: Radix3Layout, pages: seq<u64>)
    requires Planned(l, pages)
    ensures |l.pageCounts| == 4 && Image(l) == ImagePages(l.imageBytes)
  {
  }

  /** The three nine-bit digits of an image page number, and the bounds each level gives them. */
  lemma IndexSplit(i: nat, m: nat, n: nat, p: nat)
    requires i < p <= 512 * n && n <= 512 * m && m <= 512
    ensures var upper, lower := i / 0x4_0000, i / 0x200;
      && i < 0x800_0000 && upper < m && lower < n
      && upper * FANOUT + lower % 0x200 == lower
      && lower * FANOUT + i % 0x200 == i
      && lower % 0x200 < FANOUT && i % 0x200 < FANOUT && upper < FANOUT
      && i / 0x200 % 0x200 == lower % 0x200
  {
  }

  lemma WalkSteps(l: Radix3Layout, pages: seq<u64>, firmware: seq<byte>, mem: Memory, i: nat)
    requires Planned(l, pages) && |firmware| == l.imageBytes
    requires Mapped(mem, pages, Allocation(l, pages, firmware))
    requires i < ImagePages(l.imageBytes)
    ensures i < 0x800_0000 && |l.pageCounts| == 4 && 1 + Middle(l) + Inner(l) + i < |pages|
    ensures Walk(mem, pages[0], i) == Some(pages[1 + Middle(l) + Inner(l) + i])
  {
    hide Allocation, LayoutOf, Entry, Mapped, Planned;
    Shape(l, pages);
    PlannedImage(l, pages);
    var upper, lower := i / 0x4_0000, i / 0x200;
    IndexSplit(i, Middle(l), Inner(l), Image(l));
    RootEntry(l, pages, firmware, mem, upper);
    MiddleEntry(l, pages, firmware, mem, upper, lower % 0x200);
    InnerEntry(l, pages, firmware, mem, lower, i % 0x200);
  }

  /** Every table entry past the last child is zero. */
  lemma UnusedEntriesAreZero(l: Radix3Layout, pages: seq<u64>, k: nat, e: nat)
    requires Planned(l, pages) && e < FANOUT
    ensures |l.pageCounts| == 4
    ensures k == 0 && e >= l.pageCounts[1] ==> Load64(PageOf(RootTable(l, pages), 0), 8 * e) == 0
    ensures k < l.pageCounts[1] && k * FANOUT + e >= l.pageCounts[2] ==>
              Load64(PageOf(MiddleTable(l, pages), k), 8 * e) == 0
    ensures k < l.pageCounts[2] && k * FANOUT + e >= l.pageCounts[3] ==>
              Load64(PageOf(InnerTable(l, pages), k), 8 * e) == 0
  {
    hide LayoutOf, Load64, PageOf, Level;
    Shape(l, pages);
    var m, n := Middle(l), Inner(l);
    if k == 0 { LevelEntry(pages[1..1 + m], 1, 0, e); }
    if k < m { LevelEntry(pages[1 + m..1 + m + n], m, k, e); }
    if k < n { LevelEntry(pages[1 + m + n..], n, k, e); }
  }

  /** The whole tree: for every image size the planner accepts and every list of aligned, distinct
      pages of the right length, the build succeeds and the walk works for every image page. */
  lemma TreeIsWalkable(imageBytes: u64, pages: seq<u64>, firmware: seq<byte>, i: nat)
    requires 1 <= imageBytes <= MAX_IMAGE && |firmware| == imageBytes
    requires |pages| == LayoutOf(imageBytes).allocationPages && Distinct(pages)
    requires forall j :: 0 <= j < |pages| ==> pages[j] % PAGE == 0
    requires i < ImagePages(imageBytes)
    ensures var l := LayoutOf(imageBytes);
      && Planned(l, pages)
      && var mem := MemoryOf(pages, Allocation(l, pages, firmware));
      && i < 0x800_0000
      && l.offsets[3] / PAGE + i < |pages|
      && Walk(mem, pages[0], i) == Some(pages[l.offsets[3] / PAGE + i])
      && pages[l.offsets[3] / PAGE + i] in mem
      && var found := mem[pages[l.offsets[3] / PAGE + i]];
      && |found| == PAGE
      && forall o :: 0 <= o < PAGE ==>
           found[o] == if i * PAGE + o < |firmware| then firmware[i * PAGE + o] else 0
  {
    var l := LayoutOf(imageBytes);
    Shape(l, pages);
    MemoryHolds(pages, Allocation(l, pages, firmware));
    WalkReachesImage(l, pages, firmware, MemoryOf(pages, Allocation(l, pages, firmware)), i);
  }
}
