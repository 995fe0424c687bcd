/** The shared queue allocation: its size, its page table and the arguments that point at it. */
module QueueMemory {
  import opened Words
  import opened Wrappers
  import opened Bytes
  import opened Fields
  import opened Gsp
  import opened Radix3
  import opened Arith
  import opened Wpr

  const DEFAULT_QUEUE_BYTES: u64 := 0x4_0000
  const PTE: u64 := 8
  const CACHED_ARGUMENTS: nat := 72

  // ---- Sizes over unbounded integers ----

  /** The pages of both queues. */
  function QueuePages(queueBytes: u64, pageBytes: u64): nat
    requires pageBytes > 0
  {
    queueBytes * 2 / pageBytes
  }

  /** Bytes of `n` entries. */
  function EntryBytes(n: nat, pteBytes: u64): nat { n * pteBytes }

  /** An entry for every queue page and for every page those entries fill. */
  function TableEntries(queueBytes: u64, pageBytes: u64, pteBytes: u64): nat
    requires pageBytes > 0
  {
    var n := QueuePages(queueBytes, pageBytes);
    n + AlignedUp(EntryBytes(n, pteBytes), pageBytes) / pageBytes
  }

  /** The table that holds that many. */
  function ExactTable(queueBytes: u64, pageBytes: u64, pteBytes: u64): nat
    requires pageBytes > 0
  {
    AlignedUp(EntryBytes(TableEntries(queueBytes, pageBytes, pteBytes), pteBytes), pageBytes)
  }

  // ---- The planner ----

  const WORDS64: nat := 0x1_0000_0000_0000_0000

  /** The entries as counted: the one sum the planner does not guard wraps at 64 bits. */
  function Counted(queueBytes: u64, pageBytes: u64, pteBytes: u64): u64
    requires pageBytes > 0
  {
    TableEntries(queueBytes, pageBytes, pteBytes) % WORDS64
  }

  function TableBytes(queueBytes: u64, pageBytes: u64, pteBytes: u64): nat
    requires pageBytes > 0
  {
    AlignedUp(EntryBytes(Counted(queueBytes, pageBytes, pteBytes), pteBytes), pageBytes)
  }

  /** Sizes an allocation for two queues and the page table that maps them and itself. */
  function PlanQueues(queueBytes: u64, pageBytes: u64, pteBytes: u64): Option<QueueMemoryLayout>
  {
    if queueBytes == 0 || pageBytes == 0 || pteBytes == 0 || queueBytes % pageBytes != 0 || queueBytes > MAX64 / 2 then None
    else
      var queuesTotal, n := queueBytes * 2, QueuePages(queueBytes, pageBytes);
      if n > MAX64 / pteBytes || EntryBytes(n, pteBytes) > MAX64 - (pageBytes - 1) then None
      else
        var ptes := Counted(queueBytes, pageBytes, pteBytes);
        if ptes > MAX64 / pteBytes || EntryBytes(ptes, pteBytes) > MAX64 - (pageBytes - 1) then None
        else
          var tableBytes := TableBytes(queueBytes, pageBytes, pteBytes);
          if tableBytes > MAX64 - queuesTotal then None
          else
            QuotientSmall(MAX64, pteBytes);
            Some(QueueMemoryLayout(queueBytes, pageBytes, pteBytes, n, ptes, tableBytes,
                                   tableBytes, tableBytes + queueBytes, tableBytes + queuesTotal))
  }

  lemma QuotientSmall(x: nat, m: nat)
    requires m > 0
    ensures x / m <= x
  {
    if x / m > x { MulMono(x + 1, x / m, m); MulMono(1, m, x); }
  }

  lemma QuotientHalf(x: nat, m: nat)
    requires m > 1
    ensures x / m <= x / 2
  {
    assert x == x / m * m + x % m;
    MulMono(2, m, x / m);
  }

  /** With pages of two bytes or more the unguarded sum cannot wrap. */
  lemma CountIsExact(queueBytes: u64, pageBytes: u64, pteBytes: u64)
    requires pageBytes > 1 && queueBytes <= MAX64 / 2
    requires EntryBytes(QueuePages(queueBytes, pageBytes), pteBytes) <= MAX64 - (pageBytes - 1)
    ensures TableEntries(queueBytes, pageBytes, pteBytes) <= MAX64
    ensures Counted(queueBytes, pageBytes, pteBytes) == TableEntries(queueBytes, pageBytes, pteBytes)
  {
    hide AlignedUp, EntryBytes;
    QuotientHalf(queueBytes * 2, pageBytes);
    QuotientHalf(AlignedUp(EntryBytes(QueuePages(queueBytes, pageBytes), pteBytes), pageBytes), pageBytes);
  }

  /** When a layout is planned. With pages of more than one byte: exactly for nonzero sizes, whole pages and an
      allocation that fits 64 bits, so no guard on the way refuses more. With one-byte pages, where an entry
      is counted for every byte and every byte of an entry, the wrapped count decides. */
  lemma QueuesPlannedExactly(queueBytes: u64, pageBytes: u64, pteBytes: u64)
    ensures pageBytes > 1 ==>
              (PlanQueues(queueBytes, pageBytes, pteBytes).Some? <==>
               && queueBytes != 0 && pteBytes != 0 && queueBytes % pageBytes == 0
               && ExactTable(queueBytes, pageBytes, pteBytes) + queueBytes * 2 <= MAX64)
    ensures pageBytes == 1 ==>
              (PlanQueues(queueBytes, pageBytes, pteBytes).Some? <==>
               && queueBytes != 0 && pteBytes != 0
               && queueBytes * 2 * pteBytes <= MAX64
               && queueBytes * 2 * (1 + pteBytes) % WORDS64 * pteBytes + queueBytes * 2 <= MAX64)
    ensures pageBytes == 0 ==> PlanQueues(queueBytes, pageBytes, pteBytes).None?
  {
    hide PlanQueues;
    if pageBytes > 1 {
      PlannedInPages(queueBytes, pageBytes, pteBytes);
    } else if pageBytes == 1 {
      PlannedInBytes(queueBytes, pteBytes);
    } else {
      NoPages(queueBytes, pteBytes);
    }
  }

  lemma NoPages(queueBytes: u64, pteBytes: u64)
    ensures PlanQueues(queueBytes, 0, pteBytes).None?
  {
  }

  lemma PlannedInPages(queueBytes: u64, pageBytes: u64, pteBytes: u64)
    requires pageBytes > 1
    ensures PlanQueues(queueBytes, pageBytes, pteBytes).Some? <==>
            && queueBytes != 0 && pteBytes != 0 && queueBytes % pageBytes == 0
            && ExactTable(queueBytes, pageBytes, pteBytes) + queueBytes * 2 <= MAX64
  {
    hide AlignedUp, TableEntries, QueuePages, EntryBytes, Counted;
    if queueBytes != 0 && pteBytes != 0 && queueBytes % pageBytes == 0 && queueBytes <= MAX64 / 2 {
      var n, ptes := QueuePages(queueBytes, pageBytes), TableEntries(queueBytes, pageBytes, pteBytes);
      MoreEntries(queueBytes, pageBytes, pteBytes);
      WholePages(queueBytes, pageBytes);
      if EntryBytes(n, pteBytes) <= MAX64 - (pageBytes - 1) {
        CountIsExact(queueBytes, pageBytes, pteBytes);
      }
      if ExactTable(queueBytes, pageBytes, pteBytes) + queueBytes * 2 <= MAX64 {
        CountFits(n, pteBytes);
        CountFits(ptes, pteBytes);
      }
    }
  }

  lemma PlannedInBytes(queueBytes: u64, pteBytes: u64)
    ensures PlanQueues(queueBytes, 1, pteBytes).Some? <==>
            && queueBytes != 0 && pteBytes != 0
            && queueBytes * 2 * pteBytes <= MAX64
            && queueBytes * 2 * (1 + pteBytes) % WORDS64 * pteBytes + queueBytes * 2 <= MAX64
  {
    hide AlignedUp, EntryBytes, Counted, TableEntries, TableBytes, QueuePages;
    BytePages(queueBytes, pteBytes);
    if queueBytes != 0 && pteBytes != 0 {
      var n, ptes := QueuePages(queueBytes, 1), Counted(queueBytes, 1, pteBytes);
      MulMono(1, pteBytes, queueBytes * 2);
      if EntryBytes(n, pteBytes) <= MAX64 { CountFits(n, pteBytes); }
      if EntryBytes(ptes, pteBytes) <= MAX64 { CountFits(ptes, pteBytes); }
    }
  }

  /** What the sizes come to when every byte is a page. */
  lemma BytePages(queueBytes: u64, pteBytes: u64)
    ensures QueuePages(queueBytes, 1) == queueBytes * 2
    ensures EntryBytes(QueuePages(queueBytes, 1), pteBytes) == queueBytes * 2 * pteBytes
    ensures Counted(queueBytes, 1, pteBytes) == queueBytes * 2 * (1 + pteBytes) % WORDS64
    ensures EntryBytes(Counted(queueBytes, 1, pteBytes), pteBytes) == queueBytes * 2 * (1 + pteBytes) % WORDS64 * pteBytes
    ensures TableBytes(queueBytes, 1, pteBytes) == EntryBytes(Counted(queueBytes, 1, pteBytes), pteBytes)
  {
    hide AlignedUp;
    var n := queueBytes * 2;
    BytesAligned(EntryBytes(n, pteBytes));
    BytesAligned(EntryBytes(Counted(queueBytes, 1, pteBytes), pteBytes));
    assert n * (1 + pteBytes) == n + n * pteBytes;
  }

  lemma BytesAligned(v: nat)
    ensures AlignedUp(v, 1) == v
  {
  }

  /** Where the count wraps: two queues of 2^62 bytes in one-byte pages with one-byte entries are planned with
      no entry at all. */
  lemma WrappedCountPlans()
    ensures PlanQueues(0x4000_0000_0000_0000, 1, 1).Some?
    ensures var q := PlanQueues(0x4000_0000_0000_0000, 1, 1).value;
      q.pageTableEntryCount == 0 && q.pageTableBytes == 0 && q.totalBytes == 0x8000_0000_0000_0000
    ensures TableEntries(0x4000_0000_0000_0000, 1, 1) == WORDS64
  {
  }

  lemma CountFits(n: nat, pteBytes: u64)
    requires pteBytes > 0 && EntryBytes(n, pteBytes) <= MAX64
    ensures n <= MAX64 / pteBytes
  {
    QuotientBound(MAX64, pteBytes, n);
  }

  lemma MoreEntries(queueBytes: u64, pageBytes: u64, pteBytes: u64)
    requires pageBytes > 0
    ensures EntryBytes(QueuePages(queueBytes, pageBytes), pteBytes) <= EntryBytes(TableEntries(queueBytes, pageBytes, pteBytes), pteBytes)
  {
    MulMono(QueuePages(queueBytes, pageBytes), TableEntries(queueBytes, pageBytes, pteBytes), pteBytes);
  }

  /** A nonempty queue of whole pages has at least one. */
  lemma WholePages(queueBytes: u64, pageBytes: u64)
    requires queueBytes != 0 && pageBytes != 0 && queueBytes % pageBytes == 0
    ensures pageBytes <= queueBytes
  {
    if queueBytes < pageBytes { DivModUnique(queueBytes, pageBytes, 0, queueBytes); }
  }

  /** What every planned layout promises its users: the table, the two queues, no gap and no overlap, whole
      pages, room in the table for every entry counted, and all of it within 64 bits. */
  lemma QueuesShape(queueBytes: u64, pageBytes: u64, pteBytes: u64)
    ensures match PlanQueues(queueBytes, pageBytes, pteBytes)
      case None => true
      case Some(q) =>
        && q.queueBytes == queueBytes && q.pageBytes == pageBytes > 0 && q.pteBytes == pteBytes > 0
        && EntryBytes(q.pageTableEntryCount, pteBytes) <= q.pageTableBytes
        && q.commandQueueOffset == q.pageTableBytes
        && q.statusQueueOffset == q.commandQueueOffset + queueBytes
        && q.totalBytes == q.statusQueueOffset + queueBytes
        && queueBytes % pageBytes == 0 && q.pageTableBytes % pageBytes == 0 && q.totalBytes % pageBytes == 0
        && (pageBytes > 1 ==> q.pageTableEntryCount == TableEntries(queueBytes, pageBytes, pteBytes) > 0)
  {
    hide AlignedUp, EntryBytes, TableEntries, QueuePages, Counted;
    match PlanQueues(queueBytes, pageBytes, pteBytes)
    case None =>
    case Some(q) =>
      PagesJoin(q.pageTableBytes, queueBytes, pageBytes);
      PagesJoin(q.statusQueueOffset, queueBytes, pageBytes);
      if pageBytes > 1 {
        CountIsExact(queueBytes, pageBytes, pteBytes);
        SomeEntries(queueBytes, pageBytes, pteBytes);
      }
  }

  lemma SomeEntries(queueBytes: u64, pageBytes: u64, pteBytes: u64)
    requires queueBytes != 0 && pageBytes != 0 && queueBytes % pageBytes == 0
    ensures TableEntries(queueBytes, pageBytes, pteBytes) > 0
  {
    hide AlignedUp, EntryBytes;
    WholePages(queueBytes, pageBytes);
    QuotientBound(queueBytes * 2, pageBytes, 1);
  }

  lemma PagesJoin(a: nat, b: nat, page: u64)
    requires page > 0 && a % page == 0 && b % page == 0
    ensures (a + b) % page == 0
  {
    var p, q := a / page, b / page;
    assert a == p * page && b == q * page;
    Distributes(p, q, page);
    DivModUnique(a + b, page, p + q, 0);
  }

  // ---- Entries against pages ----

  lemma AlignedLeast(v: nat, a: u64, m: nat)
    requires a > 0 && v <= m * a
    ensures AlignedUp(v, a) <= m * a && AlignedUp(v, a) / a <= m
  {
    var k := AlignedUp(v, a) / a;
    assert AlignedUp(v, a) == k * a;
    Distributes(m, 1, a);
    MulCancels(k, m + 1, a);
    MulMono(k, m, a);
  }

  /** The entries for the table's own pages still fit the pages counted for the queue entries alone. */
  predicate EntriesFitTheirPages(queueBytes: u64, pageBytes: u64, pteBytes: u64)
    requires pageBytes > 0
  {
    EntryBytes(TableEntries(queueBytes, pageBytes, pteBytes), pteBytes) <=
    AlignedUp(EntryBytes(QueuePages(queueBytes, pageBytes), pteBytes), pageBytes)
  }

  /** Where the count did not wrap, the planned table never has more entries than the allocation has pages,
      and gives each page one exactly when the entries fit their pages. */
  lemma EntryPerPage(queueBytes: u64, pageBytes: u64, pteBytes: u64)
    requires PlanQueues(queueBytes, pageBytes, pteBytes).Some? && TableEntries(queueBytes, pageBytes, pteBytes) <= MAX64
    ensures var q := PlanQueues(queueBytes, pageBytes, pteBytes).value;
      && q.pageTableEntryCount <= q.totalBytes / pageBytes
      && (q.pageTableEntryCount == q.totalBytes / pageBytes <==> EntriesFitTheirPages(queueBytes, pageBytes, pteBytes))
  {
    hide PlanQueues, TableEntries, QueuePages, EntryBytes;
    PlannedParts(queueBytes, pageBytes, pteBytes);
    var n := QueuePages(queueBytes, pageBytes);
    TwicePages(queueBytes, pageBytes);
    MoreEntries(queueBytes, pageBytes, pteBytes);
    EntriesSum(queueBytes, pageBytes, pteBytes);
    SmallCount(queueBytes, pageBytes, pteBytes);
    PagesBalance(n, EntryBytes(n, pteBytes), EntryBytes(TableEntries(queueBytes, pageBytes, pteBytes), pteBytes), pageBytes);
  }

  lemma PlannedParts(queueBytes: u64, pageBytes: u64, pteBytes: u64)
    requires PlanQueues(queueBytes, pageBytes, pteBytes).Some?
    ensures pageBytes > 0 && queueBytes % pageBytes == 0
    ensures var q := PlanQueues(queueBytes, pageBytes, pteBytes).value;
      && q.pageTableEntryCount == Counted(queueBytes, pageBytes, pteBytes)
      && q.totalBytes == TableBytes(queueBytes, pageBytes, pteBytes) + queueBytes * 2
  {
    hide Counted, TableBytes, EntryBytes, QueuePages;
  }

  lemma EntriesSum(queueBytes: u64, pageBytes: u64, pteBytes: u64)
    requires pageBytes > 0
    ensures var n := QueuePages(queueBytes, pageBytes);
      TableEntries(queueBytes, pageBytes, pteBytes) == n + AlignedUp(EntryBytes(n, pteBytes), pageBytes) / pageBytes
  {
  }

  lemma SmallCount(queueBytes: u64, pageBytes: u64, pteBytes: u64)
    requires pageBytes > 0 && TableEntries(queueBytes, pageBytes, pteBytes) <= MAX64
    ensures Counted(queueBytes, pageBytes, pteBytes) == TableEntries(queueBytes, pageBytes, pteBytes)
    ensures TableBytes(queueBytes, pageBytes, pteBytes) == ExactTable(queueBytes, pageBytes, pteBytes)
  {
    hide TableEntries, EntryBytes, AlignedUp;
  }

  /** `n` pages and the pages of `few` bytes of entries against `n` pages and the pages of `all` bytes. */
  lemma PagesBalance(n: nat, few: nat, all: nat, page: u64)
    requires page > 0 && few <= all
    ensures var e, pages := n + AlignedUp(few, page) / page, (AlignedUp(all, page) + n * page) / page;
      e <= pages && (e == pages <==> all <= AlignedUp(few, page))
  {
    hide AlignedUp;
    var s, t := AlignedUp(few, page) / page, AlignedUp(all, page) / page;
    Quotients(few, page);
    Quotients(all, page);
    AlignedLeast(few, page, t);
    if all <= AlignedUp(few, page) { AlignedLeast(all, page, s); }
    Distributes(t, n, page);
    DivModUnique(AlignedUp(all, page) + n * page, page, t + n, 0);
  }

  lemma Quotients(v: nat, page: u64)
    requires page > 0
    ensures v <= AlignedUp(v, page) == AlignedUp(v, page) / page * page
  {
  }

  /** Both queues are their pages. */
  lemma TwicePages(queueBytes: u64, pageBytes: u64)
    requires pageBytes > 0 && queueBytes % pageBytes == 0
    ensures queueBytes * 2 == QueuePages(queueBytes, pageBytes) * pageBytes
  {
    var k := queueBytes / pageBytes;
    assert queueBytes == k * pageBytes;
    Distributes(k, k, pageBytes);
    DivModUnique(queueBytes * 2, pageBytes, k + k, 0);
  }

  /** The sizes every planner asks for: 4 KiB pages and 8-byte entries. */
  function PlanQueueMemory(queueBytes: u64): Option<QueueMemoryLayout> { PlanQueues(queueBytes, PAGE, PTE) }

  /** The same for those sizes. */
  lemma QueueLayoutShape(queueBytes: u64)
    ensures match PlanQueueMemory(queueBytes)
      case None => true
      case Some(q) =>
        && q.queueBytes == queueBytes && queueBytes % PAGE == 0 && q.pageBytes == PAGE && q.pteBytes == PTE
        && 0 < q.pageTableEntryCount && q.pageTableEntryCount * PTE <= q.pageTableBytes && q.pageTableBytes % PAGE == 0
        && q.commandQueueOffset == q.pageTableBytes
        && q.statusQueueOffset == q.commandQueueOffset + queueBytes
        && q.totalBytes == q.statusQueueOffset + queueBytes
        && q.totalBytes % PAGE == 0
        && q.statusQueueOffset <= MAX64 - 28
  {
    hide PlanQueues, TableEntries;
    QueuesShape(queueBytes, PAGE, PTE);
  }

  /** Two queues of 1 MiB each are planned with 513 entries for an allocation of 514 pages. */
  lemma OneMegabyteQueuesMiscount()
    ensures PlanQueueMemory(0x10_0000).Some?
    ensures var q := PlanQueueMemory(0x10_0000).value;
      q.pageTableEntryCount == 513 && q.totalBytes / PAGE == 514
  {
  }

  /** The default size has one entry per page. */
  lemma DefaultQueueCounts()
    ensures PlanQueueMemory(DEFAULT_QUEUE_BYTES).Some?
    ensures var q := PlanQueueMemory(DEFAULT_QUEUE_BYTES).value;
      && q.pageTableEntryCount == q.totalBytes / PAGE == 129
      && q.pageTableBytes == 0x1000 && q.totalBytes == 0x8_1000
  {
  }

  // ---- The page table ----

  predicate TableBuildable(l: QueueMemoryLayout, pages: seq<u64>)
  {
    && l.pageBytes != 0 && l.pteBytes == PTE
    && l.pageTableEntryCount == |pages|
    && l.pageTableEntryCount <= MAX64 / PTE
    && l.pageTableEntryCount * PTE <= l.pageTableBytes
    && forall i :: 0 <= i < |pages| ==> pages[i] % l.pageBytes == 0
  }

  /** One little-endian page address per entry, zero to the end of the table. */
  method BuildQueuePageTable(l: QueueMemoryLayout, pages: seq<u64>) returns (out: Option<seq<byte>>)
    ensures out.Some? <==> TableBuildable(l, pages)
    ensures out.Some? ==> out.value == Level(pages, l.pageTableBytes)
  {
    hide Le, Zeros, Entries;
    if l.pageBytes == 0 || l.pteBytes != PTE {
      return None;
    }
    if l.pageTableEntryCount != |pages| || l.pageTableEntryCount > MAX64 / l.pteBytes {
      return None;
    }
    if l.pageTableEntryCount * l.pteBytes > l.pageTableBytes {
      return None;
    }
    var buffer := new byte[l.pageTableBytes](_ => 0);
    AllZero(buffer[..]);
    EntriesNil();
    for i := 0 to |pages|
      invariant forall j :: 0 <= j < i ==> pages[j] % l.pageBytes == 0
      invariant buffer[..] == [] + Entries(pages[..i]) + Zeros(buffer.Length - 8 * i)
    {
      if pages[i] % l.pageBytes != 0 {
        return None;
      }
      StoreEntry([], pages[..i], pages[i], buffer.Length - 8 * i);
      StoreLe(buffer, i * 8, 8, pages[i]);
      assert pages[..i + 1] == pages[..i] + [pages[i]];
    }
    assert pages[..|pages|] == pages;
    assert [] + Entries(pages) == Entries(pages);
    out := Some(buffer[..]);
  }

  lemma EntriesNil()
    ensures Entries([]) == []
  {
  }

  /** A reader of the table finds page `i` at entry `i`. */
  lemma TableEntry(l: QueueMemoryLayout, pages: seq<u64>, i: nat)
    requires TableBuildable(l, pages) && i < |pages|
    ensures Load64(Level(pages, l.pageTableBytes), 8 * i) == pages[i]
  {
    hide Le, Zeros, Entries, UnLe;
    EntryAt(pages, i);
    SliceLeft(Entries(pages), Zeros(l.pageTableBytes - 8 * |pages|), 8 * i, 8);
    Stored64(pages[i]);
  }

  /** The argument block that hands the allocation to GSP-RM. */
  function CachedFields(l: QueueMemoryLayout, sharedMem: u64): seq<Field>
  {
    [ Field(0, 8, sharedMem),
      Field(8, 4, l.pageTableEntryCount % 0x1_0000_0000),
      Field(16, 8, l.commandQueueOffset),
      Field(24, 8, l.statusQueueOffset),
      Field(48, 4, 1) ]
  }

  lemma CachedFieldsOrdered(l: QueueMemoryLayout, sharedMem: u64)
    ensures Ordered(CachedFields(l, sharedMem), CACHED_ARGUMENTS)
  {
    Pow256Values();
  }

  function CachedArguments(l: QueueMemoryLayout, sharedMem: u64): (r: seq<byte>)
    ensures |r| == CACHED_ARGUMENTS
  {
    CachedFieldsOrdered(l, sharedMem);
    Structure(CachedFields(l, sharedMem), CACHED_ARGUMENTS)
  }

  /** What the block says, read from its bytes: the allocation's first page, its entry count, where the command
      queue and the status queue lie in it, and a locking mode of 1; every other byte is zero. */
  ghost predicate NamesQueues(b: seq<byte>, l: QueueMemoryLayout, sharedMem: u64)
    requires |b| == 72
  {
    && Load(b, 0, 8) == sharedMem && Load(b, 8, 4) == l.pageTableEntryCount % 0x1_0000_0000
    && Load(b, 16, 8) == l.commandQueueOffset && Load(b, 24, 8) == l.statusQueueOffset
    && Load(b, 48, 4) == 1
    && forall j :: 12 <= j < 16 || 32 <= j < 48 || 52 <= j < 72 ==> b[j] == 0
  }

  lemma CachedNamesQueues(l: QueueMemoryLayout, sharedMem: u64)
    ensures NamesQueues(CachedArguments(l, sharedMem), l, sharedMem)
  {
    hide Laid, Structure, Ordered, Load;
    var fs, b := CachedFields(l, sharedMem), CachedArguments(l, sharedMem);
    CachedFieldsOrdered(l, sharedMem);
    FieldReadsBack(fs, CACHED_ARGUMENTS, 0);
    FieldReadsBack(fs, CACHED_ARGUMENTS, 1);
    FieldReadsBack(fs, CACHED_ARGUMENTS, 2);
    FieldReadsBack(fs, CACHED_ARGUMENTS, 3);
    FieldReadsBack(fs, CACHED_ARGUMENTS, 4);
    forall j | 12 <= j < 16 || 32 <= j < 48 || 52 <= j < 72 ensures b[j] == 0 { GapIsZero(fs, CACHED_ARGUMENTS, j); }
  }

  method BuildCachedArguments(l: QueueMemoryLayout, sharedMem: u64) returns (out: seq<byte>)
    ensures out == CachedArguments(l, sharedMem)
    ensures |out| == 72 && NamesQueues(out, l, sharedMem)
  {
    hide Laid, Zeros, Ordered, NamesQueues;
    CachedNamesQueues(l, sharedMem);
    ghost var fs := CachedFields(l, sharedMem);
    CachedFieldsOrdered(l, sharedMem);
    var buffer := new byte[CACHED_ARGUMENTS](_ => 0);
    Start(fs, buffer[..]);
    Store(buffer, 0, 8, sharedMem, fs, 0);
    Store(buffer, 8, 4, l.pageTableEntryCount % 0x1_0000_0000, fs, 1);
    Store(buffer, 16, 8, l.commandQueueOffset, fs, 2);
    Store(buffer, 24, 8, l.statusQueueOffset, fs, 3);
    Store(buffer, 48, 4, 1, fs, 4);
    out := buffer[..];
  }
}
