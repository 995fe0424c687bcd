/** Host buffers prepared for DMA in bounded chunks, and the page list collected from them. */
module DmaBuffer {
  import opened Words
  import opened Wrappers
  import opened Mmio
  import D = Dma

  const PAGE: u64 := 0x1000
  const MAX_SEGMENTS: u32 := 32
  const CHUNK: u64 := 0x2_0000

  datatype Chunk = Chunk(offset: u64, length: u64, segments: seq<D.Segment>)

  datatype Buffer = Buffer(chunks: seq<Chunk>, length: u64)

  /** What preparing one chunk may yield: the platform's segment list, or its error. */
  datatype Prepared = Segments(segments: seq<D.Segment>) | Failed(status: Status)

  predicate SegmentUsable(s: D.Segment)
  {
    D.SegmentOk(s) && D.Aligned(s, PAGE)
  }

  /** A segment list that covers a chunk of `length` bytes page by page. */
  predicate Usable(segs: seq<D.Segment>, length: nat)
  {
    && 0 < |segs| <= MAX_SEGMENTS
    && (forall i :: 0 <= i < |segs| ==> SegmentUsable(segs[i]))
    && D.Sum(segs) == length
  }

  /** Checks what the platform returned for one chunk. */
  method PrepareChunk(offset: u64, length: u64, prepared: Prepared) returns (status: Status, out: Option<Chunk>)
    ensures out.Some? <==> status == Success
    ensures var argumentsOk := 0 < length <= CHUNK && offset % PAGE == 0 && length % PAGE == 0 && offset + length <= MAX64;
      && (!argumentsOk ==> status == BadArgument)
      && (argumentsOk && prepared.Segments? ==> status == if Usable(prepared.segments, length) then Success else Error)
      && (argumentsOk && prepared.Failed? ==> status == if prepared.status == Success then Error else prepared.status)
      && (status == Success ==> prepared.Segments? && Usable(prepared.segments, length)
                                && out.value == Chunk(offset, length, prepared.segments))
  {
    hide D.SumTo;
    if length == 0 || length > CHUNK || offset % PAGE != 0 || length % PAGE != 0 || offset > MAX64 - length {
      return BadArgument, None;
    }
    if prepared.Failed? {
      return if prepared.status == Success then Error else prepared.status, None;
    }
    var segs := prepared.segments;
    if |segs| == 0 || |segs| > MAX_SEGMENTS {
      return Error, None;
    }
    var covered := 0;
    D.SumStarts(segs);
    for i := 0 to |segs|
      invariant covered == D.SumTo(segs, i) <= length
      invariant forall k :: 0 <= k < i ==> SegmentUsable(segs[k])
    {
      var s := segs[i];
      D.SumStep(segs, i);
      D.SumGrows(segs, i + 1, |segs|);
      if s.length == 0 || s.address % PAGE != 0 || s.length % PAGE != 0 || s.address > MAX64 - (s.length - 1)
         || covered > length || s.length > length - covered {
        assert !SegmentUsable(s) || D.Sum(segs) > length;
        return Error, None;
      }
      covered := covered + s.length;
    }
    if covered != length {
      return Error, None;
    }
    status, out := Success, Some(Chunk(offset, length, segs));
  }

  /** Chunks that tile the buffer in order, each usable. */
  predicate Tiled(chunks: seq<Chunk>, k: nat)
    requires k <= |chunks|
  {
    forall i :: 0 <= i < k ==> ChunkAt(chunks, i)
  }

  predicate ChunkAt(chunks: seq<Chunk>, i: nat)
    requires i < |chunks|
  {
    && chunks[i].offset == BytesTo(chunks, i)
    && chunks[i].length != 0 && chunks[i].length % PAGE == 0
    && Usable(chunks[i].segments, chunks[i].length)
  }

  function BytesTo(chunks: seq<Chunk>, k: nat): nat
    requires k <= |chunks|
  {
    if k == 0 then 0 else BytesTo(chunks, k - 1) + chunks[k - 1].length
  }

  /** A buffer whose chunks account for all of its pages. */
  predicate BufferOk(b: Buffer)
  {
    && b.length != 0 && b.length % PAGE == 0
    && Tiled(b.chunks, |b.chunks|) && BytesTo(b.chunks, |b.chunks|) == b.length
  }

  lemma {:induction false} BytesPrefix(chunks: seq<Chunk>, c: Chunk, k: nat)
    requires k <= |chunks|
    ensures BytesTo(chunks + [c], k) == BytesTo(chunks, k)
  {
    if k > 0 { BytesPrefix(chunks, c, k - 1); }
  }

  lemma TiledSnoc(chunks: seq<Chunk>, c: Chunk)
    requires Tiled(chunks, |chunks|)
    requires c.offset == BytesTo(chunks, |chunks|) && c.length != 0 && c.length % PAGE == 0 && Usable(c.segments, c.length)
    ensures Tiled(chunks + [c], |chunks| + 1)
    ensures BytesTo(chunks + [c], |chunks| + 1) == BytesTo(chunks, |chunks|) + c.length
  {
    hide Usable;
    BytesPrefix(chunks, c, |chunks|);
    forall i | 0 <= i < |chunks| + 1 ensures ChunkAt(chunks + [c], i) {
      BytesPrefix(chunks, c, i);
      if i < |chunks| { assert ChunkAt(chunks, i); }
    }
  }

  function ChunkCount(length: u64): nat { (length + CHUNK - 1) / CHUNK }

  function ChunkLength(length: u64, i: nat): nat
    requires i < ChunkCount(length)
  {
    Min(length - i * CHUNK, CHUNK)
  }

  /** The chunks count up to the length, each page aligned and no longer than a chunk. */
  lemma ChunkArithmetic(length: u64, i: nat)
    requires length != 0 && length % PAGE == 0 && i < ChunkCount(length)
    ensures i * CHUNK < length && i * CHUNK % PAGE == 0
    ensures 0 < ChunkLength(length, i) <= CHUNK && ChunkLength(length, i) % PAGE == 0
    ensures ChunkLength(length, i) == Min(length - i * CHUNK, CHUNK)
    ensures Min(i * CHUNK, length) + ChunkLength(length, i) == Min((i + 1) * CHUNK, length)
    ensures i * CHUNK + ChunkLength(length, i) <= length
  {
  }

  lemma CountIs(length: u64)
    ensures ChunkCount(length) == (length + CHUNK - 1) / CHUNK
  {
  }

  lemma ChunksEnd(length: u64)
    requires length != 0
    ensures ChunkCount(length) > 0 && Min(ChunkCount(length) * CHUNK, length) == length
  {
  }

  predicate PreparedOk(length: u64, platform: nat -> Prepared, i: nat)
    requires i < ChunkCount(length)
  {
    platform(i).Segments? && Usable(platform(i).segments, ChunkLength(length, i))
  }

  /** Allocates `length` bytes and prepares them chunk by chunk; `platform` is what each preparation
      yields. Any failure leaves nothing prepared. */
  method AllocateAndPrepare(length: u64, platform: nat -> Prepared, allocation: Status) returns (status: Status, out: Option<Buffer>)
    ensures out.Some? <==> status == Success
    ensures length == 0 || length % PAGE != 0 ==> status == BadArgument
    ensures status == Success <==>
              && length != 0 && length % PAGE == 0 && length <= MAX64 - (CHUNK - 1) && ChunkCount(length) <= MAX32
              && allocation == Success
              && forall i :: 0 <= i < ChunkCount(length) ==> PreparedOk(length, platform, i)
    ensures out.Some? ==>
              && BufferOk(out.value) && out.value.length == length && |out.value.chunks| == ChunkCount(length)
              && forall i :: 0 <= i < ChunkCount(length) ==> platform(i) == Segments(out.value.chunks[i].segments)
  {
    hide Usable, ChunkCount, ChunkLength;
    if length == 0 || length % PAGE != 0 {
      return BadArgument, None;
    }
    if length > MAX64 - (CHUNK - 1) {
      return NoResources, None;
    }
    var chunkCount := (length + CHUNK - 1) / CHUNK;
    CountIs(length);
    ChunksEnd(length);
    if chunkCount == 0 || chunkCount > MAX32 {
      return NoResources, None;
    }
    if allocation != Success {
      return allocation, None;
    }
    var chunks: seq<Chunk> := [];
    for i := 0 to chunkCount
      invariant |chunks| == i && Tiled(chunks, i)
      invariant BytesTo(chunks, i) == Min(i * CHUNK, length)
      invariant forall k :: 0 <= k < i ==> PreparedOk(length, platform, k)
      invariant forall k :: 0 <= k < i ==> platform(k) == Segments(chunks[k].segments)
    {
      ChunkArithmetic(length, i);
      var offset := i * CHUNK;
      var remaining := length - offset;
      var chunkLength := Min(remaining, CHUNK);
      var kr, chunk := PrepareChunk(offset, chunkLength, platform(i));
      if kr != Success {
        assert !PreparedOk(length, platform, i);
        return kr, None;
      }
      TiledSnoc(chunks, chunk.value);
      chunks := chunks + [chunk.value];
    }
    status, out := Success, Some(Buffer(chunks, length));
  }

  // ---- Collecting the pages ----

  /** The pages of the first `k` chunks. */
  function ChunkPages(chunks: seq<Chunk>, k: nat): seq<u64>
    requires k <= |chunks| && Tiled(chunks, k)
  {
    if k == 0 then []
    else
      assert ChunkAt(chunks, k - 1);
      ChunkPages(chunks, k - 1) + D.PagesTo(chunks[k - 1].segments, PAGE, |chunks[k - 1].segments|)
  }

  lemma {:induction false} ChunkPageCount(chunks: seq<Chunk>, k: nat)
    requires k <= |chunks| && Tiled(chunks, k)
    ensures |ChunkPages(chunks, k)| * PAGE == BytesTo(chunks, k)
  {
    if k > 0 {
      ChunkPageCount(chunks, k - 1);
      assert ChunkAt(chunks, k - 1);
      var segs := chunks[k - 1].segments;
      D.PageCount(segs, PAGE, |segs|);
    }
  }

  lemma {:induction false} BytesGrow(chunks: seq<Chunk>, i: nat, k: nat)
    requires i <= k <= |chunks|
    ensures BytesTo(chunks, i) <= BytesTo(chunks, k)
  {
    if i < k { BytesGrow(chunks, i, k - 1); }
  }

  /** Writes one segment's pages while there is room. */
  method CollectSegment(s: D.Segment, room: nat) returns (run: Option<seq<u64>>)
    requires SegmentUsable(s)
    ensures run.Some? <==> s.length / PAGE <= room
    ensures run.Some? ==> s.address + (s.length / PAGE - 1) * PAGE <= MAX64 && run.value == D.Run(s.address, PAGE, s.length / PAGE)
  {
    D.SegmentPages(s, PAGE);
    var pages := [];
    var off := 0;
    while off < s.length
      invariant 0 <= off <= s.length && off % PAGE == 0
      invariant off / PAGE <= room
      invariant pages == D.Run(s.address, PAGE, off / PAGE)
    {
      if |pages| >= room {
        return None;
      }
      pages := pages + [s.address + off];
      off := off + PAGE;
    }
    run := Some(pages);
  }

  /** Collects one chunk's pages behind the `written` ones. */
  method CollectChunk(chunk: Chunk, room: nat) returns (run: Option<seq<u64>>)
    requires chunk.length != 0 && chunk.length % PAGE == 0
    ensures run.Some? <==> Usable(chunk.segments, chunk.length) && chunk.length / PAGE <= room
    ensures run.Some? ==> run.value == D.PagesTo(chunk.segments, PAGE, |chunk.segments|)
  {
    hide D.SumTo, D.Run;
    var segs := chunk.segments;
    if |segs| == 0 || |segs| > MAX_SEGMENTS {
      return None;
    }
    var pages := [];
    var covered := 0;
    D.SumStarts(segs);
    ghost var usable := forall i :: 0 <= i < |segs| ==> SegmentUsable(segs[i]);
    for i := 0 to |segs|
      invariant covered == D.SumTo(segs, i) <= chunk.length
      invariant forall k :: 0 <= k < i ==> SegmentUsable(segs[k])
      invariant usable ==> pages == D.PagesTo(segs, PAGE, i)
      invariant |pages| * PAGE == covered && |pages| <= room
    {
      var s := segs[i];
      D.SumStep(segs, i);
      D.SumGrows(segs, i + 1, |segs|);
      if s.length == 0 || s.address % PAGE != 0 || s.length % PAGE != 0 || s.address > MAX64 - (s.length - 1)
         || covered > chunk.length || s.length > chunk.length - covered {
        assert !SegmentUsable(s) || D.Sum(segs) > chunk.length;
        return None;
      }
      var more := CollectSegment(s, room - |pages|);
      if more.None? {
        return None;
      }
      pages := pages + more.value;
      covered := covered + s.length;
    }
    if covered != chunk.length {
      return None;
    }
    run := Some(pages);
  }

  /** Walks chunks and segments, writing one address per page. */
  method CollectDmaPageAddresses(b: Buffer, capacity: u32) returns (status: Status, pages: seq<u64>)
    ensures status == if b.length == 0 || b.length % PAGE != 0 then BadArgument
                      else if b.length / PAGE > MAX32 || capacity < b.length / PAGE then NoResources
                      else if BufferOk(b) then Success else Error
    ensures status == Success ==> pages == ChunkPages(b.chunks, |b.chunks|)
  {
    hide Usable;
    if b.length == 0 || b.length % PAGE != 0 {
      return BadArgument, [];
    }
    var expected := b.length / PAGE;
    if expected > MAX32 || capacity < expected {
      return NoResources, [];
    }
    pages := [];
    var offset := 0;
    for c := 0 to |b.chunks|
      invariant Tiled(b.chunks, c) && offset == BytesTo(b.chunks, c)
      invariant pages == ChunkPages(b.chunks, c) && |pages| * PAGE == offset
      invariant |pages| <= expected
    {
      var chunk := b.chunks[c];
      BytesGrow(b.chunks, c + 1, |b.chunks|);
      if chunk.offset != offset || chunk.length == 0 || chunk.length % PAGE != 0 {
        assert !ChunkAt(b.chunks, c);
        return Error, [];
      }
      var run := CollectChunk(chunk, expected - |pages|);
      if run.None? {
        assert !ChunkAt(b.chunks, c) || BytesTo(b.chunks, c + 1) > b.length;
        return Error, [];
      }
      assert ChunkAt(b.chunks, c);
      pages := pages + run.value;
      offset := offset + chunk.length;
      ChunkPageCount(b.chunks, c + 1);
    }
    if offset != b.length || |pages| != expected {
      return Error, [];
    }
    status := Success;
  }

  // ---- The same pages as expanding the whole scatter list ----

  function SegmentsTo(chunks: seq<Chunk>, k: nat): seq<D.Segment>
    requires k <= |chunks|
  {
    if k == 0 then [] else SegmentsTo(chunks, k - 1) + chunks[k - 1].segments
  }

  /** The whole buffer as one scatter list. */
  function AllSegments(b: Buffer): seq<D.Segment> { SegmentsTo(b.chunks, |b.chunks|) }

  predicate AllUsable(segs: seq<D.Segment>)
  {
    forall i :: 0 <= i < |segs| ==> SegmentUsable(segs[i])
  }

  lemma {:induction false} PagesOfPrefix(a: seq<D.Segment>, b: seq<D.Segment>, k: nat)
    requires AllUsable(a) && AllUsable(b) && AllUsable(a + b) && k <= |a|
    ensures D.PagesTo(a + b, PAGE, k) == D.PagesTo(a, PAGE, k) && D.SumTo(a + b, k) == D.SumTo(a, k)
  {
    hide D.Run;
    if k > 0 { PagesOfPrefix(a, b, k - 1); }
  }

  lemma {:induction false} PagesOfJoin(a: seq<D.Segment>, b: seq<D.Segment>, j: nat)
    requires AllUsable(a) && AllUsable(b) && j <= |b|
    ensures AllUsable(a + b)
    ensures D.PagesTo(a + b, PAGE, |a| + j) == D.PagesTo(a, PAGE, |a|) + D.PagesTo(b, PAGE, j)
    ensures D.SumTo(a + b, |a| + j) == D.SumTo(a, |a|) + D.SumTo(b, j)
  {
    hide D.Run;
    if j == 0 {
      PagesOfPrefix(a, b, |a|);
    } else {
      PagesOfJoin(a, b, j - 1);
      D.SegmentPages(b[j - 1], PAGE);
      AssocPages(D.PagesTo(a, PAGE, |a|), D.PagesTo(b, PAGE, j - 1),
                 D.Run(b[j - 1].address, PAGE, b[j - 1].length / PAGE));
    }
  }

  lemma AssocPages(a: seq<u64>, b: seq<u64>, c: seq<u64>)
    ensures a + b + c == a + (b + c)
  {
  }

  lemma {:induction false} ChunksAreSegments(chunks: seq<Chunk>, k: nat)
    requires k <= |chunks| && Tiled(chunks, k)
    ensures AllUsable(SegmentsTo(chunks, k))
    ensures D.PagesTo(SegmentsTo(chunks, k), PAGE, |SegmentsTo(chunks, k)|) == ChunkPages(chunks, k)
    ensures D.Sum(SegmentsTo(chunks, k)) == BytesTo(chunks, k)
  {
    hide D.Run;
    if k > 0 {
      ChunksAreSegments(chunks, k - 1);
      assert ChunkAt(chunks, k - 1);
      PagesOfJoin(SegmentsTo(chunks, k - 1), chunks[k - 1].segments, |chunks[k - 1].segments|);
    }
  }

  /** What is collected chunk by chunk is what expanding the buffer's whole scatter list gives. */
  lemma CollectedIsExpanded(b: Buffer)
    requires BufferOk(b)
    ensures D.Expandable(AllSegments(b), b.length, PAGE)
    ensures ChunkPages(b.chunks, |b.chunks|) == D.Pages(AllSegments(b), b.length, PAGE)
  {
    hide D.PagesTo, D.SumTo, ChunkPages, D.PageSize;
    ChunksAreSegments(b.chunks, |b.chunks|);
    D.PageSize4K();
    NotEmpty(AllSegments(b));
  }

  lemma NotEmpty(segs: seq<D.Segment>)
    ensures D.Sum(segs) != 0 ==> segs != []
  {
  }
}
