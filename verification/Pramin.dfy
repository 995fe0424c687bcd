/** Splitting a VRAM range into windows of the PRAMIN aperture, and the dry run that re-checks a
    split before any register is touched. */
module Pramin {
  import opened Words
  import opened WritePolicy
  import opened Arith
  import opened Bytes

  const WINDOW: u64 := 0x10_0000
  const SELECT_OFFSET: u32 := 0x1700
  const APERTURE: u32 := 0x70_0000
  const APERTURE_BYTES: u32 := 0x10_0000

  /** VRAM above this offset has no 32-bit window selector. */
  const SELECTABLE: u64 := 0x1_0000_0000_0000

  const SELECTOR_RULES := [WriteRule(SELECT_OFFSET, MAX32)]
  const APERTURE_RULES := [RegionRule(APERTURE, APERTURE_BYTES, 4)]

  datatype Chunk = Chunk(
    vramOffset: u64,
    sourceOffset: u64,
    bytes: u64,
    windowBase: u64,
    windowSelector: u32,
    bar0ApertureOffset: u32)

  datatype StagePlan = StagePlan(
    valid: bool,
    vramSize: u64,
    vramOffset: u64,
    totalBytes: u64,
    chunks: seq<Chunk>)

  function InWindow(offset: u64): u64 { offset % WINDOW }
  function WindowBase(offset: u64): u64 { offset - offset % WINDOW }

  /** The chunk's register fields are the ones its VRAM offset demands. */
  predicate WellPlaced(c: Chunk)
  {
    && c.bytes <= WINDOW - InWindow(c.vramOffset)
    && WindowBase(c.vramOffset) / 0x1_0000 <= MAX32
    && APERTURE + InWindow(c.vramOffset) <= MAX32
    && c.windowBase == WindowBase(c.vramOffset)
    && c.windowSelector == WindowBase(c.vramOffset) / 0x1_0000
    && c.bar0ApertureOffset == APERTURE + InWindow(c.vramOffset)
  }

  function ChunkAt(vram: u64, source: u64, bytes: u64): Chunk
    requires vram < SELECTABLE
  {
    Chunk(vram, source, bytes, WindowBase(vram), WindowBase(vram) / 0x1_0000, APERTURE + InWindow(vram))
  }

  function Split(vram: u64, source: u64, remaining: u64): seq<Chunk>
    requires vram + remaining <= SELECTABLE && source + remaining <= MAX64
    decreases remaining
  {
    if remaining == 0 then []
    else
      var n := Min(remaining, WINDOW - InWindow(vram));
      [ChunkAt(vram, source, n)] + Split(vram + n, source + n, remaining - n)
  }

  predicate RangeOk(vramOffset: u64, byteCount: u64, vramSize: u64)
  {
    vramSize != 0 && byteCount != 0 && vramOffset < vramSize && byteCount <= vramSize - vramOffset
  }

  function PlanOf(vramOffset: u64, byteCount: u64, vramSize: u64): StagePlan
  {
    if RangeOk(vramOffset, byteCount, vramSize) && vramOffset + byteCount <= SELECTABLE then
      StagePlan(true, vramSize, vramOffset, byteCount, Split(vramOffset, 0, byteCount))
    else StagePlan(false, vramSize, vramOffset, byteCount, [])
  }

  /** Staying below the last selectable window keeps a chunk's end selectable. */
  lemma WindowRoom(vram: u64, n: u64)
    requires n <= WINDOW - InWindow(vram)
    ensures WindowBase(vram) / 0x1_0000 <= MAX32 <==> vram < SELECTABLE
    ensures vram < SELECTABLE ==> vram + n <= SELECTABLE
  {
  }

  lemma SplitAppend(done: seq<Chunk>, vram: u64, source: u64, remaining: u64, n: u64)
    requires vram + remaining <= SELECTABLE && source + remaining <= MAX64
    requires remaining > 0 && n == Min(remaining, WINDOW - InWindow(vram))
    ensures done + Split(vram, source, remaining) ==
            done + [ChunkAt(vram, source, n)] + Split(vram + n, source + n, remaining - n)
  {
  }

  method PlanPraminStage(vramOffset: u64, byteCount: u64, vramSize: u64) returns (out: StagePlan)
    ensures out == PlanOf(vramOffset, byteCount, vramSize)
  {
    hide Split;
    out := StagePlan(false, vramSize, vramOffset, byteCount, []);
    if vramSize == 0 || byteCount == 0 || vramOffset >= vramSize {
      return;
    }
    if byteCount > vramSize - vramOffset {
      return;
    }
    var remaining: u64, currentVram: u64, sourceOffset: u64 := byteCount, vramOffset, 0;
    var chunks: seq<Chunk> := [];
    while remaining != 0
      invariant 0 <= remaining <= byteCount
      invariant sourceOffset == byteCount - remaining && currentVram == vramOffset + sourceOffset
      invariant sourceOffset > 0 ==> currentVram <= SELECTABLE && chunks != []
      invariant vramOffset + byteCount <= SELECTABLE ==>
                  chunks + Split(currentVram, sourceOffset, remaining) == Split(vramOffset, 0, byteCount)
    {
      var windowBase := WindowBase(currentVram);
      var inWindow := InWindow(currentVram);
      var room := WINDOW - inWindow;
      var chunkBytes := Min(remaining, room);
      var selector64 := windowBase / 0x1_0000;
      var aperture64 := APERTURE + inWindow;
      WindowRoom(currentVram, chunkBytes);
      if selector64 > MAX32 || aperture64 > MAX32 {
        return;
      }
      if vramOffset + byteCount <= SELECTABLE {
        SplitAppend(chunks, currentVram, sourceOffset, remaining, chunkBytes);
      }
      chunks := chunks + [Chunk(currentVram, sourceOffset, chunkBytes, windowBase, selector64, aperture64)];
      currentVram := currentVram + chunkBytes;
      sourceOffset := sourceOffset + chunkBytes;
      remaining := remaining - chunkBytes;
    }
    SplitEnds(currentVram, sourceOffset);
    out := out.(valid := chunks != [] && sourceOffset == byteCount, chunks := chunks);
  }

  lemma SplitEnds(vram: u64, source: u64)
    requires vram <= SELECTABLE
    ensures Split(vram, source, 0) == []
  {
  }

  /** The chunks continue each other from `vram` and `source`, each well placed and inside one
      window, and end exactly at `total`. */
  predicate Tiles(chunks: seq<Chunk>, vram: u64, source: u64, total: u64)
  {
    if chunks == [] then source == total
    else
      var c := chunks[0];
      && c.bytes > 0 && c.vramOffset == vram && c.sourceOffset == source
      && source <= total && c.bytes <= total - source
      && WellPlaced(c)
      && Tiles(chunks[1..], vram + c.bytes, source + c.bytes, total)
  }

  /** Every chunk is a whole number of aligned words. */
  predicate WordAligned(chunks: seq<Chunk>)
  {
    forall c <- chunks :: c.bytes % 4 == 0 && c.bar0ApertureOffset % 4 == 0
  }

  predicate HeaderOk(s: StagePlan)
  {
    s.valid && s.chunks != [] && RangeOk(s.vramOffset, s.totalBytes, s.vramSize)
  }

  /** What every consumer of a staging plan demands of it. */
  predicate Executable(s: StagePlan)
  {
    HeaderOk(s) && Tiles(s.chunks, s.vramOffset, 0, s.totalBytes) && WordAligned(s.chunks)
  }

  lemma {:induction false} SplitTiles(vram: u64, source: u64, remaining: u64, total: u64)
    requires vram + remaining <= SELECTABLE && source + remaining == total
    ensures Tiles(Split(vram, source, remaining), vram, source, total)
    decreases remaining
  {
    if remaining > 0 {
      var n := Min(remaining, WINDOW - InWindow(vram));
      WindowRoom(vram, n);
      SplitTiles(vram + n, source + n, remaining - n, total);
      var tail := Split(vram + n, source + n, remaining - n);
      assert ([ChunkAt(vram, source, n)] + tail)[1..] == tail;
    }
  }

  lemma WordAlignedCons(c: Chunk, tail: seq<Chunk>)
    ensures WordAligned([c] + tail) <==> c.bytes % 4 == 0 && c.bar0ApertureOffset % 4 == 0 && WordAligned(tail)
  {
    assert forall d :: d in [c] + tail <==> d == c || d in tail;
  }

  /** Alignment of a first chunk and of what is left after it. */
  lemma WindowAlignment(vram: u64, n: u64)
    requires n <= WINDOW - InWindow(vram)
    ensures (APERTURE + InWindow(vram)) % 4 == vram % 4
    ensures n == WINDOW - InWindow(vram) ==> (vram + n) % 4 == 0 && (n % 4 == 0 <==> vram % 4 == 0)
  {
    ModOfMod(vram, 4, 0x4_0000);
    ModSum(APERTURE, InWindow(vram), 4);
    if n == WINDOW - InWindow(vram) {
      assert vram + n == (vram / WINDOW + 1) * WINDOW;
      ModShift(0, (vram / WINDOW + 1) * 0x4_0000, 4);
      assert (n + InWindow(vram)) % 4 == 0;
    }
  }

  lemma {:induction false} SplitAligned(vram: u64, source: u64, remaining: u64)
    requires vram + remaining <= SELECTABLE && source + remaining <= MAX64 && remaining > 0
    ensures WordAligned(Split(vram, source, remaining)) <==> vram % 4 == 0 && remaining % 4 == 0
    decreases remaining
  {
    hide WordAligned, WindowBase;
    var n := Min(remaining, WINDOW - InWindow(vram));
    var tail := Split(vram + n, source + n, remaining - n);
    WordAlignedCons(ChunkAt(vram, source, n), tail);
    if remaining > n {
      SplitAligned(vram + n, source + n, remaining - n);
    } else {
      assert tail == [];
      WordAlignedNil();
    }
    FirstChunkAligned(vram, remaining, n);
  }

  lemma FirstChunkAligned(vram: u64, remaining: u64, n: u64)
    requires n == Min(remaining, WINDOW - InWindow(vram))
    ensures (n % 4 == 0 && (APERTURE + InWindow(vram)) % 4 == 0 &&
             (remaining > n ==> (vram + n) % 4 == 0 && (remaining - n) % 4 == 0))
            <==> vram % 4 == 0 && remaining % 4 == 0
  {
    WindowAlignment(vram, n);
    hide InWindow;
    if n % 4 == 0 {
      ModSum(n, remaining, 4);
      assert (remaining - n) % 4 == remaining % 4;
    }
  }

  lemma WordAlignedNil()
    ensures WordAligned([])
  {
  }

  /** A planned staging can be executed exactly when it was planned at all and its offset and
      length are whole words. */
  lemma PlannedIsExecutable(vramOffset: u64, byteCount: u64, vramSize: u64)
    ensures var s := PlanOf(vramOffset, byteCount, vramSize);
      && (s.valid <==> RangeOk(vramOffset, byteCount, vramSize) && vramOffset + byteCount <= SELECTABLE)
      && (Executable(s) <==> s.valid && vramOffset % 4 == 0 && byteCount % 4 == 0)
  {
    if RangeOk(vramOffset, byteCount, vramSize) && vramOffset + byteCount <= SELECTABLE {
      SplitTiles(vramOffset, 0, byteCount, byteCount);
      SplitAligned(vramOffset, 0, byteCount);
    }
  }

  // ---- The dry run ----

  datatype StepKind = SelectWindow | WriteApertureRegion

  datatype MmioStep = MmioStep(kind: StepKind, bar0Offset: u32, bytes: u64, value: u32, allowed: bool)

  datatype DryRun = DryRun(valid: bool, steps: seq<MmioStep>)

  function ChunkSteps(c: Chunk): seq<MmioStep>
  {
    [MmioStep(SelectWindow, SELECT_OFFSET, 4, c.windowSelector, true),
     MmioStep(WriteApertureRegion, c.bar0ApertureOffset, c.bytes, 0, true)]
  }

  function StepsOf(chunks: seq<Chunk>): seq<MmioStep>
  {
    if chunks == [] then [] else ChunkSteps(chunks[0]) + StepsOf(chunks[1..])
  }

  lemma {:induction false} StepsAppend(xs: seq<Chunk>, c: Chunk)
    ensures StepsOf(xs + [c]) == StepsOf(xs) + ChunkSteps(c)
  {
    if xs == [] {
      assert (xs + [c])[1..] == [];
    } else {
      assert (xs + [c])[1..] == xs[1..] + [c];
      StepsAppend(xs[1..], c);
    }
  }

  lemma ApertureAdmits(c: Chunk)
    requires WellPlaced(c) && c.bytes > 0
    ensures CheckRegion(APERTURE_RULES, c.bar0ApertureOffset, c.bytes) == RegionAllowed <==>
            c.bytes % 4 == 0 && c.bar0ApertureOffset % 4 == 0
  {
    RegionAdmits(APERTURE_RULES[0], c.bar0ApertureOffset, c.bytes);
  }

  /** A prefix of chunks that a consumer has walked, standing at `vram` and `source`. */
  ghost predicate Walked(s: StagePlan, k: nat, vram: nat, source: nat)
    requires k <= |s.chunks|
  {
    && vram == s.vramOffset + source
    && source <= s.totalBytes
    && WordAligned(s.chunks[..k])
    && vram < 0x1_0000_0000_0000_0000
    && (Tiles(s.chunks, s.vramOffset, 0, s.totalBytes) <==> Tiles(s.chunks[k..], vram, source, s.totalBytes))
  }

  lemma WalkStart(s: StagePlan)
    requires RangeOk(s.vramOffset, s.totalBytes, s.vramSize)
    ensures Walked(s, 0, s.vramOffset, 0)
  {
    assert s.chunks[0..] == s.chunks;
  }

  lemma WalkStep(s: StagePlan, k: nat, vram: u64, source: u64)
    requires RangeOk(s.vramOffset, s.totalBytes, s.vramSize)
    requires k < |s.chunks| && Walked(s, k, vram, source)
    requires var c := s.chunks[k];
      && c.bytes > 0 && c.vramOffset == vram && c.sourceOffset == source
      && c.bytes <= s.totalBytes - source && WellPlaced(c)
      && c.bytes % 4 == 0 && c.bar0ApertureOffset % 4 == 0
    ensures Walked(s, k + 1, vram + s.chunks[k].bytes, source + s.chunks[k].bytes)
  {
    var c := s.chunks[k];
    assert s.chunks[k..][0] == c && s.chunks[k..][1..] == s.chunks[k + 1..];
    assert s.chunks[..k + 1] == s.chunks[..k] + [c];
    forall d | d in s.chunks[..k + 1] ensures d.bytes % 4 == 0 && d.bar0ApertureOffset % 4 == 0 {
      if d != c { assert d in s.chunks[..k]; }
    }
  }

  /** A walk that stops at a chunk which breaks one of the rules shows the plan is not executable. */
  lemma WalkBroken(s: StagePlan, k: nat, vram: u64, source: u64)
    requires k < |s.chunks| && Walked(s, k, vram, source)
    requires var c := s.chunks[k];
      || c.bytes == 0 || c.vramOffset != vram || c.sourceOffset != source
      || c.bytes > s.totalBytes - source || !WellPlaced(c)
      || c.bytes % 4 != 0 || c.bar0ApertureOffset % 4 != 0
    ensures !Executable(s)
  {
    var c := s.chunks[k];
    assert s.chunks[k..][0] == c;
    assert c in s.chunks;
  }

  lemma WalkEnd(s: StagePlan, vram: nat, source: nat)
    requires HeaderOk(s) && Walked(s, |s.chunks|, vram, source)
    ensures Executable(s) <==> source == s.totalBytes
    ensures source == s.totalBytes <==> source == s.totalBytes && vram == s.vramOffset + s.totalBytes
  {
    assert s.chunks[..|s.chunks|] == s.chunks;
  }

  method BuildDryRun(s: StagePlan) returns (out: DryRun)
    ensures out.valid <==> Executable(s)
    ensures out.valid ==> out.steps == StepsOf(s.chunks)
  {
    hide Executable, Walked, WellPlaced;
    if !s.valid || s.vramSize == 0 || s.totalBytes == 0 || s.chunks == [] ||
       s.vramOffset >= s.vramSize || s.totalBytes > s.vramSize - s.vramOffset {
      NoHeader(s);
      return DryRun(false, []);
    }
    var steps := [];
    var expectedVram: u64, expectedSource: u64 := s.vramOffset, 0;
    WalkStart(s);
    var k := 0;
    var overrun := false;
    while k < |s.chunks|
      invariant 0 <= k <= |s.chunks|
      invariant expectedVram == s.vramOffset + expectedSource <= SELECTABLE + s.vramOffset
      invariant overrun <==> expectedSource > s.totalBytes
      invariant !overrun ==> Walked(s, k, expectedVram, expectedSource)
      invariant overrun ==> !Executable(s)
      invariant steps == StepsOf(s.chunks[..k])
      invariant expectedVram < 0x1_0000_0000_0000_0000
    {
      var c := s.chunks[k];
      if c.bytes == 0 || c.vramOffset != expectedVram || c.sourceOffset != expectedSource || c.bytes % 4 != 0 {
        if !overrun { WalkBroken(s, k, expectedVram, expectedSource); }
        return DryRun(false, []);
      }
      if !WellPlaced(c) {
        if !overrun { WalkBroken(s, k, expectedVram, expectedSource); }
        return DryRun(false, []);
      }
      PlacedBounds(c);
      FullMaskAdmits(SELECT_OFFSET, 0, c.windowSelector);
      ApertureAdmits(c);
      var selectorAllowed := CheckWrite(SELECTOR_RULES, SELECT_OFFSET, 0, c.windowSelector) == Allowed;
      var apertureAllowed := CheckRegion(APERTURE_RULES, c.bar0ApertureOffset, c.bytes) == RegionAllowed;
      steps := steps + [
        MmioStep(SelectWindow, SELECT_OFFSET, 4, c.windowSelector, selectorAllowed),
        MmioStep(WriteApertureRegion, c.bar0ApertureOffset, c.bytes, 0, apertureAllowed)];
      if !selectorAllowed || !apertureAllowed {
        if !overrun { WalkBroken(s, k, expectedVram, expectedSource); }
        return DryRun(false, steps);
      }
      if !overrun {
        if c.bytes > s.totalBytes - expectedSource {
          WalkBroken(s, k, expectedVram, expectedSource);
          overrun := true;
        } else {
          WalkStep(s, k, expectedVram, expectedSource);
        }
      }
      assert s.chunks[..k + 1] == s.chunks[..k] + [c];
      StepsAppend(s.chunks[..k], c);
      expectedVram := expectedVram + c.bytes;
      expectedSource := expectedSource + c.bytes;
      k := k + 1;
    }
    assert s.chunks[..k] == s.chunks;
    if !overrun { WalkEnd(s, expectedVram, expectedSource); }
    out := DryRun(expectedSource == s.totalBytes && expectedVram == s.vramOffset + s.totalBytes, steps);
  }

  lemma NoHeader(s: StagePlan)
    requires !HeaderOk(s)
    ensures !Executable(s)
  {
  }

  lemma PlacedBounds(c: Chunk)
    requires WellPlaced(c)
    ensures c.vramOffset + c.bytes <= SELECTABLE && APERTURE <= c.bar0ApertureOffset
    ensures c.windowSelector * 0x1_0000 + (c.bar0ApertureOffset - APERTURE) == c.vramOffset
  {
  }

  // ---- Replay on windowed VRAM ----

  /** What the device does with the steps: the selector picks the VRAM window that the aperture
      shows, and each region write stores the next bytes of the source through it. */
  function Replay(vram: seq<byte>, selector: u32, steps: seq<MmioStep>, source: seq<byte>, cursor: nat): seq<byte>
    decreases |steps|
  {
    if steps == [] then vram
    else
      var step := steps[0];
      match step.kind
      case SelectWindow => Replay(vram, step.value, steps[1..], source, cursor)
      case WriteApertureRegion =>
        if step.bar0Offset < APERTURE || cursor + step.bytes > |source| then vram
        else
          var address := selector * 0x1_0000 + (step.bar0Offset - APERTURE);
          Replay(Splice(vram, address, source[cursor..cursor + step.bytes]), selector, steps[1..], source, cursor + step.bytes)
  }

  lemma ReplayChunk(vram: seq<byte>, selector: u32, c: Chunk, rest: seq<MmioStep>, source: seq<byte>, cursor: u64)
    requires WellPlaced(c) && cursor + c.bytes <= |source|
    ensures Replay(vram, selector, ChunkSteps(c) + rest, source, cursor) ==
            Replay(Splice(vram, c.vramOffset, source[cursor..cursor + c.bytes]), c.windowSelector, rest, source, cursor + c.bytes)
  {
    hide Splice;
    PlacedBounds(c);
    var steps := ChunkSteps(c) + rest;
    assert steps[0] == ChunkSteps(c)[0];
    assert steps[1..][0] == ChunkSteps(c)[1];
    assert steps[1..][1..] == rest;
  }

  lemma {:induction false} ReplayTiles(vram: seq<byte>, selector: u32, chunks: seq<Chunk>, source: seq<byte>, at: u64, cursor: u64)
    requires |source| <= MAX64 && Tiles(chunks, at, cursor, |source|)
    requires cursor <= |source| && |vram| <= MAX64 && at + (|source| - cursor) <= |vram|
    ensures Replay(vram, selector, StepsOf(chunks), source, cursor) == Splice(vram, at, source[cursor..])
    decreases |chunks|
  {
    hide Replay, WellPlaced;
    if chunks == [] {
      assert source[cursor..] == [];
      ReplayNothing(vram, selector, source, cursor);
    } else {
      var c := chunks[0];
      var piece := source[cursor..cursor + c.bytes];
      ReplayChunk(vram, selector, c, StepsOf(chunks[1..]), source, cursor);
      ReplayTiles(Splice(vram, at, piece), c.windowSelector, chunks[1..], source, at + c.bytes, cursor + c.bytes);
      assert source[cursor..] == piece + source[cursor + c.bytes..];
      SpliceJoins(vram, at, piece, source[cursor + c.bytes..]);
    }
  }

  lemma ReplayNothing(vram: seq<byte>, selector: u32, source: seq<byte>, cursor: nat)
    ensures Replay(vram, selector, [], source, cursor) == vram
  {
  }

  /** For any plan the dry run accepts, edited or not, replaying its steps on windowed VRAM is one
      flat copy of the source, whatever window was selected before. */
  lemma ReplayIsFlatCopy(s: StagePlan, vram: seq<byte>, selector: u32, source: seq<byte>)
    requires Executable(s) && |vram| == s.vramSize && |source| == s.totalBytes
    ensures Replay(vram, selector, StepsOf(s.chunks), source, 0) == Splice(vram, s.vramOffset, source)
  {
    ReplayTiles(vram, selector, s.chunks, source, s.vramOffset, 0);
    assert source[0..] == source;
  }

  /** What staging may touch: the one selector register, with any value, and whole words of the aperture. */
  lemma StagingRules(offset: u32, oldValue: u32, newValue: u32, bytes: u64)
    ensures CheckWrite(SELECTOR_RULES, offset, oldValue, newValue) == Allowed <==> offset == 0x1700
    ensures CheckRegion(APERTURE_RULES, offset, bytes) == RegionAllowed <==>
            0 < bytes && 0x70_0000 <= offset && offset + bytes <= 0x80_0000 && offset % 4 == 0 && bytes % 4 == 0
  {
    FullMaskAdmits(offset, oldValue, newValue);
    RegionAdmits(APERTURE_RULES[0], offset, bytes);
    assert CheckWrite(SELECTOR_RULES[1..], offset, oldValue, newValue) == DeniedUnknownRegister;
  }

  /** A well-placed chunk by its numbers: the selected window shows the chunk's VRAM where it is written. */
  lemma ChunkInWindow(c: Chunk)
    requires WellPlaced(c)
    ensures c.windowSelector * 0x1_0000 + (c.bar0ApertureOffset - 0x70_0000) == c.vramOffset && c.windowSelector % 16 == 0
    ensures 0x70_0000 <= c.bar0ApertureOffset && c.bar0ApertureOffset + c.bytes <= 0x80_0000
  {
  }
}
