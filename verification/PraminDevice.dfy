/** Staging through the PRAMIN aperture of a device that may refuse mappings and may store wrong
    bytes, and the transaction that makes staging all-or-nothing. */
module PraminDevice {
  import opened Words
  import opened WritePolicy
  import opened Pramin
  import opened Mmio

  const PAGE: u64 := 0x1000

  /** A BAR0 range whose page-rounded mapping stays inside the BAR. */
  predicate Fits(bar0Size: u64, offset: u64, bytes: u64)
  {
    0 < bytes && offset + bytes <= bar0Size && (offset + bytes + PAGE - 1) / PAGE * PAGE <= bar0Size
  }

  lemma RoundedMapping(offset: u64, bytes: u64)
    ensures var pageBase := offset - offset % PAGE;
      pageBase + (offset - pageBase + bytes + PAGE - 1) / PAGE * PAGE == (offset + bytes + PAGE - 1) / PAGE * PAGE
  {
  }

  /** Every access a placed chunk needs fits a BAR that reaches the end of the aperture. */
  lemma ApertureFits(bar0Size: u64, offset: u64, bytes: u64)
    requires bar0Size >= APERTURE + APERTURE_BYTES && 0 < bytes && offset + bytes <= APERTURE + APERTURE_BYTES
    ensures Fits(bar0Size, offset, bytes)
  {
  }

  /** VRAM behind a window selector. Any mapping may be refused, unless the device is `obliging`;
      a store through the aperture may leave anything at all in its word, unless it is `exact`.
      Selector writes and all reads are truthful. `refusals` counts mappings that failed. */
  class WindowedVram {
    const bar0Size: u64
    const obliging: bool
    const exact: bool
    const vram: array<byte>
    var selector: u32
    ghost var refusals: nat

    constructor (bar0Size: u64, obliging: bool, exact: bool, vram: array<byte>)
      ensures this.bar0Size == bar0Size && this.obliging == obliging && this.exact == exact && this.vram == vram
    {
      this.bar0Size, this.obliging, this.exact, this.vram := bar0Size, obliging, exact, vram;
      selector, refusals := 0, 0;
    }

    /** A device that maps whatever fits and whose BAR holds the selector and the aperture. */
    predicate Healthy() { obliging && bar0Size >= APERTURE + APERTURE_BYTES }

    method MapRange(offset: u64, bytes: u64) returns (status: Status)
      modifies `refusals
      ensures refusals == old(refusals) + if status == Success then 0 else 1
      ensures status == Success ==> Fits(bar0Size, offset, bytes)
      ensures obliging && Fits(bar0Size, offset, bytes) ==> status == Success
    {
      refusals := refusals + 1;
      if bytes == 0 {
        return BadArgument;
      }
      if offset >= bar0Size || bytes > bar0Size - offset {
        return NoResources;
      }
      RoundedMapping(offset, bytes);
      var pageBase := offset - offset % PAGE;
      var needed := offset - pageBase + bytes;
      if needed > MAX64 - (PAGE - 1) {
        return BadArgument;
      }
      var mapLength := (needed + PAGE - 1) / PAGE * PAGE;
      if pageBase >= bar0Size || mapLength > bar0Size - pageBase {
        return NoResources;
      }
      if !obliging {
        status := *;
        if status != Success {
          return;
        }
      }
      refusals := refusals - 1;
      status := Success;
    }

    method WriteSelector(value: u32) returns (status: Status)
      modifies `selector, `refusals
      ensures refusals == old(refusals) + if status == Success then 0 else 1
      ensures selector == if status == Success then value else old(selector)
      ensures Healthy() ==> status == Success
    {
      FullMaskAdmits(SELECT_OFFSET, 0, value);
      if CheckWrite(SELECTOR_RULES, SELECT_OFFSET, 0, value) != Allowed {
        assert false;
      }
      status := MapRange(SELECT_OFFSET, 4);
      if status == Success {
        selector := value;
      }
    }

    /** One word stored through the aperture: the intended bytes on an exact device. */
    method StoreWord(at: nat, word: seq<byte>)
      requires |word| == 4 && at + 4 <= vram.Length
      modifies vram
      ensures forall i :: 0 <= i < vram.Length && !(at <= i < at + 4) ==> vram[i] == old(vram[i])
      ensures exact ==> forall i :: at <= i < at + 4 ==> vram[i] == word[i - at]
    {
      var stored := word;
      if !exact {
        var b0: byte, b1: byte, b2: byte, b3: byte := *, *, *, *;
        stored := [b0, b1, b2, b3];
      }
      vram[at], vram[at + 1], vram[at + 2], vram[at + 3] := stored[0], stored[1], stored[2], stored[3];
    }

    /** Stores bytes through the aperture; `at` is the VRAM offset the selected window shows there. */
    method WriteAperture(offset: u32, source: seq<byte>, at: nat) returns (status: Status)
      requires |source| <= MAX64
      requires offset >= APERTURE && at == selector * 0x1_0000 + (offset - APERTURE) && at + |source| <= vram.Length
      modifies `refusals, vram
      ensures forall i :: 0 <= i < vram.Length && !(at <= i < at + |source|) ==> vram[i] == old(vram[i])
      ensures refusals >= old(refusals)
      ensures status == Success ==> CheckRegion(APERTURE_RULES, offset, |source|) == RegionAllowed && refusals == old(refusals)
      ensures status == Success && exact ==> vram[at..at + |source|] == source
      ensures CheckRegion(APERTURE_RULES, offset, |source|) == RegionAllowed && status != Success ==> refusals > old(refusals)
      ensures CheckRegion(APERTURE_RULES, offset, |source|) == RegionAllowed && Healthy() ==> status == Success
    {
      if |source| == 0 || |source| % 4 != 0 {
        RegionAdmits(APERTURE_RULES[0], offset, |source|);
        return BadArgument;
      }
      if CheckRegion(APERTURE_RULES, offset, |source|) != RegionAllowed {
        return NotPermitted;
      }
      RegionAdmits(APERTURE_RULES[0], offset, |source|);
      if Healthy() {
        ApertureFits(bar0Size, offset, |source|);
      }
      status := MapRange(offset, |source|);
      if status != Success {
        return;
      }
      var done := 0;
      while done < |source|
        invariant 0 <= done <= |source| && done % 4 == 0 && refusals == old(refusals)
        invariant forall i :: 0 <= i < vram.Length && !(at <= i < at + |source|) ==> vram[i] == old(vram[i])
        invariant exact ==> forall i :: at <= i < at + done ==> vram[i] == source[i - at]
      {
        ghost var before, word := vram[..], source[done..done + 4];
        StoreWord(at + done, source[done..done + 4]);
        assert forall i :: at <= i < at + done ==> vram[i] == before[i];
        assert exact ==> forall i :: at + done <= i < at + done + 4 ==> vram[i] == word[i - at - done] == source[i - at];
        done := done + 4;
      }
    }

    /** Compares VRAM seen through the aperture with the expected bytes. */
    method CompareAperture(offset: u32, expected: seq<byte>, at: nat) returns (status: Status)
      requires |expected| <= MAX64
      requires offset >= APERTURE && at == selector * 0x1_0000 + (offset - APERTURE) && at + |expected| <= vram.Length
      modifies `refusals
      ensures refusals >= old(refusals)
      ensures status == Success ==>
                && CheckRegion(APERTURE_RULES, offset, |expected|) == RegionAllowed
                && refusals == old(refusals)
                && vram[at..at + |expected|] == expected
      ensures CheckRegion(APERTURE_RULES, offset, |expected|) == RegionAllowed && status != Success ==>
                refusals > old(refusals) || (status == IOError && vram[at..at + |expected|] != expected)
      ensures Healthy() ==> refusals == old(refusals)
    {
      if |expected| == 0 || |expected| % 4 != 0 {
        RegionAdmits(APERTURE_RULES[0], offset, |expected|);
        return BadArgument;
      }
      if CheckRegion(APERTURE_RULES, offset, |expected|) != RegionAllowed {
        return NotPermitted;
      }
      RegionAdmits(APERTURE_RULES[0], offset, |expected|);
      if Healthy() {
        ApertureFits(bar0Size, offset, |expected|);
      }
      status := MapRange(offset, |expected|);
      if status != Success {
        return;
      }
      var done := 0;
      while done < |expected|
        invariant 0 <= done <= |expected| && done % 4 == 0 && refusals == old(refusals)
        invariant forall i :: at <= i < at + done ==> vram[i] == expected[i - at]
      {
        if vram[at + done] != expected[done] || vram[at + done + 1] != expected[done + 1] ||
           vram[at + done + 2] != expected[done + 2] || vram[at + done + 3] != expected[done + 3] {
          ghost var seen := vram[at..at + |expected|];
          assert forall k :: 0 <= k < |expected| ==> seen[k] == vram[at + k];
          return IOError;
        }
        done := done + 4;
      }
    }

    /** Copies VRAM seen through the aperture into `destination`. */
    method ReadAperture(offset: u32, destination: array<byte>, to: nat, bytes: u64, at: nat) returns (status: Status)
      requires destination != vram && to + bytes <= destination.Length
      requires offset >= APERTURE && at == selector * 0x1_0000 + (offset - APERTURE) && at + bytes <= vram.Length
      modifies `refusals, destination
      ensures forall i :: 0 <= i < destination.Length && !(to <= i < to + bytes) ==> destination[i] == old(destination[i])
      ensures refusals >= old(refusals)
      ensures status == Success ==>
                && CheckRegion(APERTURE_RULES, offset, bytes) == RegionAllowed
                && refusals == old(refusals)
                && destination[to..to + bytes] == vram[at..at + bytes]
      ensures CheckRegion(APERTURE_RULES, offset, bytes) == RegionAllowed && status != Success ==> refusals > old(refusals)
      ensures Healthy() ==> refusals == old(refusals)
    {
      if bytes == 0 || bytes % 4 != 0 {
        RegionAdmits(APERTURE_RULES[0], offset, bytes);
        return BadArgument;
      }
      if CheckRegion(APERTURE_RULES, offset, bytes) != RegionAllowed {
        return NotPermitted;
      }
      RegionAdmits(APERTURE_RULES[0], offset, bytes);
      if Healthy() {
        ApertureFits(bar0Size, offset, bytes);
      }
      status := MapRange(offset, bytes);
      if status != Success {
        return;
      }
      CopyWords(destination, to, bytes, at);
    }

    /** Copies word by word what the selected window shows. */
    method CopyWords(destination: array<byte>, to: nat, bytes: u64, at: nat)
      requires destination != vram && to + bytes <= destination.Length && at + bytes <= vram.Length && bytes % 4 == 0
      modifies destination
      ensures forall i :: 0 <= i < destination.Length && !(to <= i < to + bytes) ==> destination[i] == old(destination[i])
      ensures destination[to..to + bytes] == vram[at..at + bytes]
    {
      var done := 0;
      while done < bytes
        invariant 0 <= done <= bytes && done % 4 == 0
        invariant forall i :: 0 <= i < destination.Length && !(to <= i < to + bytes) ==> destination[i] == old(destination[i])
        invariant forall i :: to <= i < to + done ==> destination[i] == vram[i - to + at]
      {
        destination[to + done], destination[to + done + 1] := vram[at + done], vram[at + done + 1];
        destination[to + done + 2], destination[to + done + 3] := vram[at + done + 2], vram[at + done + 3];
        done := done + 4;
      }
      ghost var copied, shown := destination[to..to + bytes], vram[at..at + bytes];
      assert forall k :: 0 <= k < bytes ==> copied[k] == shown[k];
    }
  }

  /** The bytes a plan addresses. */
  predicate InRange(s: StagePlan, i: int)
  {
    HeaderOk(s) && s.vramOffset <= i < s.vramOffset + s.totalBytes
  }

  /** Where the chunk under the cursor must lie for the walk to go on. */
  predicate ChunkContinues(c: Chunk, vram: u64, source: u64, total: u64)
  {
    && c.bytes != 0 && c.bytes % 4 == 0
    && c.vramOffset == vram && c.sourceOffset == source
    && c.sourceOffset <= total && c.bytes <= total - c.sourceOffset
    && WellPlaced(c)
  }

  /** Copies `source` into VRAM chunk by chunk. On an executable plan it fails exactly when a
      mapping is refused; on an exact device success means the range now holds the source. */
  method StagePramin(d: WindowedVram, s: StagePlan, source: seq<byte>, writesEnabled: bool) returns (status: Status)
    requires s.vramSize <= d.vram.Length && |source| <= MAX64
    modifies d`selector, d`refusals, d.vram
    ensures forall i :: 0 <= i < d.vram.Length && !InRange(s, i) ==> d.vram[i] == old(d.vram[i])
    ensures d.refusals >= old(d.refusals)
    ensures !writesEnabled ==> status == NotPermitted && d.vram[..] == old(d.vram[..]) && d.refusals == old(d.refusals)
    ensures status == Success ==> Executable(s) && |source| == s.totalBytes && d.refusals == old(d.refusals)
    ensures status == Success && d.exact ==> d.vram[s.vramOffset..s.vramOffset + s.totalBytes] == source
    ensures writesEnabled && Executable(s) && |source| == s.totalBytes ==>
              (status != Success ==> d.refusals > old(d.refusals)) && (d.Healthy() ==> status == Success)
  {
    hide Executable, WellPlaced, Walked, CheckRegion, InWindow, WindowBase;
    if !writesEnabled {
      return NotPermitted;
    }
    if !HeaderOk(s) || |source| != s.totalBytes {
      if !HeaderOk(s) { NoHeader(s); }
      return BadArgument;
    }
    var expectedVram: u64, expectedSource: u64 := s.vramOffset, 0;
    WalkStart(s);
    for k := 0 to |s.chunks|
      invariant Walked(s, k, expectedVram, expectedSource)
      invariant expectedVram == s.vramOffset + expectedSource && expectedSource <= s.totalBytes
      invariant d.refusals == old(d.refusals)
      invariant forall i :: 0 <= i < d.vram.Length && !InRange(s, i) ==> d.vram[i] == old(d.vram[i])
      invariant d.exact ==> source[..expectedSource] == d.vram[s.vramOffset..expectedVram]
    {
      var c := s.chunks[k];
      if !ChunkContinues(c, expectedVram, expectedSource, |source|) {
        WalkBroken(s, k, expectedVram, expectedSource);
        return BadArgument;
      }
      PlacedBounds(c);
      ApertureAdmits(c);
      status := d.WriteSelector(c.windowSelector);
      if status != Success {
        return;
      }
      ghost var kept := d.vram[s.vramOffset..expectedVram];
      var piece := source[c.sourceOffset..c.sourceOffset + c.bytes];
      status := d.WriteAperture(c.bar0ApertureOffset, piece, expectedVram);
      if status != Success {
        if c.bar0ApertureOffset % 4 != 0 { WalkBroken(s, k, expectedVram, expectedSource); }
        return;
      }
      WalkStep(s, k, expectedVram, expectedSource);
      if d.exact {
        assert d.vram[s.vramOffset..expectedVram] == kept;
        SlicesJoin(source, d.vram[..], s.vramOffset, expectedSource, c.bytes);
      }
      expectedVram := expectedVram + c.bytes;
      expectedSource := expectedSource + c.bytes;
    }
    WalkEnd(s, expectedVram, expectedSource);
    if expectedSource != s.totalBytes || expectedVram != s.vramOffset + s.totalBytes {
      return BadArgument;
    }
    status := Success;
  }

  /** Validates, selects and compares one chunk of a verification. */
  method VerifyChunk(d: WindowedVram, s: StagePlan, k: nat, expected: seq<byte>, vram: u64, source: u64) returns (status: Status)
    requires s.vramSize <= d.vram.Length && HeaderOk(s) && |expected| == s.totalBytes && k < |s.chunks|
    requires Walked(s, k, vram, source) && vram == s.vramOffset + source && source <= s.totalBytes
    requires expected[..source] == d.vram[s.vramOffset..vram]
    modifies d`selector, d`refusals
    ensures d.refusals >= old(d.refusals) && (d.Healthy() ==> d.refusals == old(d.refusals))
    ensures status == Success ==>
              && d.refusals == old(d.refusals) && source + s.chunks[k].bytes <= s.totalBytes
              && Walked(s, k + 1, vram + s.chunks[k].bytes, source + s.chunks[k].bytes)
              && expected[..source + s.chunks[k].bytes] == d.vram[s.vramOffset..vram + s.chunks[k].bytes]
    ensures status != Success && Executable(s) ==>
              d.refusals > old(d.refusals) || (status == IOError && d.vram[s.vramOffset..s.vramOffset + s.totalBytes] != expected)
  {
    hide Executable, WellPlaced, Walked, CheckRegion, InWindow, WindowBase;
    var c := s.chunks[k];
    if !ChunkContinues(c, vram, source, |expected|) {
      WalkBroken(s, k, vram, source);
      return BadArgument;
    }
    PlacedBounds(c);
    ApertureAdmits(c);
    status := d.WriteSelector(c.windowSelector);
    if status != Success {
      return;
    }
    var piece := expected[c.sourceOffset..c.sourceOffset + c.bytes];
    status := d.CompareAperture(c.bar0ApertureOffset, piece, vram);
    if status != Success {
      if c.bar0ApertureOffset % 4 != 0 { WalkBroken(s, k, vram, source); }
      DifferencePersists(d.vram[..], expected, s.vramOffset, source, c.bytes);
      return;
    }
    WalkStep(s, k, vram, source);
    SlicesJoin(expected, d.vram[..], s.vramOffset, source, c.bytes);
  }

  /** Reads the range back and compares it. On an executable plan it fails exactly when a mapping is
      refused or the range differs. */
  method VerifyPramin(d: WindowedVram, s: StagePlan, expected: seq<byte>, writesEnabled: bool) returns (status: Status)
    requires s.vramSize <= d.vram.Length && |expected| <= MAX64
    modifies d`selector, d`refusals
    ensures d.refusals >= old(d.refusals)
    ensures !writesEnabled ==> status == NotPermitted
    ensures status == Success ==>
              && Executable(s) && |expected| == s.totalBytes && d.refusals == old(d.refusals)
              && d.vram[s.vramOffset..s.vramOffset + s.totalBytes] == expected
    ensures writesEnabled && Executable(s) && |expected| == s.totalBytes && status != Success ==>
              d.refusals > old(d.refusals) || (status == IOError && d.vram[s.vramOffset..s.vramOffset + s.totalBytes] != expected)
    ensures d.Healthy() ==> d.refusals == old(d.refusals)
  {
    hide Executable, WellPlaced, Walked, CheckRegion, InWindow, WindowBase;
    if !writesEnabled {
      return NotPermitted;
    }
    if !HeaderOk(s) || |expected| != s.totalBytes {
      if !HeaderOk(s) { NoHeader(s); }
      return BadArgument;
    }
    var expectedVram: u64, expectedSource: u64 := s.vramOffset, 0;
    WalkStart(s);
    for k := 0 to |s.chunks|
      invariant Walked(s, k, expectedVram, expectedSource)
      invariant expectedVram == s.vramOffset + expectedSource && expectedSource <= s.totalBytes
      invariant d.refusals == old(d.refusals)
      invariant expected[..expectedSource] == d.vram[s.vramOffset..expectedVram]
    {
      status := VerifyChunk(d, s, k, expected, expectedVram, expectedSource);
      if status != Success {
        return;
      }
      expectedVram := expectedVram + s.chunks[k].bytes;
      expectedSource := expectedSource + s.chunks[k].bytes;
    }
    WalkEnd(s, expectedVram, expectedSource);
    if expectedSource != s.totalBytes || expectedVram != s.vramOffset + s.totalBytes {
      return BadArgument;
    }
    status := Success;
  }

  /** Two equal ranges are equal on every part. */
  lemma DifferencePersists(vram: seq<byte>, expected: seq<byte>, at: nat, from: nat, n: nat)
    requires from + n <= |expected| && at + |expected| <= |vram|
    ensures vram[at..at + |expected|] == expected ==> vram[at + from..at + from + n] == expected[from..from + n]
  {
    var whole := vram[at..at + |expected|];
    assert forall j :: 0 <= j < |whole| ==> whole[j] == vram[at + j];
    assert whole[from..from + n] == vram[at + from..at + from + n];
  }

  lemma SlicesJoin(x: seq<byte>, y: seq<byte>, at: nat, from: nat, n: nat)
    requires from + n <= |x| && at + from + n <= |y|
    requires x[..from] == y[at..at + from] && x[from..from + n] == y[at + from..at + from + n]
    ensures x[..from + n] == y[at..at + from + n]
  {
    assert x[..from + n] == x[..from] + x[from..from + n];
    assert y[at..at + from + n] == y[at..at + from] + y[at + from..at + from + n];
  }

  /** Copies one chunk of a range behind the ones already read. */
  method ReadChunk(d: WindowedVram, s: StagePlan, k: nat, destination: array<byte>, vram: u64, source: u64) returns (status: Status)
    requires s.vramSize <= d.vram.Length && destination != d.vram && HeaderOk(s) && k < |s.chunks|
    requires destination.Length <= MAX64 && destination.Length == s.totalBytes
    requires Walked(s, k, vram, source) && vram == s.vramOffset + source && source <= s.totalBytes
    requires destination[..source] == d.vram[s.vramOffset..vram]
    modifies d`selector, d`refusals, destination
    ensures d.refusals >= old(d.refusals) && (d.Healthy() ==> d.refusals == old(d.refusals))
    ensures status == Success ==>
              && d.refusals == old(d.refusals) && source + s.chunks[k].bytes <= s.totalBytes
              && Walked(s, k + 1, vram + s.chunks[k].bytes, source + s.chunks[k].bytes)
              && destination[..source + s.chunks[k].bytes] == d.vram[s.vramOffset..vram + s.chunks[k].bytes]
    ensures status != Success && Executable(s) ==> d.refusals > old(d.refusals)
  {
    hide Executable, WellPlaced, Walked, CheckRegion, InWindow, WindowBase;
    var c := s.chunks[k];
    if !ChunkContinues(c, vram, source, destination.Length) {
      WalkBroken(s, k, vram, source);
      return BadArgument;
    }
    PlacedBounds(c);
    ApertureAdmits(c);
    status := d.WriteSelector(c.windowSelector);
    if status != Success {
      return;
    }
    ghost var kept := destination[..source];
    status := d.ReadAperture(c.bar0ApertureOffset, destination, c.sourceOffset, c.bytes, vram);
    if status != Success {
      if c.bar0ApertureOffset % 4 != 0 { WalkBroken(s, k, vram, source); }
      return;
    }
    WalkStep(s, k, vram, source);
    assert destination[..source] == kept;
    SlicesJoin(destination[..], d.vram[..], s.vramOffset, source, c.bytes);
  }

  /** Copies the range into `destination`. */
  method ReadPramin(d: WindowedVram, s: StagePlan, destination: array<byte>, writesEnabled: bool) returns (status: Status)
    requires s.vramSize <= d.vram.Length && destination != d.vram && destination.Length <= MAX64
    modifies d`selector, d`refusals, destination
    ensures d.refusals >= old(d.refusals)
    ensures !writesEnabled ==> status == NotPermitted && destination[..] == old(destination[..])
    ensures status == Success ==>
              && Executable(s) && destination.Length == s.totalBytes && d.refusals == old(d.refusals)
              && destination[..] == d.vram[s.vramOffset..s.vramOffset + s.totalBytes]
    ensures writesEnabled && Executable(s) && destination.Length == s.totalBytes ==>
              (status != Success ==> d.refusals > old(d.refusals)) && (d.Healthy() ==> status == Success)
  {
    hide Executable, WellPlaced, Walked, CheckRegion, InWindow, WindowBase;
    if !writesEnabled {
      return NotPermitted;
    }
    if !HeaderOk(s) || destination.Length != s.totalBytes {
      if !HeaderOk(s) { NoHeader(s); }
      return BadArgument;
    }
    var expectedVram: u64, expectedSource: u64 := s.vramOffset, 0;
    WalkStart(s);
    for k := 0 to |s.chunks|
      invariant Walked(s, k, expectedVram, expectedSource)
      invariant expectedVram == s.vramOffset + expectedSource && expectedSource <= s.totalBytes
      invariant d.refusals == old(d.refusals)
      invariant destination[..expectedSource] == d.vram[s.vramOffset..expectedVram]
    {
      status := ReadChunk(d, s, k, destination, expectedVram, expectedSource);
      if status != Success {
        return;
      }
      var c := s.chunks[k];
      expectedVram := expectedVram + c.bytes;
      expectedSource := expectedSource + c.bytes;
    }
    WalkEnd(s, expectedVram, expectedSource);
    if expectedSource != s.totalBytes || expectedVram != s.vramOffset + s.totalBytes {
      return BadArgument;
    }
    status := Success;
  }

  /** How a transaction ended: nothing staged, the source in place, VRAM restored after a failure, or a
      restoration that failed. */
  datatype Ending = NotStaged | Committed | RolledBack | RollbackFailed

  /** Backup, stage, verify, and restore on failure. The outcome is all or nothing: success means
      the range holds the source, and any status other than success and `Error` means VRAM is as it
      was. `Error` is the one ambiguous status, which `ending` tells apart: VRAM is as it was unless the
      restoration failed. With a plan and buffers of the right shape no failure comes from chunk
      validation: a mapping was refused, a comparison found wrong bytes, or a restoration failed for one of
      these reasons. */
  method StageTransactional(d: WindowedVram, s: StagePlan, source: seq<byte>, backup: array<byte>, writesEnabled: bool)
    returns (status: Status, ghost ending: Ending)
    requires s.vramSize <= d.vram.Length && |source| <= MAX64 && backup != d.vram && backup.Length <= MAX64
    modifies d`selector, d`refusals, d.vram, backup
    ensures forall i :: 0 <= i < d.vram.Length && !InRange(s, i) ==> d.vram[i] == old(d.vram[i])
    ensures status == Success ==>
              Executable(s) && |source| == s.totalBytes && d.vram[s.vramOffset..s.vramOffset + s.totalBytes] == source
    ensures status != Success && status != Error ==> d.vram[..] == old(d.vram[..])
    ensures status == Success <==> ending == Committed
    ensures ending == RollbackFailed ==> status == Error
    ensures ending == NotStaged || ending == RolledBack ==> d.vram[..] == old(d.vram[..])
    ensures !writesEnabled || !Executable(s) || |source| != s.totalBytes || backup.Length != s.totalBytes ==>
              ending == NotStaged && d.vram[..] == old(d.vram[..])
    ensures writesEnabled && Executable(s) && |source| == s.totalBytes == backup.Length ==>
              && (ending == NotStaged ==> d.refusals > old(d.refusals))
              && (status != Success ==> d.refusals > old(d.refusals) || (!d.exact && status in {IOError, Error}))
              && (ending == RollbackFailed ==> d.refusals > old(d.refusals) || !d.exact)
              && (d.exact && d.Healthy() ==> status == Success)
  {
    ending := NotStaged;
    if !writesEnabled {
      status := NotPermitted;
      return;
    }
    if |source| == 0 || backup.Length != |source| || |source| != s.totalBytes {
      status := BadArgument;
      return;
    }
    status := ReadPramin(d, s, backup, true);
    if status != Success {
      return;
    }
    ghost var before := d.vram[..];
    status := StagePramin(d, s, source, true);
    if status == Success {
      status := VerifyPramin(d, s, source, true);
    }
    if status == Success {
      ending := Committed;
      return;
    }
    var originalFailure := status;
    var rollback := StagePramin(d, s, backup[..], true);
    if rollback == Success {
      rollback := VerifyPramin(d, s, backup[..], true);
    }
    if rollback == Success {
      RestoredEverywhere(before, d.vram[..], s);
      ending := RolledBack;
    } else {
      ending := RollbackFailed;
    }
    status := if rollback == Success then originalFailure else Error;
  }

  /** A range that reads as before, in memory untouched elsewhere, is the whole memory as before. */
  lemma RestoredEverywhere(before: seq<byte>, after: seq<byte>, s: StagePlan)
    requires HeaderOk(s) && |before| == |after| && s.vramSize <= |before|
    requires after[s.vramOffset..s.vramOffset + s.totalBytes] == before[s.vramOffset..s.vramOffset + s.totalBytes]
    requires forall i :: 0 <= i < |before| && !InRange(s, i) ==> after[i] == before[i]
    ensures after == before
  {
    var x, y := before[s.vramOffset..s.vramOffset + s.totalBytes], after[s.vramOffset..s.vramOffset + s.totalBytes];
    forall i | 0 <= i < |before| ensures after[i] == before[i] {
      if InRange(s, i) {
        assert x[i - s.vramOffset] == y[i - s.vramOffset];
      }
    }
  }
}
