/** What a load plan means to the Falcon DMA engine: which bytes of VRAM it copies where. */
module FalconDma {
  import opened Words
  import opened Falcon
  import opened FalconPlan
  import opened Pramin
  import opened Bytes

  /** The DMA registers that a transfer command reads. The memory offset register keeps only what is
      below `limit`: 2^24 by the allow-list, 2^32 for a register as wide as the word written. */
  datatype Port = Port(baseLow: u32, baseHigh: u32, memOffset: u32, fbOffset: u32, limit: nat)
  {
    predicate Valid() { 0 < limit <= 0x1_0000_0000 }

    /** The register still holds the last offset of a load of `bytes` to `dest`. */
    predicate Holds(dest: u32, bytes: u32) { bytes >= TRANSFER ==> dest + bytes - TRANSFER < limit }
  }

  function Low(v: u32, limit: nat): (r: u32)
    requires limit > 0
    ensures v < limit ==> r == v
  {
    v % limit
  }

  datatype Transfer = Transfer(toImem: bool, source: nat, dest: nat, bytes: nat)

  /** Bits 8 to 10 of a command give the size as 4 << n; bit 4 selects instruction memory. */
  function CommandBytes(command: u32): nat { 4 * Pow2(command / 0x100 % 8) }

  function Issue(port: Port, command: u32): Transfer
  {
    Transfer(Bit(command, 4), (port.baseHigh * 0x1_0000_0000 + port.baseLow) * 0x100 + port.fbOffset,
             port.memOffset, CommandBytes(command))
  }

  function Latch(base: u32, port: Port, a: Action): (r: Port)
    requires port.Valid()
    ensures r.Valid() && r.limit == port.limit
  {
    if !a.kind.Write32? then port
    else if a.address == base + DMABASE then port.(baseLow := a.value)
    else if a.address == base + DMABASE1 then port.(baseHigh := a.value)
    else if a.address == base + DMAMEMOFFSET then port.(memOffset := Low(a.value, port.limit))
    else if a.address == base + DMAFBOFFSET then port.(fbOffset := a.value)
    else port
  }

  predicate IsCommand(base: u32, a: Action) { a.kind.Write32? && a.address == base + DMACMD }

  /** The port after a list of actions. */
  function Settle(base: u32, port: Port, actions: seq<Action>): (r: Port)
    requires port.Valid()
    ensures r.Valid() && r.limit == port.limit
    decreases |actions|
  {
    if actions == [] then port else Settle(base, Latch(base, port, actions[0]), actions[1..])
  }

  /** The transfers a list of actions issues, in order. */
  function Transfers(base: u32, port: Port, actions: seq<Action>): seq<Transfer>
    requires port.Valid()
    decreases |actions|
  {
    if actions == [] then []
    else
      (if IsCommand(base, actions[0]) then [Issue(port, actions[0].value)] else [])
      + Transfers(base, Latch(base, port, actions[0]), actions[1..])
  }

  lemma {:induction false} Compose(base: u32, port: Port, xs: seq<Action>, ys: seq<Action>)
    requires port.Valid()
    ensures Settle(base, port, xs + ys) == Settle(base, Settle(base, port, xs), ys)
    ensures Transfers(base, port, xs + ys) ==
            Transfers(base, port, xs) + Transfers(base, Settle(base, port, xs), ys)
    decreases |xs|
  {
    if xs == [] {
      assert xs + ys == ys;
    } else {
      assert (xs + ys)[0] == xs[0] && (xs + ys)[1..] == xs[1..] + ys;
      Compose(base, Latch(base, port, xs[0]), xs[1..], ys);
    }
  }

  /** Actions that neither issue a command nor touch the DMA registers. */
  lemma {:induction false} Silent(base: u32, port: Port, actions: seq<Action>)
    requires port.Valid()
    requires forall a <- actions :: Latch(base, port, a) == port && !IsCommand(base, a)
    ensures Settle(base, port, actions) == port && Transfers(base, port, actions) == []
    decreases |actions|
  {
    if actions != [] {
      assert actions[0] in actions;
      forall a | a in actions[1..] ensures Latch(base, port, a) == port && !IsCommand(base, a) {
        assert a in actions;
      }
      Silent(base, port, actions[1..]);
    }
  }

  /** `n` back-to-back 256-byte transfers. */
  function Run(toImem: bool, source: nat, dest: nat, n: nat): seq<Transfer>
  {
    seq(n, k requires 0 <= k => Transfer(toImem, source + k * TRANSFER, dest + k * TRANSFER, TRANSFER))
  }

  /** The same with destinations as a narrower register keeps them. */
  function Wrapped(limit: nat, toImem: bool, source: nat, dest: nat, n: nat): seq<Transfer>
    requires limit > 0
  {
    seq(n, k requires 0 <= k => Transfer(toImem, source + k * TRANSFER, (dest + k * TRANSFER) % limit, TRANSFER))
  }

  /** Nothing is lost exactly when the last destination is below the limit. */
  lemma WrappedIsRun(limit: nat, toImem: bool, source: nat, dest: nat, n: nat)
    requires limit > 0
    ensures Wrapped(limit, toImem, source, dest, n) == Run(toImem, source, dest, n) <==> (n > 0 ==> dest + (n - 1) * TRANSFER < limit)
  {
    var w, r := Wrapped(limit, toImem, source, dest, n), Run(toImem, source, dest, n);
    if n > 0 {
      if dest + (n - 1) * TRANSFER < limit {
        forall k | 0 <= k < n ensures w[k] == r[k] {
          Below(dest + k * TRANSFER, limit);
        }
      } else {
        assert w[n - 1].dest < limit <= r[n - 1].dest;
      }
    }
  }

  lemma Below(v: nat, limit: nat)
    requires v < limit
    ensures v % limit == v
  {
  }

  /** Both load commands move 256 bytes; only the first targets instruction memory. */
  lemma CommandsSelect()
    ensures CommandBytes(IMEM_COMMAND) == CommandBytes(DMEM_COMMAND) == TRANSFER
    ensures Bit(IMEM_COMMAND, 4) && !Bit(DMEM_COMMAND, 4)
  {
    assert IMEM_COMMAND / 0x100 % 8 == 6 && DMEM_COMMAND / 0x100 % 8 == 6;
    assert Pow2(6) == 64;
  }

  lemma BlockIssues(base: u32, port: Port, dest: u32, memoryOffset: u32, command: u32)
    requires port.Valid()
    requires base <= 0x0084_0000 && (command == IMEM_COMMAND || command == DMEM_COMMAND)
    ensures var actions := Block(base, dest, memoryOffset, command);
      && Settle(base, port, actions) == port.(memOffset := Low(dest, port.limit), fbOffset := memoryOffset)
      && Transfers(base, port, actions) ==
         [Transfer(command == IMEM_COMMAND,
                   (port.baseHigh * 0x1_0000_0000 + port.baseLow) * 0x100 + memoryOffset,
                   Low(dest, port.limit), TRANSFER)]
  {
    var b := Block(base, dest, memoryOffset, command);
    hide Issue, Low, CommandBytes, Bit;
    CommandsSelect();
    assert b == [b[0]] + ([b[1]] + ([b[2]] + [b[3]]));
    Compose(base, port, [b[0]], [b[1]] + ([b[2]] + [b[3]]));
    Compose(base, port, [b[1]], [b[2]] + [b[3]]);
    var p1 := port.(memOffset := Low(dest, port.limit));
    Compose(base, p1, [b[2]], [b[3]]);
    var p2 := p1.(fbOffset := memoryOffset);
    One(base, port, b[0]);
    One(base, port, b[1]);
    One(base, p1, b[2]);
    One(base, p2, b[3]);
    IssueIs(p2, command);
  }

  lemma One(base: u32, port: Port, a: Action)
    requires port.Valid()
    ensures Settle(base, port, [a]) == Latch(base, port, a)
    ensures Transfers(base, port, [a]) == if IsCommand(base, a) then [Issue(port, a.value)] else []
  {
  }

  lemma IssueIs(port: Port, command: u32)
    ensures Issue(port, command) ==
            Transfer(Bit(command, 4), (port.baseHigh * 0x1_0000_0000 + port.baseLow) * 0x100 + port.fbOffset,
                     port.memOffset, CommandBytes(command))
  {
  }

  lemma {:induction false} BlocksIssue(base: u32, port: Port, dest: u32, memoryOffset: u32, command: u32, n: nat)
    requires port.Valid()
    requires base <= 0x0084_0000 && (command == IMEM_COMMAND || command == DMEM_COMMAND)
    requires n > 0 ==> dest + (n - 1) * TRANSFER <= MAX32 && memoryOffset + (n - 1) * TRANSFER <= MAX32
    ensures var actions := Blocks(base, dest, memoryOffset, command, n);
      && var end := Settle(base, port, actions);
      && end.baseLow == port.baseLow && end.baseHigh == port.baseHigh
      && Transfers(base, port, actions) ==
         Wrapped(port.limit, command == IMEM_COMMAND, (port.baseHigh * 0x1_0000_0000 + port.baseLow) * 0x100 + memoryOffset, dest, n)
  {
    if n > 0 {
      var front := Blocks(base, dest, memoryOffset, command, n - 1);
      var last := Block(base, dest + (n - 1) * TRANSFER, memoryOffset + (n - 1) * TRANSFER, command);
      BlocksIssue(base, port, dest, memoryOffset, command, n - 1);
      Compose(base, port, front, last);
      BlockIssues(base, Settle(base, port, front), dest + (n - 1) * TRANSFER, memoryOffset + (n - 1) * TRANSFER, command);
    }
  }

  /** The split base registers rebuild the source, and the load is one run from it. */
  lemma LoadIssues(base: u32, port: Port, source: u64, dest: u32, memoryOffset: u32, bytes: u32, command: u32)
    requires port.Valid()
    requires base <= 0x0084_0000 && (command == IMEM_COMMAND || command == DMEM_COMMAND)
    requires DmaOk(source, dest, memoryOffset, bytes)
    ensures Transfers(base, port, DmaActions(base, source, dest, memoryOffset, bytes, command)) ==
            Wrapped(port.limit, command == IMEM_COMMAND, source + memoryOffset, dest, bytes / TRANSFER)
  {
    hide DmaPreamble, Blocks, Settle, Transfers, Wrapped;
    var pre := DmaPreamble(base, source);
    var blocks := Blocks(base, dest, memoryOffset, command, bytes / TRANSFER);
    var post := [PollFor(base + DMACMD, 0x2, 0x2)];
    Compose(base, port, pre + blocks, post);
    Compose(base, port, pre, blocks);
    PreambleSettles(base, port, source);
    var ready := Settle(base, port, pre);
    BaseRebuilds(source);
    BlocksIssue(base, ready, dest, memoryOffset, command, bytes / TRANSFER);
    One(base, Settle(base, ready, blocks), post[0]);
  }

  /** The preamble latches the source, split over the two base registers. */
  lemma PreambleSettles(base: u32, port: Port, source: u64)
    requires port.Valid() && base <= 0x0084_0000 && source < 0x2_0000_0000_0000
    ensures Settle(base, port, DmaPreamble(base, source)) ==
            port.(baseLow := source / 256 % 0x1_0000_0000, baseHigh := source / 256 / 0x1_0000_0000 % 0x200)
    ensures Transfers(base, port, DmaPreamble(base, source)) == []
  {
    hide Settle, Transfers, Issue;
    var pre := DmaPreamble(base, source);
    assert pre == [pre[0]] + ([pre[1]] + [pre[2]]);
    Compose(base, port, [pre[0]], [pre[1]] + [pre[2]]);
    Compose(base, port, [pre[1]], [pre[2]]);
    One(base, port, pre[0]);
    One(base, port, pre[1]);
    One(base, port.(baseLow := pre[1].value), pre[2]);
  }

  lemma BaseRebuilds(source: u64)
    requires source % TRANSFER == 0 && source < 0x2_0000_0000_0000
    ensures ((source / 256 / 0x1_0000_0000 % 0x200) * 0x1_0000_0000 + source / 256 % 0x1_0000_0000) * 0x100 == source
  {
    var shifted := source / 256;
    assert shifted / 0x1_0000_0000 < 0x200;
    assert shifted == shifted / 0x1_0000_0000 * 0x1_0000_0000 + shifted % 0x1_0000_0000;
  }

  /** The transfers a load is meant to make: the code from `image + codeOffset` to IMEM, then the data from
      `image + dataOffset` to DMEM, block by block, no gap and no overlap. */
  function Intended(p: HsParameters): seq<Transfer>
  {
    Run(true, p.imagePhysicalAddress + p.codeOffset, p.imemPhysicalBase, p.imemBytes / TRANSFER)
    + Run(false, p.imagePhysicalAddress + p.dataOffset, p.dmemPhysicalBase, p.dmemBytes / TRANSFER)
  }

  /** Both destinations stay within the port's memory offset register. */
  predicate PortHolds(p: HsParameters, port: Port)
  {
    port.Holds(p.imemPhysicalBase, p.imemBytes) && port.Holds(p.dmemPhysicalBase, p.dmemBytes)
  }

  /** Whatever the registers held before, a valid load plan issues exactly the intended transfers if and
      only if the memory offset register holds every destination. One of 32 bits always does. */
  lemma PlanTransfers(p: HsParameters, port: Port)
    requires LoadValid(p) && port.Valid()
    ensures Transfers(EngineBase(p.engine), port, LoadActions(p)) == Intended(p) <==> PortHolds(p, port)
    ensures port.limit == 0x1_0000_0000 ==> PortHolds(p, port)
  {
    hide LoadSetup, ImemLoad, DmemLoad, LoadFinish, Transfers, Settle, DmaActions, Wrapped, Run;
    var base := EngineBase(p.engine);
    var setup, code, data, finish := LoadSetup(base), ImemLoad(p), DmemLoad(p), LoadFinish(p);
    Compose(base, port, setup + code + data, finish);
    Compose(base, port, setup + code, data);
    Compose(base, port, setup, code);
    SetupSilent(base, port);
    FinishSilent(p, Settle(base, port, setup + code + data));
    CodeIssues(p, port);
    DataIssues(p, Settle(base, port, setup + code));
    WrappedIsRun(port.limit, true, p.imagePhysicalAddress + p.codeOffset, p.imemPhysicalBase, p.imemBytes / TRANSFER);
    WrappedIsRun(port.limit, false, p.imagePhysicalAddress + p.dataOffset, p.dmemPhysicalBase, p.dmemBytes / TRANSFER);
    JoinedEqual(Wrapped(port.limit, true, p.imagePhysicalAddress + p.codeOffset, p.imemPhysicalBase, p.imemBytes / TRANSFER),
                Wrapped(port.limit, false, p.imagePhysicalAddress + p.dataOffset, p.dmemPhysicalBase, p.dmemBytes / TRANSFER),
                Run(true, p.imagePhysicalAddress + p.codeOffset, p.imemPhysicalBase, p.imemBytes / TRANSFER),
                Run(false, p.imagePhysicalAddress + p.dataOffset, p.dmemPhysicalBase, p.dmemBytes / TRANSFER));
    SameLength(port.limit, true, p.imagePhysicalAddress + p.codeOffset, p.imemPhysicalBase, p.imemBytes / TRANSFER);
  }

  lemma SameLength(limit: nat, toImem: bool, source: nat, dest: nat, n: nat)
    requires limit > 0
    ensures |Wrapped(limit, toImem, source, dest, n)| == |Run(toImem, source, dest, n)| == n
  {
  }

  lemma JoinedEqual(a: seq<Transfer>, b: seq<Transfer>, c: seq<Transfer>, d: seq<Transfer>)
    ensures |a| == |c| ==> (a + b == c + d <==> a == c && b == d)
  {
    if |a| == |c| && a + b == c + d {
      assert (a + b)[..|a|] == a && (c + d)[..|a|] == c;
      assert (a + b)[|a|..] == b && (c + d)[|a|..] == d;
    }
  }

  lemma CodeIssues(p: HsParameters, port: Port)
    requires LoadValid(p) && port.Valid()
    ensures Transfers(EngineBase(p.engine), port, ImemLoad(p)) ==
            Wrapped(port.limit, true, p.imagePhysicalAddress + p.codeOffset, p.imemPhysicalBase, p.imemBytes / TRANSFER)
  {
    hide DmaActions, Transfers;
    LoadIssues(EngineBase(p.engine), port, p.imagePhysicalAddress + p.codeOffset - p.imemVirtualBase,
               p.imemPhysicalBase, p.imemVirtualBase, p.imemBytes, IMEM_COMMAND);
  }

  lemma DataIssues(p: HsParameters, port: Port)
    requires LoadValid(p) && port.Valid()
    ensures Transfers(EngineBase(p.engine), port, DmemLoad(p)) ==
            Wrapped(port.limit, false, p.imagePhysicalAddress + p.dataOffset, p.dmemPhysicalBase, p.dmemBytes / TRANSFER)
  {
    hide DmaActions, Transfers;
    LoadIssues(EngineBase(p.engine), port, p.imagePhysicalAddress + p.dataOffset - p.dmemVirtualBase,
               p.dmemPhysicalBase, p.dmemVirtualBase, p.dmemBytes, DMEM_COMMAND);
  }

  lemma SetupSilent(base: u32, port: Port)
    requires base <= 0x0084_0000 && port.Valid()
    ensures Transfers(base, port, LoadSetup(base)) == [] && Settle(base, port, LoadSetup(base)) == port
  {
    Silent(base, port, LoadSetup(base));
  }

  lemma FinishSilent(p: HsParameters, port: Port)
    requires port.Valid()
    ensures Transfers(EngineBase(p.engine), port, LoadFinish(p)) == []
  {
    Silent(EngineBase(p.engine), port, LoadFinish(p));
  }

  // ---- The memories ----

  /** Instruction and data memory of one Falcon, byte by byte. */
  datatype Memories = Memories(imem: nat -> byte, dmem: nat -> byte)

  function Copy(to: nat -> byte, dest: nat, from: nat -> byte, source: nat, bytes: nat): nat -> byte
  {
    (i: nat) => if dest <= i < dest + bytes then from(source + i - dest) else to(i)
  }

  function Perform(m: Memories, vram: nat -> byte, t: Transfer): Memories
  {
    if t.toImem then m.(imem := Copy(m.imem, t.dest, vram, t.source, t.bytes))
    else m.(dmem := Copy(m.dmem, t.dest, vram, t.source, t.bytes))
  }

  function PerformAll(m: Memories, vram: nat -> byte, ts: seq<Transfer>): Memories
    decreases |ts|
  {
    if ts == [] then m else PerformAll(Perform(m, vram, ts[0]), vram, ts[1..])
  }

  lemma {:induction false} PerformAppend(m: Memories, vram: nat -> byte, xs: seq<Transfer>, ys: seq<Transfer>)
    ensures PerformAll(m, vram, xs + ys) == PerformAll(PerformAll(m, vram, xs), vram, ys)
    decreases |xs|
  {
    if xs == [] {
      assert xs + ys == ys;
    } else {
      assert (xs + ys)[0] == xs[0] && (xs + ys)[1..] == xs[1..] + ys;
      PerformAppend(Perform(m, vram, xs[0]), vram, xs[1..], ys);
    }
  }

  /** Byte `i` of the memory a run targets, and of the one it leaves alone. */
  lemma {:induction false} RunCopies(m: Memories, vram: nat -> byte, toImem: bool, source: nat, dest: nat, n: nat, i: nat)
    ensures var after := PerformAll(m, vram, Run(toImem, source, dest, n));
      && var copied := dest <= i < dest + n * TRANSFER;
      && after.imem(i) == (if toImem && copied then vram(source + i - dest) else m.imem(i))
      && after.dmem(i) == (if !toImem && copied then vram(source + i - dest) else m.dmem(i))
  {
    if n > 0 {
      var last := Transfer(toImem, source + (n - 1) * TRANSFER, dest + (n - 1) * TRANSFER, TRANSFER);
      assert Run(toImem, source, dest, n) == Run(toImem, source, dest, n - 1) + [last];
      RunCopies(m, vram, toImem, source, dest, n - 1, i);
      PerformAppend(m, vram, Run(toImem, source, dest, n - 1), [last]);
      var before := PerformAll(m, vram, Run(toImem, source, dest, n - 1));
      assert PerformAll(before, vram, [last]) == Perform(before, vram, last);
    }
  }

  /** The engine's memories after the intended transfers, from any memories and any VRAM. */
  lemma IntendedLoads(p: HsParameters, m: Memories, vram: nat -> byte, i: nat)
    requires LoadValid(p)
    ensures var after := PerformAll(m, vram, Intended(p));
      && after.imem(i) == (if p.imemPhysicalBase <= i < p.imemPhysicalBase + p.imemBytes
                           then vram(p.imagePhysicalAddress + p.codeOffset + i - p.imemPhysicalBase) else m.imem(i))
      && after.dmem(i) == (if p.dmemPhysicalBase <= i < p.dmemPhysicalBase + p.dmemBytes
                           then vram(p.imagePhysicalAddress + p.dataOffset + i - p.dmemPhysicalBase) else m.dmem(i))
  {
    hide Run, DmaOk;
    var code := Run(true, p.imagePhysicalAddress + p.codeOffset, p.imemPhysicalBase, p.imemBytes / TRANSFER);
    var data := Run(false, p.imagePhysicalAddress + p.dataOffset, p.dmemPhysicalBase, p.dmemBytes / TRANSFER);
    PerformAppend(m, vram, code, data);
    RunCopies(m, vram, true, p.imagePhysicalAddress + p.codeOffset, p.imemPhysicalBase, p.imemBytes / TRANSFER, i);
    RunCopies(PerformAll(m, vram, code), vram, false, p.imagePhysicalAddress + p.dataOffset, p.dmemPhysicalBase, p.dmemBytes / TRANSFER, i);
  }

  /** VRAM as the DMA engine reads it. */
  function ViewOf(vram: seq<byte>): nat -> byte
  {
    (i: nat) => if i < |vram| then vram[i] else 0
  }

  /** From any VRAM that holds the image at the plan's address, as a successful staging leaves it, the intended
      transfers put the firmware bytes from the code and data offsets into the two memories. */
  lemma ImageIsLoaded(p: HsParameters, m: Memories, vram: seq<byte>, image: seq<byte>, j: nat)
    requires LoadValid(p) && p.imagePhysicalAddress + |image| <= |vram|
    requires vram[p.imagePhysicalAddress..p.imagePhysicalAddress + |image|] == image
    requires p.codeOffset + p.imemBytes <= |image| && p.dataOffset + p.dmemBytes <= |image|
    ensures var after := PerformAll(m, ViewOf(vram), Intended(p));
      && (j < p.imemBytes ==> after.imem(p.imemPhysicalBase + j) == image[p.codeOffset + j])
      && (j < p.dmemBytes ==> after.dmem(p.dmemPhysicalBase + j) == image[p.dataOffset + j])
  {
    hide Intended, PerformAll, DmaOk;
    var at, held := p.imagePhysicalAddress, vram[p.imagePhysicalAddress..p.imagePhysicalAddress + |image|];
    IntendedLoads(p, m, ViewOf(vram), p.imemPhysicalBase + j);
    IntendedLoads(p, m, ViewOf(vram), p.dmemPhysicalBase + j);
    if j < p.imemBytes { assert held[p.codeOffset + j] == vram[at + p.codeOffset + j]; }
    if j < p.dmemBytes { assert held[p.dataOffset + j] == vram[at + p.dataOffset + j]; }
  }

  /** Staging then loading: with the image staged at the plan's address window by window, for every index `j`. */
  lemma StagedFirmwareIsLoaded(p: HsParameters, m: Memories, vram: seq<byte>, image: seq<byte>, selector: u32, s: StagePlan, j: nat)
    requires LoadValid(p)
    requires Executable(s) && |vram| == s.vramSize && |image| == s.totalBytes && s.vramOffset == p.imagePhysicalAddress
    requires p.codeOffset + p.imemBytes <= |image| && p.dataOffset + p.dmemBytes <= |image|
    ensures var after := PerformAll(m, ViewOf(Replay(vram, selector, StepsOf(s.chunks), image, 0)), Intended(p));
      && (j < p.imemBytes ==> after.imem(p.imemPhysicalBase + j) == image[p.codeOffset + j])
      && (j < p.dmemBytes ==> after.dmem(p.dmemPhysicalBase + j) == image[p.dataOffset + j])
  {
    hide Intended, Executable, Replay, StepsOf, PerformAll, DmaOk;
    HeaderOf(s);
    ReplayIsFlatCopy(s, vram, selector, image);
    ImageIsLoaded(p, m, Splice(vram, s.vramOffset, image), image, j);
  }

  lemma HeaderOf(s: StagePlan)
    requires Executable(s)
    ensures s.vramOffset + s.totalBytes <= s.vramSize
  {
  }
}
