/** What the planned Falcon loads and resets leave in a log when they succeed: registers, values and order, each
    stated by its number. */
module PlanTrace {
  import opened Words
  import opened Wrappers
  import opened Falcon
  import opened FalconLog
  import opened Mmio
  import L = FalconPlan

  // ---- Reading a trace from a position ----

  ghost predicate From(actions: seq<Action>, log: Log, k: nat) { k <= |log| && ListLeaves(actions, log[k..]) }

  lemma Next(a: Action, rest: seq<Action>, log: Log, k: nat) returns (j: nat)
    requires From([a] + rest, log, k)
    ensures k <= j <= |log| && Leaves(a, log[k..j]) && From(rest, log, j)
  {
    hide Leaves;
    assert ([a] + rest)[1..] == rest;
    var i := Peel([a] + rest, log[k..]);
    j := k + i;
    assert log[k..][..i] == log[k..j] && log[k..][i..] == log[j..];
  }

  lemma PutNext(address: u32, value: u32, mask: u32, rest: seq<Action>, log: Log, k: nat)
    requires From([Action(Write32, address, value, mask, 0)] + rest, log, k)
    ensures From(rest, log, k + 2) && log[k] == Write(address, value, false) && ReadOf(log[k + 1], address)
  {
    hide From;
    var j := Next(Action(Write32, address, value, mask, 0), rest, log, k);
    assert log[k..j][0] == log[k] && log[k..j][1] == log[k + 1];
  }

  lemma ChangeNext(address: u32, value: u32, mask: u32, rest: seq<Action>, log: Log, k: nat)
    requires From([Action(MaskedWrite, address, value, mask, 0)] + rest, log, k)
    ensures From(rest, log, k + 3) && k + 3 <= |log| && ChangeLeaves(address, mask, value, log[k..k + 3])
  {
    hide From, Merges;
    var j := Next(Action(MaskedWrite, address, value, mask, 0), rest, log, k);
  }

  /** What a successful poll leaves from `k` on, its last reading being the one before `j`. */
  ghost predicate PollFromTo(address: u32, mask: u32, value: u32, timeout: nat, log: Log, k: nat, j: nat)
  {
    k < j <= |log| && PollLeaves(address, mask, value, timeout, log[k..j])
  }

  lemma PollNext(address: u32, mask: u32, value: u32, timeout: u32, rest: seq<Action>, log: Log, k: nat) returns (j: nat)
    requires From([Action(PollMaskEqual, address, value, mask, timeout)] + rest, log, k)
    ensures From(rest, log, j) && PollFromTo(address, mask, value, timeout, log, k, j)
  {
    hide From, Missed, Matches;
    j := Next(Action(PollMaskEqual, address, value, mask, timeout), rest, log, k);
  }

  lemma StartNext(address: u32, rest: seq<Action>, log: Log, k: nat) returns (j: nat)
    requires From([Action(StartCpuRespectAlias, address, 0, 0, 0)] + rest, log, k)
    ensures From(rest, log, j) && k < j <= |log| && StartLeaves(address, log[k..j])
  {
    hide From, Merges;
    j := Next(Action(StartCpuRespectAlias, address, 0, 0, 0), rest, log, k);
  }

  lemma DelayNext(milliseconds: u32, rest: seq<Action>, log: Log, k: nat)
    requires From([Action(DelayMilliseconds, 0, milliseconds, 0, 0)] + rest, log, k)
    ensures From(rest, log, k + 1) && log[k] == Sleep(milliseconds)
  {
    hide From;
    var j := Next(Action(DelayMilliseconds, 0, milliseconds, 0, 0), rest, log, k);
    assert log[k..j][0] == log[k];
  }

  lemma AtEnd(log: Log, k: nat)
    requires From([], log, k)
    ensures k == |log|
  {
  }

  /** A plain list before a program. */
  lemma {:induction false} PlainThen(xs: seq<Action>, q: Prog, log: Log) returns (k: nat)
    requires (forall a <- xs :: !IsMarker(a)) && q.WellFormed()
    requires ProgLeaves(Parse(xs + q.Flatten()), log)
    ensures k <= |log| && ListLeaves(xs, log[..k]) && ProgLeaves(q, log[k..])
    decreases |xs|
  {
    hide Leaves;
    if xs == [] {
      k := 0;
      assert xs + q.Flatten() == q.Flatten() && log[0..] == log;
      ParseFlatten(q);
    } else {
      assert xs[0] in xs;
      var ys := xs + q.Flatten();
      assert ys[0] == xs[0] && ys[1..] == xs[1..] + q.Flatten();
      var i :| 0 <= i <= |log| && Leaves(xs[0], log[..i]) && ProgLeaves(Parse(ys[1..]), log[i..]);
      var j := PlainThen(xs[1..], q, log[i..]);
      k := i + j;
      assert log[i..][..j] == log[..k][i..] && log[i..][j..] == log[k..] && log[..k][..i] == log[..i];
    }
  }

  // ---- Bits of merged words ----

  /** Merging under a mask of the low bits. */
  lemma MergedLow(stored: u32, before: u32, value: u32, k: nat)
    requires k <= 32 && Pow2(k) - 1 <= MAX32 && Merges(stored, before, Pow2(k) - 1, value)
    ensures stored % Pow2(k) == value % Pow2(k)
  {
    forall i | 0 <= i < k ensures Bit(stored, i) == Bit(value, i) { Ones(k, i); }
    LowBits(stored, value, k);
  }

  // ---- Loads ----

  /** Where the finish of a load starts the CPU. */
  function StartIndex(p: L.HsParameters): nat { if p.mailbox.Some? then 15 else 11 }

  /** The end of a load: boot ROM parameters, boot vector, mailbox, start, and the wait for the halt. */
  ghost predicate FinishLeaves(p: L.HsParameters, log: Log, k: nat)
  {
    var base, s := EngineBase(p.engine), k + StartIndex(p);
    && |log| > s
    && log[k] == Write(base + 0x1210, p.pkcOffset, false) && ReadOf(log[k + 1], base + 0x1210)
    && log[k + 2] == Write(base + 0x119C, p.engineIdMask, false) && ReadOf(log[k + 3], base + 0x119C)
    && log[k + 4] == Write(base + 0x1198, p.ucodeId, false) && ReadOf(log[k + 5], base + 0x1198)
    && ChangeLeaves(base + 0x1180, 0xFF, 1, log[k + 6..k + 9]) && log[k + 7].value % 0x100 == 1
    && log[k + 9] == Write(base + 0x104, p.imemVirtualBase, false) && ReadOf(log[k + 10], base + 0x104)
    && (p.mailbox.Some? ==>
          && log[k + 11].Write? && log[k + 11].address == base + 0x40 && !log[k + 11].merged && ReadOf(log[k + 12], base + 0x40)
          && log[k + 13].Write? && log[k + 13].address == base + 0x44 && !log[k + 13].merged && ReadOf(log[k + 14], base + 0x44)
          && log[k + 11].value + 0x1_0000_0000 * log[k + 13].value == p.mailbox.value)
    && exists j :: s < j < |log| && StartLeaves(base + 0x100, log[s..j])
                   && PollFromTo(base + 0x100, 0x10, 0x10, 10000, log, j, |log|)
  }

  lemma FinishTrace(p: L.HsParameters, log: Log, k: nat)
    requires From(L.LoadFinish(p), log, k)
    ensures FinishLeaves(p, log, k)
  {
    hide From, StartLeaves, ChangeLeaves, PollFromTo;
    var base := EngineBase(p.engine);
    var start, last := Action(StartCpuRespectAlias, base + 0x100, 0, 0, 0), L.PollFor(base + 0x100, 0x10, 0x10);
    var post := L.MailboxActions(base, p.mailbox) + [start, last];
    var r4 := [L.Put(base + 0x104, p.imemVirtualBase, MAX32)] + post;
    var r3 := [L.Change(base + 0x1180, 1, 0xFF)] + r4;
    var r2 := [L.Put(base + 0x1198, p.ucodeId, 0xFF)] + r3;
    var r1 := [L.Put(base + 0x119C, p.engineIdMask, MAX32)] + r2;
    assert L.LoadFinish(p) == [L.Put(base + 0x1210, p.pkcOffset, MAX32)] + r1;
    PutNext(base + 0x1210, p.pkcOffset, MAX32, r1, log, k);
    PutNext(base + 0x119C, p.engineIdMask, MAX32, r2, log, k + 2);
    PutNext(base + 0x1198, p.ucodeId, 0xFF, r3, log, k + 4);
    ChangeNext(base + 0x1180, 1, 0xFF, r4, log, k + 6);
    ModeSelected(base + 0x1180, log, k + 6);
    PutNext(base + 0x104, p.imemVirtualBase, MAX32, post, log, k + 9);
    MailboxTrace(base, p.mailbox, [start, last], log, k + 11);
    var s := k + StartIndex(p);
    assert [start, last] == [start] + [last] && [last] == [last] + [];
    var j := StartNext(base + 0x100, [last], log, s);
    var end := PollNext(base + 0x100, 0x10, 0x10, L.POLL_TIMEOUT, [], log, j);
    AtEnd(log, end);
    Fits(log, base + 0x100, j, end);
  }

  lemma ModeSelected(address: u32, log: Log, k: nat)
    requires k + 3 <= |log| && ChangeLeaves(address, 0xFF, 1, log[k..k + 3])
    ensures log[k + 1].Write? && log[k + 1].address == address && log[k + 1].value % 0x100 == 1
  {
    hide Merges;
    var log3 := log[k..k + 3];
    assert log3[1] == log[k + 1];
    assert Pow2(8) == 0x100;
    MergedLow(log3[1].value, log3[0].value, 1, 8);
  }

  lemma Fits(log: Log, address: u32, j: nat, end: nat)
    requires PollFromTo(address, 0x10, 0x10, 10000, log, j, end)
    ensures j < end <= |log|
  {
  }

  lemma MailboxTrace(base: u32, mailbox: Option<u64>, rest: seq<Action>, log: Log, k: nat)
    requires base <= 0x0084_0000 && From(L.MailboxActions(base, mailbox) + rest, log, k)
    ensures From(rest, log, if mailbox.Some? then k + 4 else k)
    ensures mailbox.Some? ==>
          && |log| >= k + 4
          && log[k].Write? && log[k].address == base + 0x40 && !log[k].merged && ReadOf(log[k + 1], base + 0x40)
          && log[k + 2].Write? && log[k + 2].address == base + 0x44 && !log[k + 2].merged && ReadOf(log[k + 3], base + 0x44)
          && log[k].value + 0x1_0000_0000 * log[k + 2].value == mailbox.value
  {
    if mailbox.Some? {
      var low, high := L.Put(base + 0x40, mailbox.value % 0x1_0000_0000, MAX32), L.Put(base + 0x44, mailbox.value / 0x1_0000_0000, MAX32);
      assert L.MailboxActions(base, mailbox) + rest == [low] + ([high] + rest);
      PutNext(base + 0x40, low.value, MAX32, [high] + rest, log, k);
      PutNext(base + 0x44, high.value, MAX32, rest, log, k + 2);
    } else {
      assert L.MailboxActions(base, mailbox) + rest == rest;
    }
  }

  /** The beginning of a load: the memory interface accepts physical addresses without a context. */
  ghost predicate SetupLeaves(base: u32, log: Log)
    requires base <= 0x0084_0000
  {
    && |log| >= 8
    && ChangeLeaves(base + 0x624, 0x80, 0x80, log[0..3]) && log[1].value / 128 % 2 == 1
    && log[3] == Write(base + 0x10C, 0, false) && ReadOf(log[4], base + 0x10C)
    && ChangeLeaves(base + 0x600, 7, 4, log[5..8]) && log[6].value % 8 == 4
  }

  lemma SetupTrace(base: u32, rest: seq<Action>, log: Log)
    requires base <= 0x0084_0000 && From(L.LoadSetup(base) + rest, log, 0)
    ensures SetupLeaves(base, log) && From(rest, log, 8)
  {
    hide From, Merges;
    var r2 := [L.Change(base + 0x600, 4, 7)] + rest;
    var r1 := [L.Put(base + 0x10C, 0, 7)] + r2;
    assert L.LoadSetup(base) + rest == [L.Change(base + 0x624, 0x80, 0x80)] + r1;
    ChangeNext(base + 0x624, 0x80, 0x80, r1, log, 0);
    PutNext(base + 0x10C, 0, 7, r2, log, 3);
    ChangeNext(base + 0x600, 4, 7, rest, log, 5);
    assert log[0..3][1] == log[1] && log[5..8][1] == log[6];
    BitSeven(log[1].value, log[0..3][0].value);
    assert Pow2(3) == 8;
    MergedLow(log[6].value, log[5..8][0].value, 4, 3);
  }

  lemma BitSeven(stored: u32, before: u32)
    requires Merges(stored, before, 0x80, 0x80)
    ensures stored / 128 % 2 == 1
  {
    assert Pow2(7) == 128;
    BitIs(stored, 7);
    BitIs(0x80, 7);
  }

  function DmaRegisters(base: u32): iset<nat> { iset{base + 0x110, base + 0x128, base + 0x114, base + 0x11C, base + 0x118} }

  lemma TargetsJoin(xs: seq<Action>, ys: seq<Action>, region: iset<nat>)
    requires AllTarget(xs, region) && AllTarget(ys, region)
    ensures AllTarget(xs + ys, region)
  {
    hide Targets;
  }

  lemma {:induction false} BlocksTarget(base: u32, dest: u32, memoryOffset: u32, command: u32, n: nat)
    requires base <= 0x0084_0000
    requires n > 0 ==> dest + (n - 1) * L.TRANSFER <= MAX32 && memoryOffset + (n - 1) * L.TRANSFER <= MAX32
    ensures AllTarget(L.Blocks(base, dest, memoryOffset, command, n), DmaRegisters(base))
  {
    hide AllTarget;
    if n == 0 {
      NoTargets(DmaRegisters(base));
    } else {
      BlocksTarget(base, dest, memoryOffset, command, n - 1);
      BlockTarget(base, dest + (n - 1) * L.TRANSFER, memoryOffset + (n - 1) * L.TRANSFER, command);
      TargetsJoin(L.Blocks(base, dest, memoryOffset, command, n - 1),
                  L.Block(base, dest + (n - 1) * L.TRANSFER, memoryOffset + (n - 1) * L.TRANSFER, command), DmaRegisters(base));
    }
  }

  lemma NoTargets(region: iset<nat>)
    ensures AllTarget([], region)
  {
  }

  lemma BlockTarget(base: u32, dest: u32, memoryOffset: u32, command: u32)
    requires base <= 0x0084_0000
    ensures AllTarget(L.Block(base, dest, memoryOffset, command), DmaRegisters(base))
  {
  }

  lemma DmaTarget(base: u32, source: u64, dest: u32, memoryOffset: u32, bytes: u32, command: u32)
    requires base <= 0x0084_0000 && L.DmaOk(source, dest, memoryOffset, bytes)
    ensures AllTarget(L.DmaActions(base, source, dest, memoryOffset, bytes, command), DmaRegisters(base))
  {
    hide L.Blocks, AllTarget;
    var r, n := DmaRegisters(base), bytes / L.TRANSFER;
    BlocksTarget(base, dest, memoryOffset, command, n);
    DmaEndsTarget(base, source);
    TargetsJoin(L.DmaPreamble(base, source), L.Blocks(base, dest, memoryOffset, command, n), r);
    TargetsJoin(L.DmaPreamble(base, source) + L.Blocks(base, dest, memoryOffset, command, n),
                [L.PollFor(base + L.DMACMD, 0x2, 0x2)], r);
  }

  lemma DmaEndsTarget(base: u32, source: u64)
    requires base <= 0x0084_0000 && source < 0x2_0000_0000_0000
    ensures AllTarget(L.DmaPreamble(base, source), DmaRegisters(base))
    ensures AllTarget([L.PollFor(base + L.DMACMD, 0x2, 0x2)], DmaRegisters(base))
  {
  }

  /** Every command to the DMA engine follows a reading that shows room in its queue, and the two offsets. */
  predicate Paced(base: u32, log: Log)
    requires base <= 0x0084_0000
  {
    forall t :: 0 <= t < |log| && log[t].Write? && log[t].address == base + 0x118 ==> CommandAt(base, log, t)
  }

  predicate CommandAt(base: u32, log: Log, t: nat)
    requires base <= 0x0084_0000 && t < |log|
  {
    && t >= 5 && ReadOf(log[t - 5], base + 0x118) && log[t - 5].value % 2 == 0
    && log[t - 4].Write? && log[t - 4].address == base + 0x114
    && log[t - 2].Write? && log[t - 2].address == base + 0x11C
  }

  lemma PacedJoin(base: u32, log: Log, k: nat)
    requires base <= 0x0084_0000 && k <= |log| && Paced(base, log[..k]) && Paced(base, log[k..])
    ensures Paced(base, log)
  {
    var xs, ys := log[..k], log[k..];
    forall t | 0 <= t < |log| && log[t].Write? && log[t].address == base + 0x118 ensures CommandAt(base, log, t) {
      if t < k {
        assert xs[t] == log[t] && CommandAt(base, xs, t);
      } else {
        assert ys[t - k] == log[t] && CommandAt(base, ys, t - k);
        assert ys[t - k - 5] == log[t - 5] && ys[t - k - 4] == log[t - 4] && ys[t - k - 2] == log[t - 2];
      }
    }
  }

  lemma BlockTraced(base: u32, dest: u32, memoryOffset: u32, command: u32, log: Log)
    requires base <= 0x0084_0000 && ListLeaves(L.Block(base, dest, memoryOffset, command), log)
    ensures Paced(base, log)
  {
    hide From, PollFromTo, Matches, ListLeaves, Paced;
    var r3 := [L.Put(base + 0x118, command, 0x0001_773F)];
    var r2 := [L.Put(base + 0x11C, memoryOffset, MAX32)] + r3;
    var r1 := [L.Put(base + 0x114, dest, 0x00FF_FFFF)] + r2;
    assert L.Block(base, dest, memoryOffset, command) == [L.PollFor(base + 0x118, 0x1, 0)] + r1 && r3 == r3 + [];
    FromWhole(L.Block(base, dest, memoryOffset, command), log);
    var j := PollNext(base + 0x118, 0x1, 0, L.POLL_TIMEOUT, r1, log, 0);
    PutNext(base + 0x114, dest, 0x00FF_FFFF, r2, log, j);
    PutNext(base + 0x11C, memoryOffset, MAX32, r3, log, j + 2);
    PutNext(base + 0x118, command, 0x0001_773F, [], log, j + 4);
    AtEnd(log, j + 6);
    Limits(base + 0x118, 0x1, 0, 10000, log, 0, j);
    PollLast(base + 0x118, 0x1, 0, 10000, log, 0, j);
    PollQuiet(base + 0x118, 0x1, 0, 10000, log, 0, j);
    QueueHasRoom(log[j - 1].value);
    OneCommand(base, log, j);
  }

  lemma OneCommand(base: u32, log: Log, j: nat)
    requires base <= 0x0084_0000 && |log| == j + 6 && j > 0 && forall i :: 0 <= i < j ==> !log[i].Write?
    requires ReadOf(log[j - 1], base + 0x118) && log[j - 1].value % 2 == 0
    requires log[j].Write? && log[j].address == base + 0x114 && log[j + 1].Read?
    requires log[j + 2].Write? && log[j + 2].address == base + 0x11C && log[j + 3].Read? && log[j + 5].Read?
    ensures Paced(base, log)
  {
  }

  lemma FromWhole(actions: seq<Action>, log: Log)
    requires ListLeaves(actions, log)
    ensures From(actions, log, 0)
  {
    assert log[0..] == log;
  }

  lemma QueueHasRoom(seen: u32)
    requires Matches(seen, 1, 0)
    ensures seen % 2 == 0
  {
    assert Bit(1, 0) && !Bit(0, 0);
  }

  lemma Idle(seen: u32)
    requires Matches(seen, 2, 2)
    ensures seen / 2 % 2 == 1
  {
    assert Pow2(1) == 2;
    BitIs(seen, 1);
    BitIs(2, 1);
  }

  lemma {:induction false} BlocksPaced(base: u32, dest: u32, memoryOffset: u32, command: u32, n: nat, log: Log)
    requires base <= 0x0084_0000
    requires n > 0 ==> dest + (n - 1) * L.TRANSFER <= MAX32 && memoryOffset + (n - 1) * L.TRANSFER <= MAX32
    requires ListLeaves(L.Blocks(base, dest, memoryOffset, command, n), log)
    ensures Paced(base, log)
  {
    hide ListLeaves, L.Block, Paced;
    if n == 0 {
      NothingPaced(base, log);
    } else {
      var last := L.Block(base, dest + (n - 1) * L.TRANSFER, memoryOffset + (n - 1) * L.TRANSFER, command);
      var k := ListSplit(L.Blocks(base, dest, memoryOffset, command, n - 1), last, log);
      BlocksPaced(base, dest, memoryOffset, command, n - 1, log[..k]);
      BlockTraced(base, dest + (n - 1) * L.TRANSFER, memoryOffset + (n - 1) * L.TRANSFER, command, log[k..]);
      PacedJoin(base, log, k);
    }
  }

  lemma NothingPaced(base: u32, log: Log)
    requires base <= 0x0084_0000 && ListLeaves([], log)
    ensures Paced(base, log)
  {
  }

  /** What one DMA load leaves: commands paced by the queue, and at the end a reading that shows the engine idle. */
  predicate DmaLeaves(base: u32, log: Log)
    requires base <= 0x0084_0000
  {
    && |log| > 0 && Paced(base, log) && WritesIn(log, DmaRegisters(base))
    && ReadOf(log[|log| - 1], base + 0x118) && log[|log| - 1].value / 2 % 2 == 1
  }

  lemma DmaTrace(base: u32, source: u64, dest: u32, memoryOffset: u32, bytes: u32, command: u32, log: Log)
    requires base <= 0x0084_0000 && L.DmaOk(source, dest, memoryOffset, bytes)
    requires ListLeaves(L.DmaActions(base, source, dest, memoryOffset, bytes, command), log)
    ensures DmaLeaves(base, log)
  {
    hide ListLeaves, L.Blocks, L.DmaPreamble, Paced;
    var head, blocks := L.DmaPreamble(base, source), L.Blocks(base, dest, memoryOffset, command, bytes / L.TRANSFER);
    var last := [L.PollFor(base + 0x118, 0x2, 0x2)];
    assert L.DmaActions(base, source, dest, memoryOffset, bytes, command) == head + (blocks + last);
    DmaTarget(base, source, dest, memoryOffset, bytes, command);
    ListTargets(L.DmaActions(base, source, dest, memoryOffset, bytes, command), log, DmaRegisters(base));
    var i := ListSplit(head, blocks + last, log);
    var j := ListSplit(blocks, last, log[i..]);
    HeadPaced(base, source, log[..i]);
    BlocksPaced(base, dest, memoryOffset, command, bytes / L.TRANSFER, log[i..][..j]);
    IdlePaced(base, log[i..][j..]);
    PacedJoin(base, log[i..], j);
    PacedJoin(base, log, i);
    assert log[i..][j..][|log[i..][j..]| - 1] == log[|log| - 1];
  }

  lemma HeadPaced(base: u32, source: u64, log: Log)
    requires base <= 0x0084_0000 && source < 0x2_0000_0000_0000 && ListLeaves(L.DmaPreamble(base, source), log)
    ensures Paced(base, log)
  {
    hide ListLeaves;
    assert AllTarget(L.DmaPreamble(base, source), iset{base + 0x110, base + 0x128});
    ListTargets(L.DmaPreamble(base, source), log, iset{base + 0x110, base + 0x128});
  }

  lemma IdlePaced(base: u32, log: Log)
    requires base <= 0x0084_0000 && ListLeaves([L.PollFor(base + 0x118, 0x2, 0x2)], log)
    ensures |log| > 0 && Paced(base, log) && ReadOf(log[|log| - 1], base + 0x118) && log[|log| - 1].value / 2 % 2 == 1
  {
    hide From, PollFromTo, ListLeaves;
    assert [L.PollFor(base + 0x118, 0x2, 0x2)] == [L.PollFor(base + 0x118, 0x2, 0x2)] + [];
    FromWhole([L.PollFor(base + 0x118, 0x2, 0x2)], log);
    var j := PollNext(base + 0x118, 0x2, 0x2, L.POLL_TIMEOUT, [], log, 0);
    AtEnd(log, j);
    Limits(base + 0x118, 0x2, 0x2, 10000, log, 0, j);
    PollLast(base + 0x118, 0x2, 0x2, 10000, log, 0, j);
    PollQuiet(base + 0x118, 0x2, 0x2, 10000, log, 0, j);
    Idle(log[j - 1].value);
  }

  /** A successful load: its setup, then a DMA load for each memory, then its finish. */
  lemma LoadTrace(p: L.HsParameters, log: Log) returns (i: nat, k: nat)
    requires L.LoadValid(p) && ListLeaves(L.LoadActions(p), log)
    ensures SetupLeaves(EngineBase(p.engine), log)
    ensures 8 <= i <= k <= |log| && DmaLeaves(EngineBase(p.engine), log[8..i]) && DmaLeaves(EngineBase(p.engine), log[i..k])
    ensures FinishLeaves(p, log, k)
  {
    hide L.DmaActions, L.DmaOk, L.LoadSetup, L.LoadFinish, FinishLeaves, SetupLeaves, ListLeaves, DmaLeaves;
    var base := EngineBase(p.engine);
    assert L.LoadActions(p) == L.LoadSetup(base) + (L.ImemLoad(p) + (L.DmemLoad(p) + L.LoadFinish(p)));
    FromWhole(L.LoadActions(p), log);
    SetupTrace(base, L.ImemLoad(p) + (L.DmemLoad(p) + L.LoadFinish(p)), log);
    var a := ListSplit(L.ImemLoad(p), L.DmemLoad(p) + L.LoadFinish(p), log[8..]);
    i := 8 + a;
    assert log[8..][..a] == log[8..i] && log[8..][a..] == log[i..];
    var c := ListSplit(L.DmemLoad(p), L.LoadFinish(p), log[i..]);
    k := i + c;
    assert log[i..][..c] == log[i..k] && log[i..][c..] == log[k..];
    DmaTrace(base, p.imagePhysicalAddress + p.codeOffset - p.imemVirtualBase, p.imemPhysicalBase, p.imemVirtualBase,
             p.imemBytes, L.IMEM_COMMAND, log[8..i]);
    DmaTrace(base, p.imagePhysicalAddress + p.dataOffset - p.dmemVirtualBase, p.dmemPhysicalBase, p.dmemVirtualBase,
             p.dmemBytes, L.DMEM_COMMAND, log[i..k]);
    FinishTrace(p, log, k);
  }

  lemma MiddleTarget(p: L.HsParameters)
    requires L.LoadValid(p)
    ensures AllTarget(L.ImemLoad(p) + L.DmemLoad(p), DmaRegisters(EngineBase(p.engine)))
  {
    hide L.DmaActions, L.DmaOk, AllTarget;
    var base := EngineBase(p.engine);
    DmaTarget(base, p.imagePhysicalAddress + p.codeOffset - p.imemVirtualBase, p.imemPhysicalBase, p.imemVirtualBase,
              p.imemBytes, L.IMEM_COMMAND);
    DmaTarget(base, p.imagePhysicalAddress + p.dataOffset - p.dmemVirtualBase, p.dmemPhysicalBase, p.dmemVirtualBase,
              p.dmemBytes, L.DMEM_COMMAND);
    TargetsJoin(L.ImemLoad(p), L.DmemLoad(p), DmaRegisters(base));
  }

  /** The write that starts a CPU: to the alias register where the reading before it has bit 6 set, otherwise
      bit 1 merged into CPUCTL. */
  ghost predicate StartsAt(base: u32, log: Log, n: nat)
  {
    && 0 < n < |log| && log[n].Write?
    && if log[n].merged then
         && n > 1 && ReadOf(log[n - 2], base + 0x100) && log[n - 2].value / 64 % 2 == 0
         && log[n].address == base + 0x100 && ReadOf(log[n - 1], base + 0x100)
         && Merges(log[n].value, log[n - 1].value, 2, 2) && log[n].value / 2 % 2 == 1
       else
         ReadOf(log[n - 1], base + 0x100) && log[n - 1].value / 64 % 2 == 1 && log[n] == Write(base + 0x130, 2, false)
  }

  /** What the engine's registers were last given: boot ROM parameters, boot vector and mailbox. */
  predicate Programmed(p: L.HsParameters, log: Log)
  {
    var base := EngineBase(p.engine);
    && Last(log, base + 0x1210) == Some(p.pkcOffset)
    && Last(log, base + 0x119C) == Some(p.engineIdMask)
    && Last(log, base + 0x1198) == Some(p.ucodeId)
    && Last(log, base + 0x104) == Some(p.imemVirtualBase)
    && (p.mailbox.Some? ==> Joined(log, base + 0x40, base + 0x44, p.mailbox.value))
  }

  /** The last values of two registers as the low and high word of one number. */
  predicate Joined(log: Log, low: nat, high: nat, whole: u64)
  {
    && Last(log, low).Some? && Last(log, high).Some?
    && Last(log, low).value + 0x1_0000_0000 * Last(log, high).value == whole
  }

  /** Where the start write stands in what a start leaves. */
  lemma StartAt(base: u32, log: Log, s: nat, j: nat) returns (n: nat)
    requires s < j <= |log| && base <= 0x0084_0000 && StartLeaves(base + 0x100, log[s..j])
    ensures s < n <= s + 2 && n + 2 == j && StartsAt(base, log, n)
    ensures !log[s].Write? && !log[n - 1].Write? && !log[n + 1].Write?
  {
    hide Merges;
    var start, rest := log[s..j], log[s..j][1..];
    n := j - 2;
    assert start[0] == log[s] && forall i :: 0 <= i < |rest| ==> rest[i] == log[s + 1 + i];
    if start[0].value / 64 % 2 == 1 {
      assert rest[0] == log[n] && rest[1] == log[n + 1];
    } else {
      assert rest[0] == log[n - 1] && rest[1] == log[n] && rest[2] == log[n + 1];
      BitOne(log[n].value, log[n - 1].value);
    }
  }

  lemma PollQuiet(address: u32, mask: u32, value: u32, timeout: u32, log: Log, k: nat, j: nat)
    requires PollFromTo(address, mask, value, timeout, log, k, j)
    ensures forall i :: k <= i < j ==> !log[i].Write?
  {
    hide PollLeaves;
    var poll := log[k..j];
    ActionTargets(Action(PollMaskEqual, address, value, mask, timeout), poll, iset{});
    forall i | k <= i < j ensures !log[i].Write? { assert log[i] == poll[i - k]; }
  }

  /** Where the start write of a finish stands, and that nothing is written after it. */
  lemma StartFound(p: L.HsParameters, log: Log, k: nat) returns (n: nat)
    requires FinishLeaves(p, log, k)
    ensures var s := k + StartIndex(p);
      && s < n <= s + 2 && n < |log| && StartsAt(EngineBase(p.engine), log, n) && Quiet(log[n + 1..])
      && forall i :: s <= i < n ==> !log[i].Write?
  {
    hide StartLeaves, PollFromTo, ChangeLeaves, StartsAt;
    var base, s := EngineBase(p.engine), k + StartIndex(p);
    var j :| s < j < |log| && StartLeaves(base + 0x100, log[s..j]) && PollFromTo(base + 0x100, 0x10, 0x10, 10000, log, j, |log|);
    n := StartAt(base, log, s, j);
    PollQuiet(base + 0x100, 0x10, 0x10, 10000, log, j, |log|);
    QuietFrom(log, n + 1);
  }

  lemma QuietFrom(log: Log, n: nat)
    requires n <= |log| && forall i :: n <= i < |log| ==> !log[i].Write?
    ensures Quiet(log[n..])
  {
  }

  lemma BitOne(stored: u32, before: u32)
    requires Merges(stored, before, 2, 2)
    ensures stored / 2 % 2 == 1
  {
    assert Pow2(1) == 2;
    BitIs(stored, 1);
    BitIs(2, 1);
  }

  /** The register written at each place of a finish. */
  function Slot(off: nat): nat
  {
    match off
    case 0 => 0x1210 case 2 => 0x119C case 4 => 0x1198 case 7 => 0x1180 case 9 => 0x104 case 11 => 0x40 case 13 => 0x44
    case _ => 0
  }

  predicate InSlots(base: u32, log: Log, k: nat, s: nat)
    requires s <= |log|
  {
    forall i :: k <= i < s && log[i].Write? ==> i - k in {0, 2, 4, 7, 9, 11, 13} && log[i].address == base + Slot(i - k)
  }

  lemma FinishSlots(p: L.HsParameters, log: Log, k: nat)
    requires FinishLeaves(p, log, k)
    ensures InSlots(EngineBase(p.engine), log, k, k + StartIndex(p))
  {
    hide Matches, Merges, PollFromTo, StartLeaves;
    assert log[k + 6..k + 9][0] == log[k + 6] && log[k + 6..k + 9][1] == log[k + 7] && log[k + 6..k + 9][2] == log[k + 8];
  }

  lemma SlotLast(base: u32, log: Log, k: nat, s: nat, off: nat)
    requires k + off < s <= |log| && InSlots(base, log, k, s) && log[k + off].Write? && off in {0, 2, 4, 7, 9, 11, 13}
    ensures Last(log[..s], base + Slot(off)) == Some(log[k + off].value)
  {
    var part := log[..s];
    var after := part[k + off + 1..];
    forall i | 0 <= i < |after| ensures after[i].Write? ==> after[i].address != base + Slot(off) {
      assert after[i] == log[k + off + 1 + i];
    }
    LastAt(part, k + off, base + Slot(off));
  }

  lemma FinishPrograms(p: L.HsParameters, log: Log, k: nat, n: nat)
    requires FinishLeaves(p, log, k) && k + StartIndex(p) <= n <= |log|
    requires forall i :: k + StartIndex(p) <= i < n ==> !log[i].Write?
    ensures Programmed(p, log[..n])
  {
    hide Merges, PollFromTo, StartLeaves, ChangeLeaves;
    var base := EngineBase(p.engine);
    FinishSlots(p, log, k);
    SlotsExtend(base, log, k, k + StartIndex(p), n);
    SlotLast(base, log, k, n, 0);
    SlotLast(base, log, k, n, 2);
    SlotLast(base, log, k, n, 4);
    SlotLast(base, log, k, n, 9);
    if p.mailbox.Some? {
      SlotLast(base, log, k, n, 11);
      SlotLast(base, log, k, n, 13);
    }
  }

  lemma SlotsExtend(base: u32, log: Log, k: nat, s: nat, n: nat)
    requires k <= s <= n <= |log| && InSlots(base, log, k, s) && forall i :: s <= i < n ==> !log[i].Write?
    ensures InSlots(base, log, k, n)
  {
  }

  /** A successful load, by its registers: the engine is programmed with the load's parameters when its CPU is
      started, the start is the last write, and the log ends with a reading that shows the CPU halted. */
  lemma LoadPrograms(p: L.HsParameters, log: Log) returns (n: nat)
    requires L.LoadValid(p) && ListLeaves(L.LoadActions(p), log)
    ensures SetupLeaves(EngineBase(p.engine), log)
    ensures StartsAt(EngineBase(p.engine), log, n) && Quiet(log[n + 1..]) && Programmed(p, log[..n])
    ensures ReadOf(log[|log| - 1], EngineBase(p.engine) + 0x100) && log[|log| - 1].value / 16 % 2 == 1
  {
    hide L.LoadActions, ListLeaves, Programmed, StartsAt, FinishLeaves, SetupLeaves, Quiet;
    var i, k := LoadTrace(p, log);
    n := StartFound(p, log, k);
    FinishPrograms(p, log, k, n);
    Halted(p, log, k);
  }

  lemma Halted(p: L.HsParameters, log: Log, k: nat)
    requires FinishLeaves(p, log, k)
    ensures ReadOf(log[|log| - 1], EngineBase(p.engine) + 0x100) && log[|log| - 1].value / 16 % 2 == 1
  {
    hide Matches, StartLeaves, ChangeLeaves;
    var base, s := EngineBase(p.engine), k + StartIndex(p);
    var j :| s < j < |log| && StartLeaves(base + 0x100, log[s..j]) && PollFromTo(base + 0x100, 0x10, 0x10, 10000, log, j, |log|);
    PollLast(base + 0x100, 0x10, 0x10, 10000, log, j, |log|);
    BitFour(log[|log| - 1].value);
  }

  lemma PollLast(address: u32, mask: u32, value: u32, timeout: nat, log: Log, k: nat, j: nat)
    requires PollFromTo(address, mask, value, timeout, log, k, j)
    ensures ReadOf(log[j - 1], address) && Matches(log[j - 1].value, mask, value)
  {
    hide Matches, Missed;
    assert log[k..j][j - k - 1] == log[j - 1];
  }

  lemma BitFour(seen: u32)
    requires Matches(seen, 0x10, 0x10)
    ensures seen / 16 % 2 == 1
  {
    assert Pow2(4) == 16;
    BitIs(seen, 4);
    BitIs(0x10, 4);
  }

  // ---- Resets ----

  /** The reset line raised, held for 100 ms and released, then the wait until memory scrubbing is over. */
  ghost predicate ResetPulse(base: u32, log: Log, p: nat)
    requires base <= 0x0084_0000
  {
    && 7 < p <= |log|
    && ChangeLeaves(base + 0x3C0, 1, 1, log[0..3]) && log[1].value % 2 == 1
    && log[3] == Sleep(100)
    && ChangeLeaves(base + 0x3C0, 1, 0, log[4..7]) && log[5].value % 2 == 0
    && PollFromTo(base + 0xF4, 0x1000, 0, 10000, log, 7, p) && log[p - 1].value / 4096 % 2 == 0
  }

  /** The core of a RISC-V engine selected for RISC-V, locked and cleared of its valid bit. */
  ghost predicate RiscvSelected(base: u32, log: Log, p: nat)
    requires base <= 0x0084_0000
  {
    && |log| == p + 3 && ChangeLeaves(base + 0x1668, 0x111, 0x110, log[p..])
    && log[p + 1].value % 2 == 0 && log[p + 1].value / 16 % 2 == 1 && log[p + 1].value / 256 % 2 == 1
  }

  /** Where bit 10 of HWCFG2 is set the core is selected for Falcon, awaited, and told the chip; elsewhere
      nothing more happens. */
  ghost predicate FalconSelected(base: u32, chipId: u32, log: Log, p: nat, q: nat)
    requires base <= 0x0084_0000
  {
    && p < |log| && ReadOf(log[p], base + 0xF4)
    && if log[p].value / 1024 % 2 == 1 then
         && |log| >= p + 4 && ChangeLeaves(base + 0x1668, 0x10, 0, log[p + 1..p + 4]) && log[p + 2].value / 16 % 2 == 0
         && PollFromTo(base + 0x1668, 1, 1, 10000, log, p + 4, q) && log[q - 1].value % 2 == 1
         && |log| == q + 2 && log[q] == Write(base + 0x84, chipId, false) && ReadOf(log[q + 1], base + 0x84)
       else |log| == p + 1
  }

  /** One bit of a merged word, and of a word that was matched. */
  lemma MergedBit(stored: u32, before: u32, mask: u32, value: u32, i: nat)
    requires Merges(stored, before, mask, value) && i < 32 && Bit(mask, i)
    ensures Pow2(i) > 0 && stored / Pow2(i) % 2 == (if Bit(value, i) then 1 else 0)
  {
    BitIs(stored, i);
  }

  function ResetHead(base: u32): seq<Action>
    requires base <= 0x0084_0000
  {
    [L.Change(base + 0x3C0, 1, 1), Action(DelayMilliseconds, 0, 100, 0, 0), L.Change(base + 0x3C0, 0, 1), L.PollFor(base + 0xF4, 0x1000, 0)]
  }

  lemma PulseTrace(base: u32, rest: seq<Action>, log: Log) returns (p: nat)
    requires base <= 0x0084_0000 && From(ResetHead(base) + rest, log, 0)
    ensures ResetPulse(base, log, p) && From(rest, log, p)
  {
    hide From, Merges, Matches, PollFromTo;
    var r3 := [L.PollFor(base + 0xF4, 0x1000, 0)] + rest;
    var r2 := [L.Change(base + 0x3C0, 0, 1)] + r3;
    var r1 := [Action(DelayMilliseconds, 0, 100, 0, 0)] + r2;
    assert ResetHead(base) + rest == [L.Change(base + 0x3C0, 1, 1)] + r1;
    ChangeNext(base + 0x3C0, 1, 1, r1, log, 0);
    DelayNext(100, r2, log, 3);
    ChangeNext(base + 0x3C0, 0, 1, r3, log, 4);
    p := PollNext(base + 0xF4, 0x1000, 0, L.POLL_TIMEOUT, rest, log, 7);
    assert log[0..3][1] == log[1] && log[4..7][1] == log[5];
    MergedLow(log[1].value, log[0..3][0].value, 1, 1);
    MergedLow(log[5].value, log[4..7][0].value, 0, 1);
    Limits(base + 0xF4, 0x1000, 0, 10000, log, 7, p);
    PollLast(base + 0xF4, 0x1000, 0, 10000, log, 7, p);
    BitTwelve(log[p - 1].value);
  }

  lemma Limits(address: u32, mask: u32, value: u32, timeout: nat, log: Log, k: nat, j: nat)
    requires PollFromTo(address, mask, value, timeout, log, k, j)
    ensures k < j <= |log|
  {
  }

  lemma BitTwelve(seen: u32)
    requires Matches(seen, 0x1000, 0)
    ensures seen / 4096 % 2 == 0
  {
    assert Pow2(12) == 4096 by { assert Pow2(6) == 64; }
    BitIs(seen, 12);
    BitIs(0x1000, 12);
    BitIs(0, 12);
    assert Bit(0x1000, 12);
  }

  lemma BitTen(seen: u32)
    ensures Matches(seen, 0x400, 0x400) <==> seen / 1024 % 2 == 1
  {
    assert Pow2(10) == 1024;
    BitIs(seen, 10);
    forall i | 0 <= i < 32 ensures Bit(0x400, i) <==> i == 10 { OneBit(10, i); }
    assert Matches(seen, 0x400, 0x400) <==> (Bit(seen, 10) && Bit(0x400, 10)) == Bit(0x400, 10);
  }

  lemma RiscvTrace(base: u32, log: Log, p: nat)
    requires base <= 0x0084_0000 && From([L.Change(base + 0x1668, 0x110, 0x111)], log, p)
    ensures RiscvSelected(base, log, p)
  {
    hide From, Merges;
    assert [L.Change(base + 0x1668, 0x110, 0x111)] == [L.Change(base + 0x1668, 0x110, 0x111)] + [];
    ChangeNext(base + 0x1668, 0x110, 0x111, [], log, p);
    AtEnd(log, p + 3);
    var three := log[p..p + 3];
    assert log[p..] == three && three[1] == log[p + 1];
    assert Pow2(4) == 16 && Pow2(8) == 256;
    MergedBit(log[p + 1].value, three[0].value, 0x111, 0x110, 0);
    MergedBit(log[p + 1].value, three[0].value, 0x111, 0x110, 4);
    MergedBit(log[p + 1].value, three[0].value, 0x111, 0x110, 8);
  }

  function FalconBody(base: u32, chipId: u32): seq<Action>
    requires base <= 0x0084_0000
  {
    [L.Change(base + 0x1668, 0, 0x10), L.PollFor(base + 0x1668, 1, 1), L.Put(base + 0x84, chipId, MAX32)]
  }

  lemma BodyTrace(base: u32, chipId: u32, log: Log, p: nat) returns (q: nat)
    requires base <= 0x0084_0000 && From(FalconBody(base, chipId), log, p + 1)
    ensures |log| >= p + 4 && ChangeLeaves(base + 0x1668, 0x10, 0, log[p + 1..p + 4]) && log[p + 2].value / 16 % 2 == 0
    ensures PollFromTo(base + 0x1668, 1, 1, 10000, log, p + 4, q) && log[q - 1].value % 2 == 1
    ensures |log| == q + 2 && log[q] == Write(base + 0x84, chipId, false) && ReadOf(log[q + 1], base + 0x84)
  {
    hide From, Merges, Matches, PollFromTo;
    var r2 := [L.Put(base + 0x84, chipId, MAX32)];
    var r1 := [L.PollFor(base + 0x1668, 1, 1)] + r2;
    assert FalconBody(base, chipId) == [L.Change(base + 0x1668, 0, 0x10)] + r1 && r2 == r2 + [];
    ChangeNext(base + 0x1668, 0, 0x10, r1, log, p + 1);
    q := PollNext(base + 0x1668, 1, 1, L.POLL_TIMEOUT, r2, log, p + 4);
    Limits(base + 0x1668, 1, 1, 10000, log, p + 4, q);
    PutNext(base + 0x84, chipId, MAX32, [], log, q);
    AtEnd(log, q + 2);
    var three := log[p + 1..p + 4];
    assert three[1] == log[p + 2] && Pow2(4) == 16;
    MergedBit(log[p + 2].value, three[0].value, 0x10, 0, 4);
    PollLast(base + 0x1668, 1, 1, 10000, log, p + 4, q);
    BitZero(log[q - 1].value);
  }

  lemma BitZero(seen: u32)
    requires Matches(seen, 1, 1)
    ensures seen % 2 == 1
  {
    assert Bit(1, 0);
  }

  lemma BlockTrace(base: u32, chipId: u32, log: Log, p: nat) returns (q: nat)
    requires base <= 0x0084_0000 && p <= |log|
    requires ProgLeaves(Cond(Action(IfMaskEqualBegin, base + 0xF4, 0x400, 0x400, 0), FalconBody(base, chipId), Halt), log[p..])
    ensures FalconSelected(base, chipId, log, p, q)
  {
    hide Matches, ListLeaves, ChangeLeaves, PollFromTo, FalconBody;
    var tail := log[p..];
    assert tail[0] == log[p];
    BitTen(log[p].value);
    q := p;
    if Matches(log[p].value, 0x400, 0x400) {
      var k :| 1 <= k <= |tail| && ListLeaves(FalconBody(base, chipId), tail[1..k]) && ProgLeaves(Halt, tail[k..]);
      assert tail[k..] == [] && tail[1..k] == log[p + 1..];
      q := BodyTrace(base, chipId, log, p);
    } else {
      assert tail[1..] == [];
    }
  }

  /** A successful reset, event by event. */
  lemma ResetTrace(engine: Engine, bootRiscv: bool, chipId: u32, log: Log) returns (p: nat, q: nat)
    requires ProgLeaves(Parse(L.ResetActions(engine, bootRiscv, chipId)), log)
    ensures ResetPulse(EngineBase(engine), log, p)
    ensures if bootRiscv then RiscvSelected(EngineBase(engine), log, p) else FalconSelected(EngineBase(engine), chipId, log, p, q)
  {
    hide ProgLeaves, ListLeaves, ResetPulse, RiscvSelected, FalconSelected;
    var base := EngineBase(engine);
    q := 0;
    if bootRiscv {
      var last := [L.Change(base + 0x1668, 0x110, 0x111)];
      var actions := L.ResetActions(engine, bootRiscv, chipId);
      assert actions == ResetHead(base) + last;
      PlainProg(actions, log);
      assert log[0..] == log;
      p := PulseTrace(base, last, log);
      RiscvTrace(base, log, p);
    } else {
      var block := Cond(Action(IfMaskEqualBegin, base + 0xF4, 0x400, 0x400, 0), FalconBody(base, chipId), Halt);
      assert L.ResetActions(engine, bootRiscv, chipId) == ResetHead(base) + block.Flatten();
      var k := PlainThen(ResetHead(base), block, log);
      assert log[..k][0..] == log[..k] && ResetHead(base) + [] == ResetHead(base);
      p := PulseTrace(base, [], log[..k]);
      AtEnd(log[..k], p);
      PulseExtends(base, log, k);
      q := BlockTrace(base, chipId, log, p);
    }
  }

  lemma PulseExtends(base: u32, log: Log, k: nat)
    requires base <= 0x0084_0000 && k <= |log| && ResetPulse(base, log[..k], k)
    ensures ResetPulse(base, log, k)
  {
    hide ChangeLeaves, PollLeaves;
    assert log[..k][0..3] == log[0..3] && log[..k][4..7] == log[4..7] && log[..k][7..k] == log[7..k];
  }
}
