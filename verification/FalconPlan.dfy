/** Compiles Falcon reset and load parameters into register actions. */
module FalconPlan {
  import opened Words
  import opened Wrappers
  import opened Falcon

  const MAILBOX0: u32 := 0x040
  const MAILBOX1: u32 := 0x044
  const FALCON_RM: u32 := 0x084
  const HWCFG2: u32 := 0x0F4
  const CPUCTL: u32 := 0x100
  const BOOTVEC: u32 := 0x104
  const DMACTL: u32 := 0x10C
  const DMABASE: u32 := 0x110
  const DMAMEMOFFSET: u32 := 0x114
  const DMACMD: u32 := 0x118
  const DMAFBOFFSET: u32 := 0x11C
  const DMABASE1: u32 := 0x128
  const ENGINE_RESET: u32 := 0x3C0
  const FBIF_TRANSCFG0: u32 := 0x600
  const FBIF_CTL: u32 := 0x624
  const BROM_MODSEL: u32 := 0x1180
  const BROM_UCODE_ID: u32 := 0x1198
  const BROM_ENGINE_ID_MASK: u32 := 0x119C
  const BROM_PARA_ADDR0: u32 := 0x1210
  const RISCV_BCR_CTRL: u32 := 0x1668

  const IMEM_COMMAND: u32 := 0x614
  const DMEM_COMMAND: u32 := 0x600
  const TRANSFER: u32 := 256
  const POLL_TIMEOUT: u32 := 10000

  datatype HsParameters = HsParameters(
    engine: Engine,
    imagePhysicalAddress: u64,
    codeOffset: u32,
    dataOffset: u32,
    imemPhysicalBase: u32,
    imemVirtualBase: u32,
    imemBytes: u32,
    dmemPhysicalBase: u32,
    dmemVirtualBase: u32,
    dmemBytes: u32,
    pkcOffset: u32,
    engineIdMask: u32,
    ucodeId: byte,
    mailbox: Option<u64>)

  function PollFor(address: u32, mask: u32, value: u32): Action
  {
    Action(PollMaskEqual, address, value, mask, POLL_TIMEOUT)
  }

  function Put(address: u32, value: u32, mask: u32): Action { Action(Write32, address, value, mask, 0) }

  function Change(address: u32, value: u32, mask: u32): Action { Action(MaskedWrite, address, value, mask, 0) }

  // ---- DMA loads ----

  /** When a load can be programmed: whole blocks, a source the two base registers can hold, and
      offsets that stay in 32 bits. */
  predicate DmaOk(source: u64, dest: u32, memoryOffset: u32, bytes: u32)
  {
    && bytes % TRANSFER == 0 && source % TRANSFER == 0 && source < 0x2_0000_0000_0000
    && (bytes > 0 ==> dest + bytes - TRANSFER <= MAX32 && memoryOffset + bytes - TRANSFER <= MAX32)
  }

  function Block(base: u32, dest: u32, memoryOffset: u32, command: u32): seq<Action>
    requires base <= 0x0084_0000
  {
    [PollFor(base + DMACMD, 0x1, 0),
     Put(base + DMAMEMOFFSET, dest, 0x00FF_FFFF),
     Put(base + DMAFBOFFSET, memoryOffset, MAX32),
     Put(base + DMACMD, command, 0x0001_773F)]
  }

  function Blocks(base: u32, dest: u32, memoryOffset: u32, command: u32, n: nat): seq<Action>
    requires base <= 0x0084_0000
    requires n > 0 ==> dest + (n - 1) * TRANSFER <= MAX32 && memoryOffset + (n - 1) * TRANSFER <= MAX32
  {
    if n == 0 then []
    else Blocks(base, dest, memoryOffset, command, n - 1)
         + Block(base, dest + (n - 1) * TRANSFER, memoryOffset + (n - 1) * TRANSFER, command)
  }

  function DmaPreamble(base: u32, source: u64): seq<Action>
    requires base <= 0x0084_0000 && source < 0x2_0000_0000_0000
  {
    [PollFor(base + DMACMD, 0x1, 0),
     Put(base + DMABASE, source / 256 % 0x1_0000_0000, MAX32),
     Put(base + DMABASE1, source / 256 / 0x1_0000_0000 % 0x200, 0x1FF)]
  }

  function DmaActions(base: u32, source: u64, dest: u32, memoryOffset: u32, bytes: u32, command: u32): seq<Action>
    requires base <= 0x0084_0000 && DmaOk(source, dest, memoryOffset, bytes)
  {
    DmaPreamble(base, source) + Blocks(base, dest, memoryOffset, command, bytes / TRANSFER)
    + [PollFor(base + DMACMD, 0x2, 0x2)]
  }

  /** Appends one load to a plan, refusing what the registers cannot express. */
  method AddDma(actions: seq<Action>, base: u32, source: u64, dest: u32, memoryOffset: u32, bytes: u32, command: u32)
    returns (ok: bool, out: seq<Action>)
    requires base <= 0x0084_0000
    ensures ok <==> DmaOk(source, dest, memoryOffset, bytes)
    ensures ok ==> out == actions + DmaActions(base, source, dest, memoryOffset, bytes, command)
  {
    out := actions;
    if bytes % TRANSFER != 0 {
      return false, out;
    }
    if source % 0x100 != 0 {
      return false, out;
    }
    var shifted := source / 0x100;
    if shifted / 0x200_0000_0000 != 0 {
      return false, out;
    }
    out := out + [PollFor(base + DMACMD, 0x1, 0)];
    out := out + [Put(base + DMABASE, shifted % 0x1_0000_0000, MAX32)];
    out := out + [Put(base + DMABASE1, shifted / 0x1_0000_0000 % 0x200, 0x1FF)];
    ghost var start := out;
    assert start == actions + DmaPreamble(base, source);
    var done := 0;
    ghost var n := 0;
    while done < bytes
      invariant done == n * TRANSFER && n <= bytes / TRANSFER
      invariant n > 0 ==> dest + (n - 1) * TRANSFER <= MAX32 && memoryOffset + (n - 1) * TRANSFER <= MAX32
      invariant out == start + Blocks(base, dest, memoryOffset, command, n)
    {
      if dest > MAX32 - done || memoryOffset > MAX32 - done {
        return false, out;
      }
      out := out + [PollFor(base + DMACMD, 0x1, 0)];
      out := out + [Put(base + DMAMEMOFFSET, dest + done, 0x00FF_FFFF)];
      out := out + [Put(base + DMAFBOFFSET, memoryOffset + done, MAX32)];
      out := out + [Put(base + DMACMD, command, 0x0001_773F)];
      done := done + TRANSFER;
      n := n + 1;
    }
    out := out + [PollFor(base + DMACMD, 0x2, 0x2)];
    ok := true;
  }

  // ---- Plans ----

  function ResetActions(engine: Engine, bootRiscv: bool, chipId: u32): seq<Action>
  {
    var base := EngineBase(engine);
    [Change(base + ENGINE_RESET, 1, 1),
     Action(DelayMilliseconds, 0, 100, 0, 0),
     Change(base + ENGINE_RESET, 0, 1),
     PollFor(base + HWCFG2, 0x1000, 0)]
    + if bootRiscv then [Change(base + RISCV_BCR_CTRL, 0x110, 0x111)]
      else
        [Action(IfMaskEqualBegin, base + HWCFG2, 0x400, 0x400, 0),
         Change(base + RISCV_BCR_CTRL, 0, 0x10),
         PollFor(base + RISCV_BCR_CTRL, 1, 1),
         Put(base + FALCON_RM, chipId, MAX32),
         CLOSE]
  }

  method PlanReset(engine: Engine, bootRiscv: bool, chipId: u32) returns (out: Plan)
    ensures out == Plan(true, ResetActions(engine, bootRiscv, chipId))
  {
    var base := EngineBase(engine);
    var actions := [Change(base + ENGINE_RESET, 1, 1)];
    actions := actions + [Action(DelayMilliseconds, 0, 100, 0, 0)];
    actions := actions + [Change(base + ENGINE_RESET, 0, 1)];
    actions := actions + [PollFor(base + HWCFG2, 0x1000, 0)];
    if bootRiscv {
      actions := actions + [Change(base + RISCV_BCR_CTRL, 0x110, 0x111)];
    } else {
      actions := actions + [Action(IfMaskEqualBegin, base + HWCFG2, 0x400, 0x400, 0)];
      actions := actions + [Change(base + RISCV_BCR_CTRL, 0, 0x10)];
      actions := actions + [PollFor(base + RISCV_BCR_CTRL, 1, 1)];
      actions := actions + [Put(base + FALCON_RM, chipId, MAX32)];
      actions := actions + [CLOSE];
    }
    out := Plan(true, actions);
  }

  predicate LoadValid(p: HsParameters)
  {
    && p.imemBytes % TRANSFER == 0 && p.dmemBytes % TRANSFER == 0
    && p.codeOffset >= p.imemVirtualBase && p.dataOffset >= p.dmemVirtualBase
    && p.imagePhysicalAddress <= MAX64 - p.codeOffset && p.imagePhysicalAddress <= MAX64 - p.dataOffset
    && DmaOk(p.imagePhysicalAddress + p.codeOffset - p.imemVirtualBase, p.imemPhysicalBase, p.imemVirtualBase, p.imemBytes)
    && DmaOk(p.imagePhysicalAddress + p.dataOffset - p.dmemVirtualBase, p.dmemPhysicalBase, p.dmemVirtualBase, p.dmemBytes)
  }

  function LoadSetup(base: u32): seq<Action>
    requires base <= 0x0084_0000
  {
    [Change(base + FBIF_CTL, 0x80, 0x80),
     Put(base + DMACTL, 0, 0x7),
     Change(base + FBIF_TRANSCFG0, 0x4, 0x7)]
  }

  function MailboxActions(base: u32, mailbox: Option<u64>): seq<Action>
    requires base <= 0x0084_0000
  {
    match mailbox
    case None => []
    case Some(m) => [Put(base + MAILBOX0, m % 0x1_0000_0000, MAX32), Put(base + MAILBOX1, m / 0x1_0000_0000, MAX32)]
  }

  function LoadFinish(p: HsParameters): seq<Action>
  {
    var base := EngineBase(p.engine);
    [Put(base + BROM_PARA_ADDR0, p.pkcOffset, MAX32),
     Put(base + BROM_ENGINE_ID_MASK, p.engineIdMask, MAX32),
     Put(base + BROM_UCODE_ID, p.ucodeId, 0xFF),
     Change(base + BROM_MODSEL, 1, 0xFF),
     Put(base + BOOTVEC, p.imemVirtualBase, MAX32)]
    + MailboxActions(base, p.mailbox)
    + [Action(StartCpuRespectAlias, base + CPUCTL, 0, 0, 0),
       PollFor(base + CPUCTL, 0x10, 0x10)]
  }

  function ImemLoad(p: HsParameters): seq<Action>
    requires LoadValid(p)
  {
    DmaActions(EngineBase(p.engine), p.imagePhysicalAddress + p.codeOffset - p.imemVirtualBase,
               p.imemPhysicalBase, p.imemVirtualBase, p.imemBytes, IMEM_COMMAND)
  }

  function DmemLoad(p: HsParameters): seq<Action>
    requires LoadValid(p)
  {
    DmaActions(EngineBase(p.engine), p.imagePhysicalAddress + p.dataOffset - p.dmemVirtualBase,
               p.dmemPhysicalBase, p.dmemVirtualBase, p.dmemBytes, DMEM_COMMAND)
  }

  function LoadActions(p: HsParameters): seq<Action>
    requires LoadValid(p)
  {
    LoadSetup(EngineBase(p.engine)) + ImemLoad(p) + DmemLoad(p) + LoadFinish(p)
  }

  function LoadPlan(p: HsParameters): Plan
  {
    if LoadValid(p) then Plan(true, LoadActions(p)) else Plan(false, [])
  }

  /** The last actions of a load, by number: boot ROM parameters, boot vector, the mailbox's low and high word, the start
      and the wait for the halt. */
  predicate Finishes(p: HsParameters, a: seq<Action>)
  {
    var base, n, m := EngineBase(p.engine), |a|, if p.mailbox.Some? then 2 else 0;
    && n >= 10 + m
    && a[n - 1] == Action(PollMaskEqual, base + 0x100, 0x10, 0x10, 10000)
    && a[n - 2] == Action(StartCpuRespectAlias, base + 0x100, 0, 0, 0)
    && a[n - 3 - m] == Action(Write32, base + 0x104, p.imemVirtualBase, 0xFFFF_FFFF, 0)
    && a[n - 4 - m] == Action(MaskedWrite, base + 0x1180, 1, 0xFF, 0)
    && a[n - 5 - m] == Action(Write32, base + 0x1198, p.ucodeId, 0xFF, 0)
    && a[n - 6 - m] == Action(Write32, base + 0x119C, p.engineIdMask, 0xFFFF_FFFF, 0)
    && a[n - 7 - m] == Action(Write32, base + 0x1210, p.pkcOffset, 0xFFFF_FFFF, 0)
    && (p.mailbox.Some? ==>
          && a[n - 4].kind.Write32? && a[n - 4].address == base + 0x40 && a[n - 3].kind.Write32? && a[n - 3].address == base + 0x44
          && a[n - 4].value + 0x1_0000_0000 * a[n - 3].value == p.mailbox.value)
  }

  lemma LoadFinishes(p: HsParameters)
    requires LoadValid(p)
    ensures Finishes(p, LoadActions(p))
  {
    hide DmaActions, DmaOk;
    var before := LoadSetup(EngineBase(p.engine)) + ImemLoad(p) + DmemLoad(p);
    FinishBehind(p, before);
  }

  lemma FinishBehind(p: HsParameters, before: seq<Action>)
    requires |before| >= 3
    ensures Finishes(p, before + LoadFinish(p))
  {
    var f, a := LoadFinish(p), before + LoadFinish(p);
    assert forall i :: 0 <= i < |f| ==> a[|before| + i] == f[i];
  }

  method PlanAuthenticatedExecution(p: HsParameters) returns (out: Plan)
    ensures out == LoadPlan(p)
    ensures out.valid ==> Finishes(p, out.actions)
  {
    hide DmaActions, DmaOk, Finishes;
    if LoadValid(p) { LoadFinishes(p); }
    out := Plan(false, []);
    var base := EngineBase(p.engine);
    if p.imemBytes % TRANSFER != 0 || p.dmemBytes % TRANSFER != 0 {
      return;
    }
    if p.codeOffset < p.imemVirtualBase || p.dataOffset < p.dmemVirtualBase {
      return;
    }
    if p.imagePhysicalAddress > MAX64 - p.codeOffset || p.imagePhysicalAddress > MAX64 - p.dataOffset {
      return;
    }
    var imemSource := p.imagePhysicalAddress + p.codeOffset - p.imemVirtualBase;
    var dmemSource := p.imagePhysicalAddress + p.dataOffset - p.dmemVirtualBase;
    var actions := [Change(base + FBIF_CTL, 0x80, 0x80)];
    actions := actions + [Put(base + DMACTL, 0, 0x7)];
    actions := actions + [Change(base + FBIF_TRANSCFG0, 0x4, 0x7)];
    assert actions == LoadSetup(base);
    var ok;
    ok, actions := AddDma(actions, base, imemSource, p.imemPhysicalBase, p.imemVirtualBase, p.imemBytes, IMEM_COMMAND);
    if !ok {
      return;
    }
    ok, actions := AddDma(actions, base, dmemSource, p.dmemPhysicalBase, p.dmemVirtualBase, p.dmemBytes, DMEM_COMMAND);
    if !ok {
      return;
    }
    ghost var loaded := actions;
    actions := actions + [Put(base + BROM_PARA_ADDR0, p.pkcOffset, MAX32)];
    actions := actions + [Put(base + BROM_ENGINE_ID_MASK, p.engineIdMask, MAX32)];
    actions := actions + [Put(base + BROM_UCODE_ID, p.ucodeId, 0xFF)];
    actions := actions + [Change(base + BROM_MODSEL, 1, 0xFF)];
    actions := actions + [Put(base + BOOTVEC, p.imemVirtualBase, MAX32)];
    if p.mailbox.Some? {
      actions := actions + [Put(base + MAILBOX0, p.mailbox.value % 0x1_0000_0000, MAX32)];
      actions := actions + [Put(base + MAILBOX1, p.mailbox.value / 0x1_0000_0000, MAX32)];
    }
    actions := actions + [Action(StartCpuRespectAlias, base + CPUCTL, 0, 0, 0)];
    actions := actions + [PollFor(base + CPUCTL, 0x10, 0x10)];
    assert actions == loaded + LoadFinish(p);
    out := Plan(true, actions);
  }
}
