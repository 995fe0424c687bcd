/** Planning the twelve-phase boot sequence, and that the independent audit agrees with the planner. */
module SequencePlan {
  import opened Words
  import opened Wrappers
  import opened Falcon
  import opened FalconPolicy
  import L = FalconPlan
  import opened Gsp
  import opened Manifest
  import opened BootSequencePolicy
  import Artifacts
  import Q = QueueMemory

  // ---- When the allow-list permits a planned action ----

  lemma Decodes(engine: Engine, off: u32)
    requires off < 0x2000
    ensures EngineBase(engine) + off <= MAX32 && DecodeEngineAddress(EngineBase(engine) + off) == Some(off)
  {
  }

  lemma WritePermits(engine: Engine, off: u32, value: u32, mask: u32, bits: u32)
    requires off < 0x2000 && WriteMask(off) == Some(bits) && mask != 0 && Submask(mask, bits)
    ensures EngineBase(engine) + off <= MAX32
    ensures Decide(L.Put(EngineBase(engine) + off, value, mask)).Permits() <==> AndNot32(value, mask) == 0
    ensures Decide(L.Change(EngineBase(engine) + off, value, mask)).Permits() <==> AndNot32(value, mask) == 0
  {
    hide Combine32, WriteMask, Submask;
    Decodes(engine, off);
    Submask32(mask, bits);
  }

  /** A write whose value is known to lie in its mask. */
  lemma WriteOk(engine: Engine, off: u32, value: u32, mask: u32, bits: u32)
    requires off < 0x2000 && WriteMask(off) == Some(bits) && mask != 0 && Submask(mask, bits) && Submask(value, mask)
    ensures EngineBase(engine) + off <= MAX32
    ensures Decide(L.Put(EngineBase(engine) + off, value, mask)).Permits()
    ensures Decide(L.Change(EngineBase(engine) + off, value, mask)).Permits()
  {
    hide WriteMask, Submask;
    WritePermits(engine, off, value, mask, bits);
    Submask32(value, mask);
  }

  /** A full write of any value. */
  lemma FullOk(engine: Engine, off: u32, value: u32)
    requires off < 0x2000 && WriteMask(off) == Some(MAX32)
    ensures EngineBase(engine) + off <= MAX32
    ensures Decide(L.Put(EngineBase(engine) + off, value, MAX32)).Permits()
  {
    hide WriteMask, Combine32, Bitwise, Pow2;
    Pow2Of32();
    SubmaskRefl(MAX32);
    WritePermits(engine, off, value, MAX32, MAX32);
    Below(value, 32);
  }

  /** A value fits a mask of low bits exactly when it is below it. */
  lemma Below(value: u32, bits: nat)
    requires bits <= 32
    ensures Pow2(bits) - 1 <= MAX32
    ensures AndNot32(value, Pow2(bits) - 1) == 0 <==> value < Pow2(bits)
  {
    hide Bitwise;
    Pow2Of32();
    PowersGrow(bits, 32);
    LowMask(32, value, bits);
  }

  lemma {:induction false} PowersGrow(a: nat, b: nat)
    requires a <= b
    ensures Pow2(a) <= Pow2(b)
  {
    if a < b { PowersGrow(a, b - 1); }
  }

  lemma PollOk(engine: Engine, off: u32, mask: u32, value: u32, bits: u32)
    requires off < 0x2000 && ReadMask(off) == Some(bits) && mask != 0 && Submask(mask, bits) && Submask(value, mask)
    ensures EngineBase(engine) + off <= MAX32
    ensures Decide(L.PollFor(EngineBase(engine) + off, mask, value)).Permits()
    ensures Decide(Action(IfMaskEqualBegin, EngineBase(engine) + off, value, mask, 0)).Permits()
  {
    hide ReadMask, Combine32, Submask;
    Decodes(engine, off);
    Submask32(mask, bits);
    Submask32(value, mask);
  }

  predicate Plain(actions: seq<Action>) { forall i :: 0 <= i < |actions| ==> !IsMarker(actions[i]) }

  predicate AllPermit(actions: seq<Action>) { forall i :: 0 <= i < |actions| ==> Decide(actions[i]).Permits() }

  /** A list without blocks is accepted exactly when each of its actions is permitted. */
  lemma {:induction false} PlainAccepted(actions: seq<Action>)
    requires Plain(actions)
    ensures Scan(Outside, actions).Outside? <==> AllPermit(actions)
    ensures AllPermit(actions) ==> Scan(Inside, actions).Inside?
  {
    hide Decide;
    if actions != [] {
      var head, tail := actions[0], actions[1..];
      assert actions == [head] + tail;
      PlainAccepted(tail);
      if !Decide(head).Permits() {
        DeniedStays(Advance(Outside, head), tail);
      } else if AllPermit(tail) {
        forall i | 0 <= i < |actions| ensures Decide(actions[i]).Permits() {
          if i > 0 { assert actions[i] == tail[i - 1]; }
        }
      } else {
        var i :| 0 <= i < |tail| && !Decide(tail[i]).Permits();
        assert actions[i + 1] == tail[i];
      }
    }
  }

  lemma PermitJoin(a: seq<Action>, b: seq<Action>)
    ensures AllPermit(a + b) <==> AllPermit(a) && AllPermit(b)
    ensures Plain(a + b) <==> Plain(a) && Plain(b)
  {
    hide Decide;
    if AllPermit(a + b) {
      forall i | 0 <= i < |a| ensures Decide(a[i]).Permits() { assert (a + b)[i] == a[i]; }
      forall i | 0 <= i < |b| ensures Decide(b[i]).Permits() { assert (a + b)[|a| + i] == b[i]; }
    }
    if Plain(a + b) {
      forall i | 0 <= i < |a| ensures !IsMarker(a[i]) { assert (a + b)[i] == a[i]; }
      forall i | 0 <= i < |b| ensures !IsMarker(b[i]) { assert (a + b)[|a| + i] == b[i]; }
    }
  }

  // ---- Loads ----

  /** The destination offsets of a load fit the 24 bits of their register. */
  predicate Fits24(dest: u32, bytes: u32)
  {
    bytes == 0 || dest + bytes - L.TRANSFER < 0x100_0000
  }

  lemma BlockPermits(engine: Engine, dest: u32, memoryOffset: u32, command: u32)
    requires command in {L.IMEM_COMMAND, L.DMEM_COMMAND}
    ensures Plain(L.Block(EngineBase(engine), dest, memoryOffset, command))
    ensures AllPermit(L.Block(EngineBase(engine), dest, memoryOffset, command)) <==> dest < 0x100_0000
  {
    hide Combine32, Decide;
    var b := L.Block(EngineBase(engine), dest, memoryOffset, command);
    PollOk(engine, L.DMACMD, 0x1, 0, 0x3);
    assert Pow2(24) == 0x100_0000 by { assert Pow2(12) == 0x1000; }
    Below(dest, 24);
    SubmaskRefl(0x00FF_FFFF);
    WritePermits(engine, L.DMAMEMOFFSET, dest, 0x00FF_FFFF, 0x00FF_FFFF);
    FullOk(engine, L.DMAFBOFFSET, memoryOffset);
    CommandOk(engine, command);
    assert b[0] == L.PollFor(EngineBase(engine) + L.DMACMD, 0x1, 0);
    assert b[1] == L.Put(EngineBase(engine) + L.DMAMEMOFFSET, dest, 0x00FF_FFFF);
    assert b[2] == L.Put(EngineBase(engine) + L.DMAFBOFFSET, memoryOffset, MAX32);
    assert b[3] == L.Put(EngineBase(engine) + L.DMACMD, command, 0x0001_773F);
  }

  lemma CommandOk(engine: Engine, command: u32)
    requires command in {L.IMEM_COMMAND, L.DMEM_COMMAND}
    ensures Decide(L.Put(EngineBase(engine) + L.DMACMD, command, 0x0001_773F)).Permits()
  {
    hide Combine32, Decide;
    SubmaskRefl(0x0001_773F);
    if command == L.IMEM_COMMAND {
      WriteOk(engine, L.DMACMD, 0x614, 0x0001_773F, 0x0001_773F);
    } else {
      WriteOk(engine, L.DMACMD, 0x600, 0x0001_773F, 0x0001_773F);
    }
  }

  lemma {:induction false} BlocksPermit(engine: Engine, dest: u32, memoryOffset: u32, command: u32, n: nat)
    requires command in {L.IMEM_COMMAND, L.DMEM_COMMAND}
    requires n > 0 ==> dest + (n - 1) * L.TRANSFER <= MAX32 && memoryOffset + (n - 1) * L.TRANSFER <= MAX32
    ensures Plain(L.Blocks(EngineBase(engine), dest, memoryOffset, command, n))
    ensures AllPermit(L.Blocks(EngineBase(engine), dest, memoryOffset, command, n)) <==>
            n == 0 || dest + (n - 1) * L.TRANSFER < 0x100_0000
  {
    hide AllPermit, Plain, L.Block;
    if n == 0 {
      NothingToPermit();
    } else {
      BlocksPermit(engine, dest, memoryOffset, command, n - 1);
      var at, from: u32 := dest + (n - 1) * L.TRANSFER, memoryOffset + (n - 1) * L.TRANSFER;
      BlockPermits(engine, at, from, command);
      PermitJoin(L.Blocks(EngineBase(engine), dest, memoryOffset, command, n - 1),
                 L.Block(EngineBase(engine), at, from, command));
    }
  }

  lemma NothingToPermit()
    ensures AllPermit([]) && Plain([])
  {
  }

  lemma PreamblePermits(engine: Engine, source: u64)
    requires source < 0x2_0000_0000_0000
    ensures Plain(L.DmaPreamble(EngineBase(engine), source)) && AllPermit(L.DmaPreamble(EngineBase(engine), source))
  {
    hide Combine32, Decide;
    var b := L.DmaPreamble(EngineBase(engine), source);
    PollOk(engine, L.DMACMD, 0x1, 0, 0x3);
    FullOk(engine, L.DMABASE, source / 256 % 0x1_0000_0000);
    assert Pow2(9) == 0x200;
    Below(source / 256 / 0x1_0000_0000 % 0x200, 9);
    SubmaskRefl(0x1FF);
    WritePermits(engine, L.DMABASE1, source / 256 / 0x1_0000_0000 % 0x200, 0x1FF, 0x1FF);
    assert b[0] == L.PollFor(EngineBase(engine) + L.DMACMD, 0x1, 0);
  }

  lemma DmaPermits(engine: Engine, source: u64, dest: u32, memoryOffset: u32, bytes: u32, command: u32)
    requires command in {L.IMEM_COMMAND, L.DMEM_COMMAND} && L.DmaOk(source, dest, memoryOffset, bytes)
    ensures Plain(L.DmaActions(EngineBase(engine), source, dest, memoryOffset, bytes, command))
    ensures AllPermit(L.DmaActions(EngineBase(engine), source, dest, memoryOffset, bytes, command)) <==> Fits24(dest, bytes)
  {
    hide AllPermit, Plain, L.DmaPreamble, L.Blocks;
    var base := EngineBase(engine);
    var preamble, blocks, last := L.DmaPreamble(base, source), L.Blocks(base, dest, memoryOffset, command, bytes / L.TRANSFER),
                                  [L.PollFor(base + L.DMACMD, 0x2, 0x2)];
    PreamblePermits(engine, source);
    BlocksPermit(engine, dest, memoryOffset, command, bytes / L.TRANSFER);
    LastPermits(engine);
    PermitJoin(preamble, blocks);
    PermitJoin(preamble + blocks, last);
  }

  lemma LastPermits(engine: Engine)
    ensures AllPermit([L.PollFor(EngineBase(engine) + L.DMACMD, 0x2, 0x2)])
    ensures Plain([L.PollFor(EngineBase(engine) + L.DMACMD, 0x2, 0x2)])
  {
    hide Combine32, Decide;
    PollOk(engine, L.DMACMD, 0x2, 0x2, 0x3);
  }

  lemma SetupPermits(engine: Engine)
    ensures Plain(L.LoadSetup(EngineBase(engine))) && AllPermit(L.LoadSetup(EngineBase(engine)))
  {
    hide Combine32, Decide;
    WriteOk(engine, L.FBIF_CTL, 0x80, 0x80, 0x80);
    WriteOk(engine, L.DMACTL, 0, 0x7, 0x7);
    WriteOk(engine, L.FBIF_TRANSCFG0, 0x4, 0x7, 0x7);
  }

  lemma MailboxPermits(engine: Engine, mailbox: Option<u64>)
    ensures Plain(L.MailboxActions(EngineBase(engine), mailbox)) && AllPermit(L.MailboxActions(EngineBase(engine), mailbox))
  {
    hide Combine32, Decide;
    if mailbox.Some? {
      FullOk(engine, L.MAILBOX0, mailbox.value % 0x1_0000_0000);
      FullOk(engine, L.MAILBOX1, mailbox.value / 0x1_0000_0000);
    }
  }

  lemma BromPermits(p: L.HsParameters)
    ensures var base := EngineBase(p.engine);
      var brom := [L.Put(base + L.BROM_PARA_ADDR0, p.pkcOffset, MAX32), L.Put(base + L.BROM_ENGINE_ID_MASK, p.engineIdMask, MAX32),
                   L.Put(base + L.BROM_UCODE_ID, p.ucodeId, 0xFF), L.Change(base + L.BROM_MODSEL, 1, 0xFF),
                   L.Put(base + L.BOOTVEC, p.imemVirtualBase, MAX32)];
      Plain(brom) && AllPermit(brom)
  {
    hide Combine32, Decide;
    FullOk(p.engine, L.BROM_PARA_ADDR0, p.pkcOffset);
    FullOk(p.engine, L.BROM_ENGINE_ID_MASK, p.engineIdMask);
    assert Pow2(8) == 0x100;
    Below(p.ucodeId, 8);
    SubmaskRefl(0xFF);
    WritePermits(p.engine, L.BROM_UCODE_ID, p.ucodeId, 0xFF, 0xFF);
    WriteOk(p.engine, L.BROM_MODSEL, 1, 0xFF, 0xFF);
    FullOk(p.engine, L.BOOTVEC, p.imemVirtualBase);
  }

  lemma StartPermits(engine: Engine)
    ensures var base := EngineBase(engine);
      var start := [Action(StartCpuRespectAlias, base + L.CPUCTL, 0, 0, 0), L.PollFor(base + L.CPUCTL, 0x10, 0x10)];
      Plain(start) && AllPermit(start)
  {
    hide Combine32;
    Decodes(engine, L.CPUCTL);
    PollOk(engine, L.CPUCTL, 0x10, 0x10, MAX32);
  }

  lemma FinishPermits(p: L.HsParameters)
    ensures Plain(L.LoadFinish(p)) && AllPermit(L.LoadFinish(p))
  {
    hide AllPermit, Plain, L.MailboxActions;
    var base := EngineBase(p.engine);
    var brom := [L.Put(base + L.BROM_PARA_ADDR0, p.pkcOffset, MAX32), L.Put(base + L.BROM_ENGINE_ID_MASK, p.engineIdMask, MAX32),
                 L.Put(base + L.BROM_UCODE_ID, p.ucodeId, 0xFF), L.Change(base + L.BROM_MODSEL, 1, 0xFF),
                 L.Put(base + L.BOOTVEC, p.imemVirtualBase, MAX32)];
    var start := [Action(StartCpuRespectAlias, base + L.CPUCTL, 0, 0, 0), L.PollFor(base + L.CPUCTL, 0x10, 0x10)];
    BromPermits(p);
    MailboxPermits(p.engine, p.mailbox);
    StartPermits(p.engine);
    PermitJoin(brom, L.MailboxActions(base, p.mailbox));
    PermitJoin(brom + L.MailboxActions(base, p.mailbox), start);
  }

  /** A load plan passes the allow-list exactly when both DMA destinations fit their 24-bit register. */
  lemma LoadAccepted(p: L.HsParameters)
    requires L.LoadValid(p)
    ensures Accepted(L.LoadActions(p)) <==>
            Fits24(p.imemPhysicalBase, p.imemBytes) && Fits24(p.dmemPhysicalBase, p.dmemBytes)
    ensures L.LoadActions(p) != []
  {
    hide AllPermit, Plain, L.LoadSetup, L.DmaActions, L.LoadFinish, L.DmaOk;
    var base := EngineBase(p.engine);
    SetupPermits(p.engine);
    DmaPermits(p.engine, p.imagePhysicalAddress + p.codeOffset - p.imemVirtualBase, p.imemPhysicalBase, p.imemVirtualBase,
               p.imemBytes, L.IMEM_COMMAND);
    DmaPermits(p.engine, p.imagePhysicalAddress + p.dataOffset - p.dmemVirtualBase, p.dmemPhysicalBase, p.dmemVirtualBase,
               p.dmemBytes, L.DMEM_COMMAND);
    FinishPermits(p);
    PermitJoin(L.LoadSetup(base), L.ImemLoad(p));
    PermitJoin(L.LoadSetup(base) + L.ImemLoad(p), L.DmemLoad(p));
    PermitJoin(L.LoadSetup(base) + L.ImemLoad(p) + L.DmemLoad(p), L.LoadFinish(p));
    PlainAccepted(L.LoadActions(p));
    NotEmpty(p);
  }

  lemma NotEmpty(p: L.HsParameters)
    requires L.LoadValid(p)
    ensures L.LoadActions(p) != []
  {
    assert |L.LoadSetup(EngineBase(p.engine))| == 3;
  }

  // ---- Resets ----

  function ResetHead(engine: Engine): seq<Action>
  {
    var base := EngineBase(engine);
    [L.Change(base + L.ENGINE_RESET, 1, 1), Action(DelayMilliseconds, 0, 100, 0, 0), L.Change(base + L.ENGINE_RESET, 0, 1),
     L.PollFor(base + L.HWCFG2, 0x1000, 0)]
  }

  function ResetBody(engine: Engine, chipId: u32): seq<Action>
  {
    var base := EngineBase(engine);
    [L.Change(base + L.RISCV_BCR_CTRL, 0, 0x10), L.PollFor(base + L.RISCV_BCR_CTRL, 1, 1), L.Put(base + L.FALCON_RM, chipId, MAX32)]
  }

  lemma HeadPermits(engine: Engine)
    ensures Plain(ResetHead(engine)) && AllPermit(ResetHead(engine))
  {
    hide Combine32;
    WriteOk(engine, L.ENGINE_RESET, 1, 1, 1);
    WriteOk(engine, L.ENGINE_RESET, 0, 1, 1);
    PollOk(engine, L.HWCFG2, 0x1000, 0, 0x1400);
  }

  lemma BodyPermits(engine: Engine, chipId: u32)
    ensures Plain(ResetBody(engine, chipId)) && AllPermit(ResetBody(engine, chipId))
  {
    hide Combine32, Decide;
    WriteOk(engine, L.RISCV_BCR_CTRL, 0, 0x10, 0x111);
    PollOk(engine, L.RISCV_BCR_CTRL, 1, 1, 0x111);
    FullOk(engine, L.FALCON_RM, chipId);
  }

  /** Every reset plan passes the allow-list. */
  lemma ResetAccepted(engine: Engine, bootRiscv: bool, chipId: u32)
    ensures Accepted(L.ResetActions(engine, bootRiscv, chipId)) && L.ResetActions(engine, bootRiscv, chipId) != []
  {
    hide Combine32, Decide;
    var base, head := EngineBase(engine), ResetHead(engine);
    HeadPermits(engine);
    PlainAccepted(head);
    if bootRiscv {
      var last := [L.Change(base + L.RISCV_BCR_CTRL, 0x110, 0x111)];
      SubmaskRefl(0x111);
      WriteOk(engine, L.RISCV_BCR_CTRL, 0x110, 0x111, 0x111);
      PermitJoin(head, last);
      PlainAccepted(head + last);
      assert L.ResetActions(engine, bootRiscv, chipId) == head + last;
    } else {
      ResetWithBlock(engine, chipId);
    }
  }

  lemma ResetWithBlock(engine: Engine, chipId: u32)
    ensures Accepted(L.ResetActions(engine, false, chipId))
  {
    var base, head, body := EngineBase(engine), ResetHead(engine), ResetBody(engine, chipId);
    var test := Action(IfMaskEqualBegin, base + L.HWCFG2, 0x400, 0x400, 0);
    hide Combine32, Decide, ResetHead, ResetBody, AllPermit, Plain;
    MarkersPermit(engine);
    HeadPermits(engine);
    BodyPermits(engine, chipId);
    PlainAccepted(head);
    PlainAccepted(body);
    ScanAppend(Outside, head, [test] + (body + [CLOSE]));
    ScanAppend(Outside, [test], body + [CLOSE]);
    ScanAppend(Inside, body, [CLOSE]);
    ScanOne(Outside, test);
    ScanOne(Inside, CLOSE);
    ResetIs(engine, chipId);
  }

  lemma MarkersPermit(engine: Engine)
    ensures EngineBase(engine) + L.HWCFG2 <= MAX32 && Decide(CLOSE).Permits()
    ensures Decide(Action(IfMaskEqualBegin, EngineBase(engine) + L.HWCFG2, 0x400, 0x400, 0)).Permits()
  {
    hide Combine32;
    PollOk(engine, L.HWCFG2, 0x400, 0x400, 0x1400);
  }

  lemma ScanOne(nest: Nest, a: Action)
    ensures Scan(nest, [a]) == Advance(nest, a)
  {
    hide Decide;
    assert [a][1..] == [];
  }

  lemma ResetIs(engine: Engine, chipId: u32)
    ensures L.ResetActions(engine, false, chipId) ==
            ResetHead(engine) + ([Action(IfMaskEqualBegin, EngineBase(engine) + L.HWCFG2, 0x400, 0x400, 0)] +
                                 (ResetBody(engine, chipId) + [CLOSE]))
  {
  }

  // ---- The sequence ----

  /** The FRTS firmware, as GSP is to load it. */
  function FrtsLoad(a: ResolvedAddresses, f: Fwsec): L.HsParameters
  {
    L.HsParameters(Falcon.Gsp, a.frtsFwsecImage, 0, f.imemLoadSize, f.imemPhysBase, f.imemVirtBase, f.imemLoadSize, f.dmemPhysBase,
                   0, f.dmemLoadSize, f.pkcDataOffset, f.engineIdMask, f.ucodeId, None)
  }

  /** The booter, as SEC2 is to load it. */
  function Sec2Load(a: ResolvedAddresses, s: Booter): L.HsParameters
  {
    L.HsParameters(Falcon.Sec2, a.sec2BooterImage, s.codeOffset, s.dataOffset, 0, s.codeOffset, s.codeSize, 0, 0, s.osDataSize,
                   0x10, 1, 3, Some(a.wprMetadata))
  }

  predicate SequenceOk(m: BootManifest, a: ResolvedAddresses, g: Bootloader, f: Fwsec, s: Booter)
  {
    && m.valid && g.parsed && s.parsed && AddressesOk(a)
    && g.dataSize == m.inputs.gspBootloaderBytes && s.dataSize == m.inputs.sec2BooterImageBytes
    && f.imemLoadSize != 0 && f.dmemLoadSize != 0
    && L.LoadValid(FrtsLoad(a, f)) && L.LoadValid(Sec2Load(a, s))
  }

  function Reset(phase: BootPhase, engine: Engine, bootRiscv: bool, chipId: u32): PhasePlan
  {
    PhasePlan(phase, L.ResetActions(engine, bootRiscv, chipId), [])
  }

  function Verify(phase: BootPhase, check: Check): PhasePlan { PhasePlan(phase, [], [check]) }

  function StatusOffset(m: BootManifest): u64 { (m.queues.statusQueueOffset + STATUS_ENTRY_OFF_FIELD) % 0x1_0000_0000_0000_0000 }

  /** Phase `i` of the plan. */
  function PhaseOf(m: BootManifest, a: ResolvedAddresses, g: Bootloader, f: Fwsec, s: Booter, chipId: u32, i: nat): PhasePlan
    requires SequenceOk(m, a, g, f, s) && i < 12
  {
    match i
    case 0 => PhasePlan(PrefillBootstrapRpcRecords, [], [])
    case 1 => Reset(ResetGspForFrts, Falcon.Gsp, false, chipId)
    case 2 => PhasePlan(ExecuteFrtsFwsec, L.LoadActions(FrtsLoad(a, f)), [])
    case 3 => Verify(VerifyWpr2, Check(MmioNonZero, WPR2_HI, MAX32, 0))
    case 4 => Reset(ResetGspForRiscv, Falcon.Gsp, true, chipId)
    case 5 => PhasePlan(ProgramLibosMailbox, [FullWrite(GSP_MAILBOX0, LowWord(a.libosInitArguments)),
                                              FullWrite(GSP_MAILBOX1, HighWord(a.libosInitArguments))], [])
    case 6 => Reset(ResetSec2, Falcon.Sec2, false, chipId)
    case 7 => PhasePlan(ExecuteSec2Booter, L.LoadActions(Sec2Load(a, s)), [])
    case 8 => Verify(VerifySec2Booter, Check(MmioMaskEqual, SEC2_MAILBOX0, MAX32, 0))
    case 9 => PhasePlan(ReleaseGspRiscv, [FullWrite(GSP_FALCON_OS, g.appVersion)], [])
    case 10 => Verify(VerifyGspRiscv, Check(MmioMaskEqual, GSP_RISCV_CPUCTL, RISCV_ACTIVE_MASK, RISCV_ACTIVE_MASK))
    case _ => Verify(WaitStatusQueue, Check(SharedMemoryU32Equal, StatusOffset(m), MAX32, EXPECTED_ENTRY_OFF))
  }

  function PhasesTo(m: BootManifest, a: ResolvedAddresses, g: Bootloader, f: Fwsec, s: Booter, chipId: u32, k: nat): (r: seq<PhasePlan>)
    requires SequenceOk(m, a, g, f, s) && k <= 12
    ensures |r| == k && forall i :: 0 <= i < k ==> r[i] == PhaseOf(m, a, g, f, s, chipId, i)
  {
    if k == 0 then [] else PhasesTo(m, a, g, f, s, chipId, k - 1) + [PhaseOf(m, a, g, f, s, chipId, k - 1)]
  }

  function SequenceOf(m: BootManifest, a: ResolvedAddresses, g: Bootloader, f: Fwsec, s: Booter, chipId: u32): BootSequence
    requires SequenceOk(m, a, g, f, s)
  {
    BootSequence(true, m.bootstrapRpcPrefillImplemented, PhasesTo(m, a, g, f, s, chipId, 12))
  }

  const NO_SEQUENCE := BootSequence(false, false, [])

  method PlanBootSequence(m: BootManifest, a: ResolvedAddresses, g: Bootloader, f: Fwsec, s: Booter, chipId: u32)
    returns (out: BootSequence)
    ensures out == if SequenceOk(m, a, g, f, s) then SequenceOf(m, a, g, f, s, chipId) else NO_SEQUENCE
  {
    hide L.LoadValid, L.LoadActions, L.ResetActions, AddressesOk, LowWord, HighWord;
    if !m.valid || !g.parsed || !s.parsed || !AddressesOk(a) || g.dataSize != m.inputs.gspBootloaderBytes
       || s.dataSize != m.inputs.sec2BooterImageBytes || f.imemLoadSize == 0 || f.dmemLoadSize == 0 {
      return NO_SEQUENCE;
    }
    var phases := [PhasePlan(PrefillBootstrapRpcRecords, [], [])];
    var reset := L.PlanReset(Falcon.Gsp, false, chipId);
    phases := phases + [PhasePlan(ResetGspForFrts, reset.actions, [])];
    var frts := L.PlanAuthenticatedExecution(FrtsLoad(a, f));
    if !frts.valid {
      return NO_SEQUENCE;
    }
    phases := phases + [PhasePlan(ExecuteFrtsFwsec, frts.actions, [])];
    phases := phases + [PhasePlan(VerifyWpr2, [], [Check(MmioNonZero, WPR2_HI, MAX32, 0)])];
    var riscv := L.PlanReset(Falcon.Gsp, true, chipId);
    phases := phases + [PhasePlan(ResetGspForRiscv, riscv.actions, [])];
    phases := phases + [PhasePlan(ProgramLibosMailbox, [FullWrite(GSP_MAILBOX0, LowWord(a.libosInitArguments)),
                                                        FullWrite(GSP_MAILBOX1, HighWord(a.libosInitArguments))], [])];
    var resetSec2 := L.PlanReset(Falcon.Sec2, false, chipId);
    phases := phases + [PhasePlan(ResetSec2, resetSec2.actions, [])];
    var sec2 := L.PlanAuthenticatedExecution(Sec2Load(a, s));
    if !sec2.valid {
      return NO_SEQUENCE;
    }
    phases := phases + [PhasePlan(ExecuteSec2Booter, sec2.actions, [])];
    phases := phases + [PhasePlan(VerifySec2Booter, [], [Check(MmioMaskEqual, SEC2_MAILBOX0, MAX32, 0)])];
    phases := phases + [PhasePlan(ReleaseGspRiscv, [FullWrite(GSP_FALCON_OS, g.appVersion)], [])];
    phases := phases + [PhasePlan(VerifyGspRiscv, [], [Check(MmioMaskEqual, GSP_RISCV_CPUCTL, RISCV_ACTIVE_MASK, RISCV_ACTIVE_MASK)])];
    phases := phases + [PhasePlan(WaitStatusQueue, [], [Check(SharedMemoryU32Equal, StatusOffset(m), MAX32, EXPECTED_ENTRY_OFF)])];
    out := BootSequence(true, m.bootstrapRpcPrefillImplemented, phases);
  }

  // ---- Planner and auditor ----

  /** Every DMA destination of both loads fits in 24 bits. */
  predicate DestinationsFit(f: Fwsec, s: Booter)
  {
    && Fits24(f.imemPhysBase, f.imemLoadSize) && Fits24(f.dmemPhysBase, f.dmemLoadSize)
    && Fits24(0, s.codeSize) && Fits24(0, s.osDataSize)
  }

  lemma MailboxesAccepted(a: ResolvedAddresses)
    ensures Accepted([FullWrite(GSP_MAILBOX0, LowWord(a.libosInitArguments)), FullWrite(GSP_MAILBOX1, HighWord(a.libosInitArguments))])
  {
    var two := [FullWrite(GSP_MAILBOX0, LowWord(a.libosInitArguments)), FullWrite(GSP_MAILBOX1, HighWord(a.libosInitArguments))];
    hide Combine32, Decide;
    FullOk(Falcon.Gsp, 0x40, LowWord(a.libosInitArguments));
    FullOk(Falcon.Gsp, 0x44, HighWord(a.libosInitArguments));
    PlainAccepted(two);
  }

  lemma ReleaseAccepted(appVersion: u32)
    ensures Accepted([FullWrite(GSP_FALCON_OS, appVersion)])
  {
    hide Combine32, Decide;
    FullOk(Falcon.Gsp, 0x80, appVersion);
    PlainAccepted([FullWrite(GSP_FALCON_OS, appVersion)]);
  }

  /** The audit of phase `i` of a plan: only the two load phases depend on anything. */
  lemma PhaseAudit(m: BootManifest, a: ResolvedAddresses, g: Bootloader, f: Fwsec, s: Booter, chipId: u32, i: nat)
    requires SequenceOk(m, a, g, f, s) && i < 12 && m.queues.statusQueueOffset <= MAX64 - STATUS_ENTRY_OFF_FIELD
    ensures PhaseAccepted(m, Expectations(a.libosInitArguments, g.appVersion), PhaseOf(m, a, g, f, s, chipId, i), EXPECTED_PHASES[i])
            <==> && (i == 2 ==> Fits24(f.imemPhysBase, f.imemLoadSize) && Fits24(f.dmemPhysBase, f.dmemLoadSize))
                 && (i == 7 ==> Fits24(0, s.codeSize) && Fits24(0, s.osDataSize))
  {
    hide Accepted, L.LoadActions, L.ResetActions, L.LoadValid, LowWord, HighWord, Fits24, AddressesOk;
    match i
    case 1 => ResetAccepted(Falcon.Gsp, false, chipId);
    case 2 => LoadAccepted(FrtsLoad(a, f));
    case 4 => ResetAccepted(Falcon.Gsp, true, chipId);
    case 5 => MailboxesAccepted(a);
    case 6 => ResetAccepted(Falcon.Sec2, false, chipId);
    case 7 => LoadAccepted(Sec2Load(a, s));
    case 9 => ReleaseAccepted(g.appVersion);
    case _ =>
  }

  /** Over a planned manifest with a libOS page, the auditor accepts what the planner plans exactly when
      every DMA destination fits the 24 bits of its register. */
  lemma PlannerMeetsAuditor(m: BootManifest, a: ResolvedAddresses, g: Bootloader, f: Fwsec, s: Booter, chipId: u32)
    requires SequenceOk(m, a, g, f, s) && Artifacts.Planned(m) && a.libosInitArguments != 0
    ensures SequenceAccepted(m, SequenceOf(m, a, g, f, s, chipId), Expectations(a.libosInitArguments, g.appVersion))
            <==> DestinationsFit(f, s)
  {
    hide PhaseAccepted, Fits24, L.LoadValid, PhaseOf, PhasesTo, AddressesOk;
    PlannedStatus(m);
    PhasesAudit(m, a, g, f, s, chipId);
    LibosAligned(a);
  }

  lemma LibosAligned(a: ResolvedAddresses)
    requires AddressesOk(a)
    ensures a.libosInitArguments % 0x1000 == 0
  {
  }

  lemma PhasesAudit(m: BootManifest, a: ResolvedAddresses, g: Bootloader, f: Fwsec, s: Booter, chipId: u32)
    requires SequenceOk(m, a, g, f, s) && m.queues.statusQueueOffset <= MAX64 - STATUS_ENTRY_OFF_FIELD
    ensures var e, phases := Expectations(a.libosInitArguments, g.appVersion), PhasesTo(m, a, g, f, s, chipId, 12);
      (forall i :: 0 <= i < 12 ==> PhaseAccepted(m, e, phases[i], EXPECTED_PHASES[i])) <==> DestinationsFit(f, s)
  {
    hide PhaseAccepted, Fits24, SequenceOk, PhaseOf;
    var e, phases := Expectations(a.libosInitArguments, g.appVersion), PhasesTo(m, a, g, f, s, chipId, 12);
    forall i | 0 <= i < 12
      ensures PhaseAccepted(m, e, phases[i], EXPECTED_PHASES[i])
              <==> && (i == 2 ==> Fits24(f.imemPhysBase, f.imemLoadSize) && Fits24(f.dmemPhysBase, f.dmemLoadSize))
                   && (i == 7 ==> Fits24(0, s.codeSize) && Fits24(0, s.osDataSize))
    {
      PhaseAudit(m, a, g, f, s, chipId, i);
    }
    if DestinationsFit(f, s) {
    } else if Fits24(f.imemPhysBase, f.imemLoadSize) && Fits24(f.dmemPhysBase, f.dmemLoadSize) {
      assert !PhaseAccepted(m, e, phases[7], EXPECTED_PHASES[7]);
    } else {
      assert !PhaseAccepted(m, e, phases[2], EXPECTED_PHASES[2]);
    }
  }

  lemma PlannedStatus(m: BootManifest)
    requires m.valid && Artifacts.Planned(m)
    ensures m.bootstrapRpcPrefillImplemented && m.queues.statusQueueOffset <= MAX64 - STATUS_ENTRY_OFF_FIELD
  {
    Artifacts.PlannedParts(m);
    Q.QueueLayoutShape(m.queues.queueBytes);
  }

  /** A destination can be planned and still be refused: the planner's own bound is 32 bits. */
  lemma WideDestinationIsRefused()
    ensures var p := L.HsParameters(Falcon.Gsp, 0, 0, 0, 0x100_0000, 0, 0x100, 0, 0, 0x100, 0, 0, 0, None);
      L.LoadValid(p) && !Accepted(L.LoadActions(p))
  {
    LoadAccepted(L.HsParameters(Falcon.Gsp, 0, 0, 0, 0x100_0000, 0, 0x100, 0, 0, 0x100, 0, 0, 0, None));
  }
}
