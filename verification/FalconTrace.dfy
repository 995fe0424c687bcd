/** What an executed load plan does to the DMA engine, read off the device log instead of the plan. */
module FalconTrace {
  import opened Words
  import opened Falcon
  import opened FalconPolicy
  import opened FalconExec
  import opened FalconDma
  import opened FalconLog
  import opened Mmio
  import L = FalconPlan
  import P = Pramin
  import SequencePlan

  /** A write in the log reaches the port whatever kind of action made it. */
  function LatchEvent(base: u32, port: Port, e: Event): (r: Port)
    requires port.Valid()
    ensures r.Valid() && r.limit == port.limit
  {
    if !e.Write? then port
    else if e.address == base + L.DMABASE then port.(baseLow := e.value)
    else if e.address == base + L.DMABASE1 then port.(baseHigh := e.value)
    else if e.address == base + L.DMAMEMOFFSET then port.(memOffset := Low(e.value, port.limit))
    else if e.address == base + L.DMAFBOFFSET then port.(fbOffset := e.value)
    else port
  }

  predicate CommandEvent(base: u32, e: Event) { e.Write? && e.address == base + L.DMACMD }

  /** The port after a stretch of log. */
  function SettleLog(base: u32, port: Port, log: Log): (r: Port)
    requires port.Valid()
    ensures r.Valid() && r.limit == port.limit
    decreases |log|
  {
    if log == [] then port else SettleLog(base, LatchEvent(base, port, log[0]), log[1..])
  }

  /** The transfers that the writes of a stretch of log issue, in order. */
  function LogTransfers(base: u32, port: Port, log: Log): seq<Transfer>
    requires port.Valid()
    decreases |log|
  {
    if log == [] then []
    else
      (if CommandEvent(base, log[0]) then [Issue(port, log[0].value)] else [])
      + LogTransfers(base, LatchEvent(base, port, log[0]), log[1..])
  }

  lemma {:induction false} LogCompose(base: u32, port: Port, xs: Log, ys: Log)
    requires port.Valid()
    ensures SettleLog(base, port, xs + ys) == SettleLog(base, SettleLog(base, port, xs), ys)
    ensures LogTransfers(base, port, xs + ys) ==
            LogTransfers(base, port, xs) + LogTransfers(base, SettleLog(base, port, xs), ys)
    decreases |xs|
  {
    hide Issue, LatchEvent;
    if xs == [] {
      assert xs + ys == ys;
    } else {
      assert (xs + ys)[0] == xs[0] && (xs + ys)[1..] == xs[1..] + ys;
      LogCompose(base, LatchEvent(base, port, xs[0]), xs[1..], ys);
    }
  }

  /** A stretch of log that does to the port what these actions say, and issues what they issue. */
  ghost predicate Does(base: u32, log: Log, actions: seq<Action>)
  {
    forall port: Port | port.Valid() :: DoesOn(base, port, log, actions)
  }

  predicate DoesOn(base: u32, port: Port, log: Log, actions: seq<Action>)
    requires port.Valid()
  {
    SettleLog(base, port, log) == Settle(base, port, actions) && LogTransfers(base, port, log) == Transfers(base, port, actions)
  }

  lemma QuietDoesNothing(base: u32, log: Log)
    requires Quiet(log)
    ensures Does(base, log, [])
  {
    hide Quiet, DoesOn;
    forall port: Port | port.Valid() ensures DoesOn(base, port, log, []) { QuietOnPort(base, port, log); }
  }

  lemma {:induction false} QuietOnPort(base: u32, port: Port, log: Log)
    requires Quiet(log) && port.Valid()
    ensures DoesOn(base, port, log, [])
    decreases |log|
  {
    hide Issue;
    if log != [] {
      assert Quiet(log[1..]) by { assert forall i :: 0 <= i < |log[1..]| ==> log[1..][i] == log[i + 1]; }
      QuietOnPort(base, port, log[1..]);
    }
  }

  lemma BothOnPort(base: u32, port: Port, xs: Log, ys: Log, a: seq<Action>, b: seq<Action>)
    requires port.Valid() && DoesOn(base, port, xs, a) && DoesOn(base, SettleLog(base, port, xs), ys, b)
    ensures DoesOn(base, port, xs + ys, a + b)
  {
    hide SettleLog, LogTransfers, Settle, Transfers;
    LogCompose(base, port, xs, ys);
    Compose(base, port, a, b);
  }

  lemma DoesBoth(base: u32, xs: Log, ys: Log, a: seq<Action>, b: seq<Action>)
    requires Does(base, xs, a) && Does(base, ys, b)
    ensures Does(base, xs + ys, a + b)
  {
    hide SettleLog, DoesOn;
    forall port: Port | port.Valid() ensures DoesOn(base, port, xs + ys, a + b) {
      assert DoesOn(base, port, xs, a) && DoesOn(base, SettleLog(base, port, xs), ys, b);
      BothOnPort(base, port, xs, ys, a, b);
    }
  }

  /** One of the five DMA registers of an engine. */
  predicate DmaRegister(base: u32, address: nat)
  {
    address in {base + L.DMABASE, base + L.DMABASE1, base + L.DMAMEMOFFSET, base + L.DMAFBOFFSET, base + L.DMACMD}
  }

  /** An action that reaches the DMA registers by full writes only. */
  predicate Direct(base: u32, a: Action)
  {
    && !IsMarker(a)
    && (a.kind.MaskedWrite? ==> !DmaRegister(base, a.address))
    && (a.kind.StartCpuRespectAlias? ==> !DmaRegister(base, a.address) && !DmaRegister(base, a.address + 0x30))
  }

  lemma OneEvent(base: u32, port: Port, e: Event)
    requires port.Valid()
    ensures SettleLog(base, port, [e]) == LatchEvent(base, port, e)
    ensures LogTransfers(base, port, [e]) == if CommandEvent(base, e) then [Issue(port, e.value)] else []
  {
    hide Issue, LatchEvent;
    assert [e][1..] == [];
  }

  /** An event and an action with the same effect on every port. */
  predicate Mirrors(base: u32, e: Event, a: Action)
  {
    && e.Write?
    && (a.kind.Write32? ==> a.address == e.address && a.value == e.value)
    && (!a.kind.Write32? ==> !DmaRegister(base, e.address))
  }

  lemma MirrorsOnPort(base: u32, port: Port, e: Event, a: Action)
    requires port.Valid() && Mirrors(base, e, a)
    ensures LatchEvent(base, port, e) == Latch(base, port, a)
    ensures CommandEvent(base, e) == IsCommand(base, a) && (IsCommand(base, a) ==> a.value == e.value)
  {
  }

  lemma WriteDoes(base: u32, e: Event, a: Action)
    requires Mirrors(base, e, a)
    ensures Does(base, [e], [a])
  {
    hide Issue, Mirrors, SettleLog, LogTransfers, Settle, Transfers, LatchEvent, Latch, IsCommand, CommandEvent;
    forall port: Port | port.Valid() ensures DoesOn(base, port, [e], [a]) {
      FalconDma.One(base, port, a);
      OneEvent(base, port, e);
      MirrorsOnPort(base, port, e, a);
    }
  }

  lemma ConcreteDoes(base: u32, bar: Bar, st: State, a: Action)
    requires a.kind.MaskedWrite? ==> !DmaRegister(base, a.address)
    ensures var r := ConcreteWrite(bar, st, a);
      st.log <= r.state.log && Does(base, Since(st, r.state), if r.status == Success then [a] else [])
  {
    hide Decide, Does, Merge;
    var r := ConcreteWrite(bar, st, a);
    var log := Since(st, r.state);
    if r.status != Success {
      QuietDoesNothing(base, log);
    } else {
      var k := if a.kind.MaskedWrite? then 1 else 0;
      WriteDoes(base, log[k], a);
      QuietDoesNothing(base, log[..k]);
      QuietDoesNothing(base, log[k + 1..]);
      DoesBoth(base, log[..k], [log[k]], [], [a]);
      DoesBoth(base, log[..k] + [log[k]], log[k + 1..], [] + [a], []);
      assert log == log[..k] + [log[k]] + log[k + 1..];
      assert [] + [a] + [] == [a];
    }
  }

  lemma {:induction false} PollQuiet(bar: Bar, budget: nat, st: State, a: Action, waited: nat)
    requires waited <= a.timeoutMs
    ensures var r := Poll(bar, budget, st, a, waited);
      st.log <= r.state.log && Quiet(Since(st, r.state))
    decreases a.timeoutMs - waited
  {
    hide And32;
    var seen := st.(log := ReadRegister(bar, st.log, a.address).log);
    if ReadRegister(bar, st.log, a.address).status == Success && waited < a.timeoutMs && CanConsumeWait(st.wait, 1, budget) {
      var slept := seen.(log := seen.log + [Sleep(1)], wait := st.wait + 1);
      PollQuiet(bar, budget, slept, a, waited + 1);
      var end := Poll(bar, budget, slept, a, waited + 1).state;
      assert Since(st, end) == Since(st, slept) + Since(slept, end);
    }
  }

  lemma NoActions(base: u32, port: Port)
    requires port.Valid()
    ensures Settle(base, port, []) == port && Transfers(base, port, []) == []
  {
  }

  lemma IdleDoes(base: u32, log: Log, a: Action)
    requires Quiet(log) && !a.kind.Write32?
    ensures Does(base, log, [a])
  {
    hide Issue, SettleLog, LogTransfers, Settle, Transfers, Latch, IsCommand, Quiet;
    QuietDoesNothing(base, log);
    forall port: Port | port.Valid() ensures DoesOn(base, port, log, [a]) {
      assert DoesOn(base, port, log, []);
      FalconDma.One(base, port, a);
      OffPort(base, port, a);
      NoActions(base, port);
    }
  }

  /** One executed action does to the port what the plan's action says; a failed one does nothing. */
  lemma ActionDoes(base: u32, bar: Bar, budget: nat, st: State, a: Action)
    requires Direct(base, a)
    ensures var r := RunAction(bar, budget, st, a);
      st.log <= r.state.log && Does(base, Since(st, r.state), if r.status == Success then [a] else [])
  {
    hide Does, And32, Decide, ConcreteWrite, Poll;
    var r := RunAction(bar, budget, st, a);
    match a.kind
    case Write32 => ConcreteDoes(base, bar, st, a);
    case MaskedWrite => ConcreteDoes(base, bar, st, a);
    case PollMaskEqual =>
      PollQuiet(bar, budget, st, a, 0);
      IdleDoes(base, Since(st, r.state), a);
      QuietDoesNothing(base, Since(st, r.state));
    case DelayMilliseconds =>
      IdleDoes(base, Since(st, r.state), a);
      QuietDoesNothing(base, Since(st, r.state));
    case StartCpuRespectAlias => StartDoes(base, bar, st, a);
  }

  lemma StartDoes(base: u32, bar: Bar, st: State, a: Action)
    requires a.kind.StartCpuRespectAlias? && !DmaRegister(base, a.address) && !DmaRegister(base, a.address + 0x30)
    ensures var r := StartCpu(bar, st, a);
      st.log <= r.state.log && Does(base, Since(st, r.state), if r.status == Success then [a] else [])
  {
    hide Does, ConcreteWrite, DmaRegister, Decide, ResolveStartCpu;
    var read := ReadRegister(bar, st.log, a.address);
    var seen := st.(log := read.log);
    QuietDoesNothing(base, Since(st, seen));
    if read.status == Success && ResolveStartCpu(a, read.value).valid {
      var c := ResolveStartCpu(a, read.value).action;
      var r := ConcreteWrite(bar, seen, c);
      ResolvedAddress(a, read.value);
      ConcreteDoes(base, bar, seen, c);
      assert Since(st, r.state) == Since(st, seen) + Since(seen, r.state);
      DoesBoth(base, Since(st, seen), Since(seen, r.state), [], if r.status == Success then [c] else []);
      if r.status == Success {
        assert [] + [c] == [c];
        SameEffect(base, Since(st, r.state), c, a);
      } else {
        var none: seq<Action> := [];
        assert none + none == none;
      }
    }
  }

  lemma ResolvedAddress(a: Action, cpuCtl: u32)
    requires ResolveStartCpu(a, cpuCtl).valid
    ensures ResolveStartCpu(a, cpuCtl).action.address in {a.address, a.address + 0x30}
  {
  }

  lemma OffPort(base: u32, port: Port, c: Action)
    requires port.Valid() && (!DmaRegister(base, c.address) || !c.kind.Write32?)
    ensures Latch(base, port, c) == port && !IsCommand(base, c)
  {
  }

  /** Two actions off the DMA registers are the same to the port. */
  lemma SameEffect(base: u32, log: Log, c: Action, a: Action)
    requires Does(base, log, [c]) && !DmaRegister(base, c.address) && !a.kind.Write32?
    ensures Does(base, log, [a])
  {
    hide Issue, SettleLog, LogTransfers, Settle, Transfers, Latch, IsCommand, DmaRegister;
    forall port: Port | port.Valid() ensures DoesOn(base, port, log, [a]) {
      assert DoesOn(base, port, log, [c]);
      FalconDma.One(base, port, a);
      FalconDma.One(base, port, c);
      OffPort(base, port, a);
      OffPort(base, port, c);
    }
  }

  // ---- Whole lists ----

  /** What running a plain list logs does to the port what some first part of the list says, and the whole
      of it when the run succeeds. */
  lemma {:induction false} ListDoes(base: u32, bar: Bar, budget: nat, st: State, actions: seq<Action>) returns (k: nat)
    requires forall a <- actions :: Direct(base, a)
    ensures var r := Flat(Executor(bar, budget), st, false, actions);
      && st.log <= r.state.log && k <= |actions| && (r.status == Success ==> k == |actions|)
      && Does(base, Since(st, r.state), actions[..k])
    decreases |actions|
  {
    hide Does, RunAction, Direct, And32;
    var m := Executor(bar, budget);
    if actions == [] {
      k := 0;
      QuietDoesNothing(base, []);
      assert Since(st, st) == [] && actions[..0] == [];
    } else {
      var a := actions[0];
      assert a in actions;
      assert !IsMarker(a) by { Plain(base, a); }
      ActionDoes(base, bar, budget, st, a);
      var r := RunAction(bar, budget, st, a);
      if r.status != Success {
        k := 0;
        assert actions[..0] == [];
      } else {
        var next := r.state.(pc := r.state.pc + 1);
        var rest := ListDoes(base, bar, budget, next, actions[1..]);
        k := rest + 1;
        var end := Flat(m, next, false, actions[1..]).state;
        assert Since(st, end) == Since(st, next) + Since(next, end);
        DoesBoth(base, Since(st, next), Since(next, end), [a], actions[1..][..rest]);
        assert actions[..k] == [a] + actions[1..][..rest];
      }
    }
  }

  lemma Plain(base: u32, a: Action)
    requires Direct(base, a)
    ensures !IsMarker(a)
  {
  }

  /** A first part of a list issues a first part of its transfers. */
  lemma PartIssues(base: u32, port: Port, actions: seq<Action>, k: nat)
    requires port.Valid() && k <= |actions|
    ensures Transfers(base, port, actions[..k]) <= Transfers(base, port, actions)
  {
    hide Transfers;
    assert actions == actions[..k] + actions[k..];
    Compose(base, port, actions[..k], actions[k..]);
  }

  // ---- Load plans ----

  /** A block or DMA action list reaches the port by full writes. */
  predicate AllDirect(base: u32, actions: seq<Action>) { forall a <- actions :: Direct(base, a) }

  lemma DirectJoin(base: u32, xs: seq<Action>, ys: seq<Action>)
    requires AllDirect(base, xs) && AllDirect(base, ys)
    ensures AllDirect(base, xs + ys)
  {
  }

  lemma {:induction false} BlocksDirect(base: u32, engine: Engine, dest: u32, memoryOffset: u32, command: u32, n: nat)
    requires base == EngineBase(engine)
    requires n > 0 ==> dest + (n - 1) * L.TRANSFER <= MAX32 && memoryOffset + (n - 1) * L.TRANSFER <= MAX32
    ensures AllDirect(base, L.Blocks(base, dest, memoryOffset, command, n))
  {
    if n > 0 {
      BlocksDirect(base, engine, dest, memoryOffset, command, n - 1);
      DirectJoin(base, L.Blocks(base, dest, memoryOffset, command, n - 1),
                 L.Block(base, dest + (n - 1) * L.TRANSFER, memoryOffset + (n - 1) * L.TRANSFER, command));
    }
  }

  lemma DmaDirect(engine: Engine, source: u64, dest: u32, memoryOffset: u32, bytes: u32, command: u32)
    requires L.DmaOk(source, dest, memoryOffset, bytes)
    ensures AllDirect(EngineBase(engine), L.DmaActions(EngineBase(engine), source, dest, memoryOffset, bytes, command))
  {
    hide AllDirect, L.Blocks;
    var base := EngineBase(engine);
    var last := [L.PollFor(base + L.DMACMD, 0x2, 0x2)];
    BlocksDirect(base, engine, dest, memoryOffset, command, bytes / L.TRANSFER);
    PreambleDirect(engine, source);
    DirectJoin(base, L.DmaPreamble(base, source), L.Blocks(base, dest, memoryOffset, command, bytes / L.TRANSFER));
    DirectJoin(base, L.DmaPreamble(base, source) + L.Blocks(base, dest, memoryOffset, command, bytes / L.TRANSFER), last);
  }

  lemma PreambleDirect(engine: Engine, source: u64)
    requires source < 0x2_0000_0000_0000
    ensures AllDirect(EngineBase(engine), L.DmaPreamble(EngineBase(engine), source))
    ensures AllDirect(EngineBase(engine), [L.PollFor(EngineBase(engine) + L.DMACMD, 0x2, 0x2)])
  {
  }

  lemma EndsDirect(p: L.HsParameters)
    ensures AllDirect(EngineBase(p.engine), L.LoadSetup(EngineBase(p.engine)))
    ensures AllDirect(EngineBase(p.engine), L.LoadFinish(p))
  {
  }

  lemma LoadDirect(p: L.HsParameters)
    requires L.LoadValid(p)
    ensures AllDirect(EngineBase(p.engine), L.LoadActions(p))
  {
    hide AllDirect, L.DmaActions, L.LoadSetup, L.LoadFinish, L.DmaOk;
    var base := EngineBase(p.engine);
    EndsDirect(p);
    DmaDirect(p.engine, p.imagePhysicalAddress + p.codeOffset - p.imemVirtualBase, p.imemPhysicalBase, p.imemVirtualBase,
              p.imemBytes, L.IMEM_COMMAND);
    DmaDirect(p.engine, p.imagePhysicalAddress + p.dataOffset - p.dmemVirtualBase, p.dmemPhysicalBase, p.dmemVirtualBase,
              p.dmemBytes, L.DMEM_COMMAND);
    DirectJoin(base, L.LoadSetup(base), L.ImemLoad(p));
    DirectJoin(base, L.LoadSetup(base) + L.ImemLoad(p), L.DmemLoad(p));
    DirectJoin(base, L.LoadSetup(base) + L.ImemLoad(p) + L.DmemLoad(p), L.LoadFinish(p));
  }

  /** The width of the memory offset register by the allow-list. */
  const OFFSET_LIMIT: nat := 0x100_0000

  /** With that register, the auditor admits exactly the valid load plans that transfer what they should. */
  lemma AuditedLoadsRight(p: L.HsParameters, port: Port)
    requires L.LoadValid(p) && port.limit == OFFSET_LIMIT
    ensures Accepted(L.LoadActions(p)) <==> Transfers(EngineBase(p.engine), port, L.LoadActions(p)) == Intended(p)
  {
    hide L.LoadActions, Accepted, Transfers, Intended, L.DmaOk;
    SequencePlan.LoadAccepted(p);
    PlanTransfers(p, port);
  }

  /** What an audited load plan's execution logged issues transfers only as intended and in order, however it
      ends, and exactly the intended ones when it succeeds: on every device, from any port whose memory
      offset register has at least the 24 bits the allow-list admits. */
  lemma RunTransfers(bar: Bar, log: Log, budget: nat, p: L.HsParameters, port: Port)
    requires L.LoadValid(p) && Accepted(L.LoadActions(p)) && port.Valid() && port.limit >= OFFSET_LIMIT
    ensures var r := FalconExec.Run(bar, log, budget, L.LoadActions(p));
      && log <= r.state.log
      && var issued := LogTransfers(EngineBase(p.engine), port, r.state.log[|log|..]);
      && issued <= Intended(p)
      && (r.status == Success ==> issued == Intended(p))
  {
    hide L.LoadActions, Accepted, Does, Transfers, LogTransfers, RunProg, Flat, Intended, L.DmaOk;
    var base, actions, st := EngineBase(p.engine), L.LoadActions(p), State(log, 0, false, 0);
    LoadDirect(p);
    var k := ListDoes(base, bar, budget, st, actions);
    AcceptedIsStructured(actions);
    FlatRefinesProg(Executor(bar, budget), st, Parse(actions));
    var r := FalconExec.Run(bar, log, budget, actions);
    assert r == Flat(Executor(bar, budget), st, false, actions);
    SequencePlan.LoadAccepted(p);
    PlanTransfers(p, port);
    PartIssues(base, port, actions, k);
    Apply(base, port, Since(st, r.state), actions[..k]);
    if r.status == Success { assert actions[..k] == actions; }
  }

  lemma Apply(base: u32, port: Port, log: Log, actions: seq<Action>)
    requires Does(base, log, actions) && port.Valid()
    ensures LogTransfers(base, port, log) == Transfers(base, port, actions)
  {
    hide SettleLog, LogTransfers, Settle, Transfers;
    assert DoesOn(base, port, log, actions);
  }

  /** Staging an image and then executing its load plan with success leaves the firmware bytes in both
      memories, going by the writes in the log. */
  lemma ExecutedPlanLoadsFirmware(bar: Bar, log: Log, budget: nat, p: L.HsParameters, port: Port, m: Memories, vram: seq<byte>,
                                  image: seq<byte>, selector: u32, s: P.StagePlan, j: nat)
    requires L.LoadValid(p) && Accepted(L.LoadActions(p)) && port.Valid() && port.limit >= OFFSET_LIMIT
    requires FalconExec.Run(bar, log, budget, L.LoadActions(p)).status == Success
    requires P.Executable(s) && |vram| == s.vramSize && |image| == s.totalBytes && s.vramOffset == p.imagePhysicalAddress
    requires p.codeOffset + p.imemBytes <= |image| && p.dataOffset + p.dmemBytes <= |image|
    ensures var r := FalconExec.Run(bar, log, budget, L.LoadActions(p)).state.log;
      && log <= r
      && var view := ViewOf(P.Replay(vram, selector, P.StepsOf(s.chunks), image, 0));
      var after := PerformAll(m, view, LogTransfers(EngineBase(p.engine), port, r[|log|..]));
      && (j < p.imemBytes ==> after.imem(p.imemPhysicalBase + j) == image[p.codeOffset + j])
      && (j < p.dmemBytes ==> after.dmem(p.dmemPhysicalBase + j) == image[p.dataOffset + j])
  {
    hide L.LoadActions, Accepted, LogTransfers, FalconExec.Run, Intended, P.Executable, P.Replay, P.StepsOf, PerformAll, L.DmaOk;
    RunTransfers(bar, log, budget, p, port);
    StagedFirmwareIsLoaded(p, m, vram, image, selector, s, j);
  }
}
