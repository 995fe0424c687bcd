/** What a whole boot run moves: the firmware transfers of both engines, read off the device log of any number
    of calls over one planned sequence. */
module BootTransfers {
  import opened Words
  import opened Falcon
  import opened FalconPolicy
  import opened FalconExec
  import opened FalconDma
  import opened FalconLog
  import opened FalconTrace
  import opened Mmio
  import opened BootAttempts
  import opened BootPhaseExecutor
  import opened BootRun
  import G = Gsp
  import L = FalconPlan
  import S = SequencePlan
  import Policy = BootSequencePolicy

  /** What a sequence is planned from. */
  datatype Boot = Boot(
    manifest: G.BootManifest,
    addresses: G.ResolvedAddresses,
    bootloader: G.Bootloader,
    fwsec: G.Fwsec,
    booter: G.Booter,
    chipId: u32)
  {
    predicate Valid() { S.SequenceOk(manifest, addresses, bootloader, fwsec, booter) }

    function Sequence(): G.BootSequence
      requires Valid()
    {
      S.SequenceOf(manifest, addresses, bootloader, fwsec, booter, chipId)
    }

    function Phase(i: nat): G.PhasePlan
      requires Valid() && i < 12
    {
      S.PhaseOf(manifest, addresses, bootloader, fwsec, booter, chipId, i)
    }

    /** FRTS firmware on GSP, the booter on SEC2. */
    function Load(engine: Engine): L.HsParameters
    {
      if engine == Falcon.Gsp then S.FrtsLoad(addresses, fwsec) else S.Sec2Load(addresses, booter)
    }
  }

  /** The phase that loads an engine. */
  function LoadPhase(engine: Engine): nat { if engine == Falcon.Gsp then 2 else 7 }

  /** What an engine has been sent once `k` phases succeeded. */
  function Due(b: Boot, engine: Engine, k: nat): seq<Transfer>
  {
    if k > LoadPhase(engine) then Intended(b.Load(engine)) else []
  }

  // ---- Actions that leave an engine's DMA alone ----

  predicate Remote(base: u32, a: Action)
  {
    && (a.kind.Write32? || a.kind.MaskedWrite? ==> !DmaRegister(base, a.address))
    && (a.kind.StartCpuRespectAlias? ==> !DmaRegister(base, a.address) && !DmaRegister(base, a.address + 0x30))
  }

  predicate AllRemote(base: u32, actions: seq<Action>) { forall a <- actions :: Remote(base, a) }

  lemma RemoteDoesNothing(base: u32, log: Log, a: Action)
    requires Remote(base, a) && Does(base, log, [a])
    ensures Does(base, log, [])
  {
    hide Issue, SettleLog, LogTransfers, Settle, Transfers, Latch, IsCommand, DmaRegister;
    forall port: Port | port.Valid() ensures DoesOn(base, port, log, []) {
      assert DoesOn(base, port, log, [a]);
      FalconDma.One(base, port, a);
      OffPort(base, port, a);
      NoActions(base, port);
    }
  }

  lemma NothingTwice(base: u32, xs: Log, ys: Log)
    requires Does(base, xs, []) && Does(base, ys, [])
    ensures Does(base, xs + ys, [])
  {
    hide Does;
    var none: seq<Action> := [];
    DoesBoth(base, xs, ys, none, none);
    assert none + none == none;
  }

  lemma RemoteAction(base: u32, bar: Bar, budget: nat, st: State, a: Action)
    requires Remote(base, a) && !IsMarker(a)
    ensures var r := RunAction(bar, budget, st, a);
      st.log <= r.state.log && Does(base, Since(st, r.state), [])
  {
    hide Does, RunAction, DmaRegister;
    ActionDoes(base, bar, budget, st, a);
    var r := RunAction(bar, budget, st, a);
    if r.status == Success { RemoteDoesNothing(base, Since(st, r.state), a); }
  }

  /** Running a list of such actions, its blocks included, sends the engine nothing. */
  lemma {:induction false} RemoteList(base: u32, bar: Bar, budget: nat, st: State, skipping: bool, actions: seq<Action>)
    requires AllRemote(base, actions)
    ensures var r := Flat(Executor(bar, budget), st, skipping, actions);
      st.log <= r.state.log && Does(base, Since(st, r.state), [])
    decreases |actions|
  {
    hide Does, RunAction, Remote, And32, Flat, Dispatch;
    var m := Executor(bar, budget);
    if actions == [] {
      FlatEnd(m, st, skipping);
      assert Since(st, st) == [];
      QuietDoesNothing(base, []);
    } else {
      assert actions[0] in actions;
      RemoteDispatch(base, bar, budget, st, skipping, actions[0]);
      FlatAt(m, st, skipping, actions, 0);
      assert actions[0..] == actions;
      var d := Dispatch(m, st, skipping, actions[0]);
      if d.status == Success {
        RemoteList(base, bar, budget, d.state, d.skipping, actions[1..]);
        var end := Flat(m, d.state, d.skipping, actions[1..]).state;
        assert Since(st, end) == Since(st, d.state) + Since(d.state, end);
        NothingTwice(base, Since(st, d.state), Since(d.state, end));
      }
    }
  }

  lemma RemoteDispatch(base: u32, bar: Bar, budget: nat, st: State, skipping: bool, a: Action)
    requires Remote(base, a)
    ensures var d := Dispatch(Executor(bar, budget), st, skipping, a);
      st.log <= d.state.log && Does(base, Since(st, d.state), [])
  {
    hide Does, RunAction, Remote, And32;
    var d := Dispatch(Executor(bar, budget), st, skipping, a);
    if !skipping && !IsMarker(a) {
      RemoteAction(base, bar, budget, st, a);
    } else {
      QuietDoesNothing(base, Since(st, d.state));
    }
  }

  lemma RemoteRun(base: u32, bar: Bar, log: Log, budget: nat, actions: seq<Action>)
    requires Accepted(actions) && AllRemote(base, actions)
    ensures var r := FalconExec.Run(bar, log, budget, actions);
      log <= r.state.log && Does(base, r.state.log[|log|..], [])
  {
    hide Does, Accepted, RunProg, Flat, AllRemote;
    var st := State(log, 0, false, 0);
    AcceptedIsStructured(actions);
    FlatRefinesProg(Executor(bar, budget), st, Parse(actions));
    RemoteList(base, bar, budget, st, false, actions);
  }

  // ---- The phases of the plan ----

  /** A plan for one engine stays off the other's DMA registers. */
  predicate OnEngine(base: u32, a: Action) { base <= a.address < base + 0x2000 || a.kind.DelayMilliseconds? || a.kind.EndIf? }

  predicate AllOn(base: u32, actions: seq<Action>) { forall a <- actions :: OnEngine(base, a) }

  lemma OnJoin(base: u32, xs: seq<Action>, ys: seq<Action>)
    requires AllOn(base, xs) && AllOn(base, ys)
    ensures AllOn(base, xs + ys)
  {
  }

  function Other(engine: Engine): Engine { if engine == Falcon.Gsp then Falcon.Sec2 else Falcon.Gsp }

  lemma OnIsRemote(engine: Engine, actions: seq<Action>)
    requires AllOn(EngineBase(Other(engine)), actions)
    ensures AllRemote(EngineBase(engine), actions)
  {
    forall a | a in actions ensures Remote(EngineBase(engine), a) { FarApart(engine, a); }
  }

  lemma FarApart(engine: Engine, a: Action)
    requires OnEngine(EngineBase(Other(engine)), a)
    ensures Remote(EngineBase(engine), a)
  {
  }

  lemma {:induction false} BlocksOn(engine: Engine, dest: u32, memoryOffset: u32, command: u32, n: nat)
    requires n > 0 ==> dest + (n - 1) * L.TRANSFER <= MAX32 && memoryOffset + (n - 1) * L.TRANSFER <= MAX32
    ensures AllOn(EngineBase(engine), L.Blocks(EngineBase(engine), dest, memoryOffset, command, n))
  {
    if n > 0 {
      var base := EngineBase(engine);
      BlocksOn(engine, dest, memoryOffset, command, n - 1);
      OnJoin(base, L.Blocks(base, dest, memoryOffset, command, n - 1),
             L.Block(base, dest + (n - 1) * L.TRANSFER, memoryOffset + (n - 1) * L.TRANSFER, command));
    }
  }

  lemma DmaOn(engine: Engine, source: u64, dest: u32, memoryOffset: u32, bytes: u32, command: u32)
    requires L.DmaOk(source, dest, memoryOffset, bytes)
    ensures AllOn(EngineBase(engine), L.DmaActions(EngineBase(engine), source, dest, memoryOffset, bytes, command))
  {
    hide L.Blocks;
    var base := EngineBase(engine);
    BlocksOn(engine, dest, memoryOffset, command, bytes / L.TRANSFER);
    OnJoin(base, L.DmaPreamble(base, source), L.Blocks(base, dest, memoryOffset, command, bytes / L.TRANSFER));
    OnJoin(base, L.DmaPreamble(base, source) + L.Blocks(base, dest, memoryOffset, command, bytes / L.TRANSFER),
           [L.PollFor(base + L.DMACMD, 0x2, 0x2)]);
  }

  lemma EndsOn(p: L.HsParameters)
    ensures AllOn(EngineBase(p.engine), L.LoadSetup(EngineBase(p.engine)))
    ensures AllOn(EngineBase(p.engine), L.LoadFinish(p))
  {
  }

  lemma LoadOn(p: L.HsParameters)
    requires L.LoadValid(p)
    ensures AllOn(EngineBase(p.engine), L.LoadActions(p))
  {
    hide AllOn, L.DmaActions, L.LoadSetup, L.LoadFinish, L.DmaOk;
    var base := EngineBase(p.engine);
    EndsOn(p);
    DmaOn(p.engine, p.imagePhysicalAddress + p.codeOffset - p.imemVirtualBase, p.imemPhysicalBase, p.imemVirtualBase,
          p.imemBytes, L.IMEM_COMMAND);
    DmaOn(p.engine, p.imagePhysicalAddress + p.dataOffset - p.dmemVirtualBase, p.dmemPhysicalBase, p.dmemVirtualBase,
          p.dmemBytes, L.DMEM_COMMAND);
    OnJoin(base, L.LoadSetup(base), L.ImemLoad(p));
    OnJoin(base, L.LoadSetup(base) + L.ImemLoad(p), L.DmemLoad(p));
    OnJoin(base, L.LoadSetup(base) + L.ImemLoad(p) + L.DmemLoad(p), L.LoadFinish(p));
  }

  lemma ResetRemote(engine: Engine, target: Engine, bootRiscv: bool, chipId: u32)
    ensures AllRemote(EngineBase(engine), L.ResetActions(target, bootRiscv, chipId))
  {
  }

  lemma MailboxRemote(engine: Engine, low: u32, high: u32, version: u32)
    ensures AllRemote(EngineBase(engine), [Policy.FullWrite(Policy.GSP_MAILBOX0, low), Policy.FullWrite(Policy.GSP_MAILBOX1, high)])
    ensures AllRemote(EngineBase(engine), [Policy.FullWrite(Policy.GSP_FALCON_OS, version)])
  {
  }

  /** Every phase but an engine's own load leaves its DMA alone. */
  lemma PhaseRemote(b: Boot, engine: Engine, i: nat)
    requires b.Valid() && i < 12 && i != LoadPhase(engine)
    ensures AllRemote(EngineBase(engine), b.Phase(i).actions)
  {
    hide AllRemote, L.ResetActions, L.LoadActions, L.LoadValid;
    RemoteNothing(EngineBase(engine));
    MailboxRemote(engine, Policy.LowWord(b.addresses.libosInitArguments), Policy.HighWord(b.addresses.libosInitArguments),
                  b.bootloader.appVersion);
    ResetRemote(engine, Falcon.Gsp, false, b.chipId);
    ResetRemote(engine, Falcon.Gsp, true, b.chipId);
    ResetRemote(engine, Falcon.Sec2, false, b.chipId);
    LoadOn(b.Load(Other(engine)));
    OnIsRemote(engine, L.LoadActions(b.Load(Other(engine))));
  }

  lemma RemoteNothing(base: u32)
    ensures AllRemote(base, [])
  {
  }

  // ---- One phase ----

  lemma {:induction false} WritesQuiet(log: Log, more: Log)
    requires Writes(log + more) == Writes(log)
    ensures Quiet(more)
    decreases |more|
  {
    if more != [] {
      var init, e := more[..|more| - 1], more[|more| - 1];
      assert log + more == (log + init) + [e];
      Snoc(log + init, e);
      WritesGrow(log, init);
      WritesQuiet(log, init);
      forall i | 0 <= i < |more| ensures !more[i].Write? {
        if i < |init| { assert !init[i].Write?; }
      }
    }
  }

  lemma {:induction false} WritesGrow(log: Log, more: Log)
    ensures Writes(log) <= Writes(log + more)
    decreases |more|
  {
    if more == [] {
      assert log + more == log;
    } else {
      var init, e := more[..|more| - 1], more[|more| - 1];
      assert log + more == (log + init) + [e];
      Snoc(log + init, e);
      WritesGrow(log, init);
    }
  }

  lemma SameWrites(base: u32, log: Log, end: Log)
    requires log <= end && Writes(end) == Writes(log)
    ensures Does(base, end[|log|..], [])
  {
    hide Does;
    assert log + end[|log|..] == end;
    WritesQuiet(log, end[|log|..]);
    QuietDoesNothing(base, end[|log|..]);
  }

  lemma ChecksDoNothing(base: u32, bar: Bar, hasQueue: bool, log: Log, wait: nat, budget: nat, checks: seq<G.Check>)
    requires wait <= budget
    ensures var r := RunChecks(bar, hasQueue, log, wait, budget, checks);
      log <= r.log && Does(base, r.log[|log|..], [])
  {
    hide Does, RunChecks, Legal, Writes, SleepTotal;
    ChecksKeep(bar, hasQueue, State(log, wait, false, 0), budget, checks);
    SameWrites(base, log, RunChecks(bar, hasQueue, log, wait, budget, checks).log);
  }

  /** What one phase of the plan sends an engine: part of its load in its own load phase, all of it if the phase
      succeeds, and nothing in any other. */
  ghost predicate Sends(b: Boot, engine: Engine, i: nat, ok: bool, more: Log)
  {
    forall port: Port | port.Valid() && port.limit >= OFFSET_LIMIT :: SendsOn(b, engine, i, ok, more, port)
  }

  predicate SendsOn(b: Boot, engine: Engine, i: nat, ok: bool, more: Log, port: Port)
    requires port.Valid()
  {
    var t := LogTransfers(EngineBase(engine), port, more);
    if i == LoadPhase(engine) then t <= Intended(b.Load(engine)) && (ok ==> t == Intended(b.Load(engine)))
    else t == []
  }

  lemma QuietSends(b: Boot, engine: Engine, i: nat, more: Log)
    requires i != LoadPhase(engine) && Does(EngineBase(engine), more, [])
    ensures Sends(b, engine, i, true, more) && Sends(b, engine, i, false, more)
  {
    hide LogTransfers, Does;
    forall port: Port | port.Valid() && port.limit >= OFFSET_LIMIT
      ensures SendsOn(b, engine, i, true, more, port) && SendsOn(b, engine, i, false, more, port)
    {
      Apply(EngineBase(engine), port, more, []);
      NoActions(EngineBase(engine), port);
    }
  }

  lemma LoadSends(b: Boot, engine: Engine, bar: Bar, log: Log, budget: nat, ok: bool, rest: Log)
    requires b.Valid() && Accepted(L.LoadActions(b.Load(engine))) && Does(EngineBase(engine), rest, [])
    requires ok ==> FalconExec.Run(bar, log, budget, L.LoadActions(b.Load(engine))).status == Success
    ensures var acted := FalconExec.Run(bar, log, budget, L.LoadActions(b.Load(engine)));
      log <= acted.state.log && Sends(b, engine, LoadPhase(engine), ok, acted.state.log[|log|..] + rest)
  {
    hide LogTransfers, SettleLog, Does, Accepted, FalconExec.Run, Intended, L.LoadActions, L.LoadValid;
    var base, p := EngineBase(engine), b.Load(engine);
    var acted := FalconExec.Run(bar, log, budget, L.LoadActions(p));
    RunIsSafe(bar, log, budget, L.LoadActions(p));
    var more := acted.state.log[|log|..];
    forall port: Port | port.Valid() && port.limit >= OFFSET_LIMIT
      ensures SendsOn(b, engine, LoadPhase(engine), ok, more + rest, port)
    {
      RunTransfers(bar, log, budget, p, port);
      LogCompose(base, port, more, rest);
      Apply(base, SettleLog(base, port, more), rest, []);
      NoActions(base, SettleLog(base, port, more));
    }
  }

  lemma PhaseSends(b: Boot, engine: Engine, i: nat, bar: Bar, log: Log, c: Call)
    requires b.Valid() && i < 12 && c.budget > 0
    requires b.Phase(i).actions != [] ==> Accepted(b.Phase(i).actions)
    ensures var (run, started) := RunPhase(bar, log, c, b.Phase(i));
      log <= run.log && Sends(b, engine, i, run.status == Success, run.log[|log|..])
  {
    hide Does, RunChecks, FalconExec.Run, Accepted, Sends, AllRemote, Legal, Writes, SleepTotal;
    var phase := b.Phase(i);
    var acted := RunActions(bar, log, c.budget, phase.actions);
    var base := EngineBase(engine);
    if phase.actions != [] { RunIsSafe(bar, log, c.budget, phase.actions); }
    var (run, started) := RunPhase(bar, log, c, phase);
    var middle := acted.state.log;
    if acted.status == Success {
      ChecksDoNothing(base, bar, c.hasQueue, middle, acted.state.wait, c.budget, phase.checks);
    } else {
      QuietDoesNothing(base, middle[|middle|..]);
    }
    assert run.log[|log|..] == middle[|log|..] + run.log[|middle|..];
    if i == LoadPhase(engine) {
      LoadSends(b, engine, bar, log, c.budget, run.status == Success, run.log[|middle|..]);
    } else {
      PhaseRemote(b, engine, i);
      if phase.actions == [] {
        QuietDoesNothing(base, middle[|log|..]);
      } else {
        RemoteRun(base, bar, log, c.budget, phase.actions);
      }
      NothingTwice(base, middle[|log|..], run.log[|middle|..]);
      QuietSends(b, engine, i, run.log[|log|..]);
    }
  }

  // ---- Whole runs ----

  /** Every call of a run over this boot brings the planned sequence. */
  predicate Plays(b: Boot, inputs: seq<Input>)
    requires b.Valid()
  {
    forall i :: 0 <= i < |inputs| ==> inputs[i].Advance? ==> inputs[i].call.sequence == b.Sequence()
  }

  /** While a run can go on, and when it has succeeded, exactly what the phases done send was sent; at any time
      no more than the engine's load, in order. */
  predicate Sent(b: Boot, engine: Engine, port: Port, r: RunState)
    requires port.Valid()
  {
    var t := LogTransfers(EngineBase(engine), port, r.log);
    && t <= Intended(b.Load(engine))
    && (r.attempt.Runnable() || r.attempt.state.Succeeded? ==> t == Due(b, engine, r.attempt.nextPhaseIndex))
  }

  /** What a stretch of log adds to what was sent before. */
  lemma Adds(engine: Engine, port: Port, log: Log, end: Log)
    requires port.Valid() && log <= end
    ensures var base := EngineBase(engine);
      LogTransfers(base, port, end) ==
      LogTransfers(base, port, log) + LogTransfers(base, SettleLog(base, port, log), end[|log|..])
  {
    hide LogTransfers, SettleLog;
    assert end == log + end[|log|..];
    LogCompose(EngineBase(engine), port, log, end[|log|..]);
  }

  lemma NothingAdded(engine: Engine, port: Port, log: Log, end: Log)
    requires port.Valid() && log <= end && Writes(end) == Writes(log)
    ensures LogTransfers(EngineBase(engine), port, end) == LogTransfers(EngineBase(engine), port, log)
  {
    hide LogTransfers, SettleLog, Does, Writes;
    Adds(engine, port, log, end);
    SameWrites(EngineBase(engine), log, end);
    Apply(EngineBase(engine), SettleLog(EngineBase(engine), port, log), end[|log|..], []);
    NoActions(EngineBase(engine), SettleLog(EngineBase(engine), port, log));
  }

  lemma InvIndex(r: RunState)
    requires Inv(r)
    ensures r.attempt.Runnable() ==> r.attempt.nextPhaseIndex < 12
  {
  }

  /** The transfers after a phase, from those before it and what it sends. */
  lemma PhaseExtends(b: Boot, engine: Engine, port: Port, log: Log, end: Log, i: nat, ok: bool)
    requires port.Valid() && port.limit >= OFFSET_LIMIT && log <= end
    requires LogTransfers(EngineBase(engine), port, log) == Due(b, engine, i) && Sends(b, engine, i, ok, end[|log|..])
    ensures var t := LogTransfers(EngineBase(engine), port, end);
      t <= Intended(b.Load(engine)) && (ok ==> t == Due(b, engine, i + 1))
  {
    hide LogTransfers, SettleLog, Intended, S.FrtsLoad, S.Sec2Load;
    Adds(engine, port, log, end);
    assert SendsOn(b, engine, i, ok, end[|log|..], SettleLog(EngineBase(engine), port, log));
  }

  lemma SentStep(b: Boot, engine: Engine, port: Port, bar: Bar, r: RunState, input: Input)
    requires b.Valid() && port.Valid() && port.limit >= OFFSET_LIMIT
    requires input.Advance? ==> input.call.sequence == b.Sequence()
    requires Inv(r) && Sent(b, engine, port, r)
    ensures Sent(b, engine, port, After(bar, r, input))
  {
    hide LogTransfers, Intended, Inv, Due;
    match input
    case ResetChecked(p) =>
    case Advance(c) =>
      if Admitted(r.attempt, bar.size, c) {
        SentAdvance(b, engine, port, bar, r, c);
      }
  }

  lemma SentAdvance(b: Boot, engine: Engine, port: Port, bar: Bar, r: RunState, c: Call)
    requires b.Valid() && port.Valid() && port.limit >= OFFSET_LIMIT && c.sequence == b.Sequence()
    requires Inv(r) && Sent(b, engine, port, r) && Admitted(r.attempt, bar.size, c)
    ensures Sent(b, engine, port, After(bar, r, Advance(c)))
  {
    hide LogTransfers, Intended, Inv, Due, RunPhase, Sends, Writes, SleepTotal, Policy.SequenceAccepted, Policy.PhaseAccepted, Accepted;
    var i := r.attempt.nextPhaseIndex;
    InvIndex(r);
    AuditCovers(c, i);
    assert c.sequence.phases[i] == b.Phase(i);
    var phase := b.Phase(i);
    CallProgress(bar, r, c);
    if phase.actions == [] || c.writesEnabled {
      var o := NextPhase(bar, r.attempt, r.log, c);
      var (run, started) := RunPhase(bar, r.log, c, phase);
      if o.result.attemptUpdated {
        PhaseSends(b, engine, i, bar, r.log, c);
        PhaseExtends(b, engine, port, r.log, run.log, i, run.status == Success);
      } else {
        NothingAdded(engine, port, r.log, o.log);
      }
    }
  }

  lemma {:induction false} SentPlay(b: Boot, engine: Engine, port: Port, bar: Bar, r: RunState, inputs: seq<Input>)
    requires b.Valid() && port.Valid() && port.limit >= OFFSET_LIMIT && Plays(b, inputs)
    requires Inv(r) && Sent(b, engine, port, r)
    ensures Sent(b, engine, port, Play(bar, r, inputs))
    decreases |inputs|
  {
    hide Inv, Sent, After;
    if inputs != [] {
      StepKeeps(bar, r, inputs[0]);
      SentStep(b, engine, port, bar, r, inputs[0]);
      assert Plays(b, inputs[1..]) by {
        assert forall i :: 0 <= i < |inputs[1..]| ==> inputs[1..][i] == inputs[i + 1];
      }
      SentPlay(b, engine, port, bar, After(bar, r, inputs[0]), inputs[1..]);
    }
  }

  /** Over every run from a fresh attempt whose calls bring one planned sequence, on any device: a succeeded run
      has sent GSP exactly the FRTS firmware's transfers and SEC2 exactly the booter's, and no run, however it
      ends, has sent either engine anything but a first part of them. */
  lemma BootRunTransfers(b: Boot, engine: Engine, port: Port, bar: Bar, inputs: seq<Input>)
    requires b.Valid() && Plays(b, inputs) && port.Valid() && port.limit >= OFFSET_LIMIT
    ensures var r := Play(bar, RunState(FRESH, [], [], 0), inputs);
      var sent := LogTransfers(EngineBase(engine), port, r.log);
      && sent <= Intended(b.Load(engine))
      && (r.attempt.state.Succeeded? ==> sent == Intended(b.Load(engine)))
  {
    hide Intended;
    var start, r := RunState(FRESH, [], [], 0), Play(bar, RunState(FRESH, [], [], 0), inputs);
    FreshInv();
    PlayKeeps(bar, start, inputs);
    SentPlay(b, engine, port, bar, start, inputs);
  }

  /** So after a succeeded run each engine's memories hold its firmware, when VRAM holds the image where the plan
      has it, which is what a successful staging transaction establishes. */
  lemma BootRunLoadsFirmware(b: Boot, engine: Engine, port: Port, bar: Bar, inputs: seq<Input>, m: Memories, vram: seq<byte>,
                             image: seq<byte>, j: nat)
    requires b.Valid() && Plays(b, inputs) && port.Valid() && port.limit >= OFFSET_LIMIT
    requires Play(bar, RunState(FRESH, [], [], 0), inputs).attempt.state.Succeeded?
    requires var p := b.Load(engine);
      && p.imagePhysicalAddress + |image| <= |vram|
      && vram[p.imagePhysicalAddress..p.imagePhysicalAddress + |image|] == image
      && p.codeOffset + p.imemBytes <= |image| && p.dataOffset + p.dmemBytes <= |image|
    ensures var p, log := b.Load(engine), Play(bar, RunState(FRESH, [], [], 0), inputs).log;
      var after := PerformAll(m, ViewOf(vram), LogTransfers(EngineBase(engine), port, log));
      && (j < p.imemBytes ==> after.imem(p.imemPhysicalBase + j) == image[p.codeOffset + j])
      && (j < p.dmemBytes ==> after.dmem(p.dmemPhysicalBase + j) == image[p.dataOffset + j])
  {
    hide Intended, LogTransfers, PerformAll, Play, L.LoadValid;
    BootRunTransfers(b, engine, port, bar, inputs);
    ImageIsLoaded(b.Load(engine), m, vram, image, j);
  }
}
