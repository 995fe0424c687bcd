/** What a whole boot run leaves in the device log: phase after phase, the traces of the sequence's actions and
    checks; and what that says, by register numbers, of a planned boot that succeeded. */
module BootTrace {
  import opened Words
  import opened Wrappers
  import opened Falcon
  import opened FalconPolicy
  import opened FalconExec
  import opened FalconLog
  import opened ExecTrace
  import opened PlanTrace
  import opened Mmio
  import opened BootAttempts
  import opened BootPhaseExecutor
  import opened BootRun
  import T = BootTransfers
  import G = Gsp
  import FalconTrace
  import L = FalconPlan
  import S = SequencePlan
  import Policy = BootSequencePolicy

  /** What a phase leaves when it succeeds: its program's trace, then its checks'. */
  ghost predicate PhaseLeaves(phase: G.PhasePlan, log: Log)
  {
    exists k :: 0 <= k <= |log| && ProgLeaves(Parse(phase.actions), log[..k]) && ChecksLeave(phase.checks, log[k..])
  }

  /** The first `n` phases, each somewhere after the one before, with no write outside them. */
  ghost predicate PhasesLeave(phases: seq<G.PhasePlan>, n: nat, log: Log)
    requires n <= |phases|
  {
    if n == 0 then Quiet(log)
    else exists i, j :: 0 <= i <= j <= |log| && PhasesLeave(phases, n - 1, log[..i]) && PhaseLeaves(phases[n - 1], log[i..j])
                        && Quiet(log[j..])
  }

  lemma PhaseTrace(bar: Bar, log: Log, c: Call, phase: G.PhasePlan)
    requires phase.actions != [] ==> Accepted(phase.actions)
    requires RunPhase(bar, log, c, phase).0.status == Success
    ensures var run := RunPhase(bar, log, c, phase).0;
      log <= run.log && PhaseLeaves(phase, run.log[|log|..])
  {
    hide ProgLeaves, ChecksLeave, RunChecks, FalconExec.Run, Accepted;
    var acted, run := RunActions(bar, log, c.budget, phase.actions), RunPhase(bar, log, c, phase).0;
    if phase.actions == [] {
      NoActions();
      assert acted.state.log[|log|..] == [];
    } else {
      AcceptedRunLeaves(bar, log, c.budget, phase.actions);
    }
    ChecksTrace(bar, c.hasQueue, acted.state.log, acted.state.wait, c.budget, phase.checks);
    var k := |acted.state.log| - |log|;
    assert run.log[|log|..][..k] == acted.state.log[|log|..] && run.log[|log|..][k..] == run.log[|acted.state.log|..];
  }

  lemma NoActions()
    ensures ProgLeaves(Parse([]), [])
  {
  }

  lemma {:induction false} QuietTail(phases: seq<G.PhasePlan>, n: nat, log: Log, more: Log)
    requires n <= |phases| && PhasesLeave(phases, n, log) && Quiet(more)
    ensures PhasesLeave(phases, n, log + more)
  {
    hide PhaseLeaves;
    if n > 0 {
      var i, j :| 0 <= i <= j <= |log| && PhasesLeave(phases, n - 1, log[..i]) && PhaseLeaves(phases[n - 1], log[i..j])
                  && Quiet(log[j..]);
      var all := log + more;
      assert all[..i] == log[..i] && all[i..j] == log[i..j] && all[j..] == log[j..] + more;
    }
  }

  lemma PhaseAdded(phases: seq<G.PhasePlan>, n: nat, log: Log, more: Log)
    requires n < |phases| && PhasesLeave(phases, n, log) && PhaseLeaves(phases[n], more)
    ensures PhasesLeave(phases, n + 1, log + more)
  {
    hide PhaseLeaves;
    var all, i, j := log + more, |log|, |log + more|;
    assert all[..i] == log && all[i..j] == more && all[j..] == [];
  }

  /** While a run can go on, and when it has succeeded. */
  ghost predicate Traced(s: G.BootSequence, r: RunState)
  {
    r.attempt.Runnable() || r.attempt.state.Succeeded? ==>
      r.attempt.nextPhaseIndex <= |s.phases| && PhasesLeave(s.phases, r.attempt.nextPhaseIndex, r.log)
  }

  predicate Brings(s: G.BootSequence, inputs: seq<Input>)
  {
    forall i :: 0 <= i < |inputs| ==> inputs[i].Advance? ==> inputs[i].call.sequence == s
  }

  lemma TracedStep(s: G.BootSequence, bar: Bar, r: RunState, input: Input)
    requires Inv(r) && Traced(s, r) && (input.Advance? ==> input.call.sequence == s)
    ensures Traced(s, After(bar, r, input))
  {
    hide Inv, PhasesLeave;
    match input
    case ResetChecked(p) =>
    case Advance(c) =>
      if Admitted(r.attempt, bar.size, c) {
        TracedAdvance(s, bar, r, c);
      }
  }

  lemma TracedAdvance(s: G.BootSequence, bar: Bar, r: RunState, c: Call)
    requires Inv(r) && Traced(s, r) && c.sequence == s && Admitted(r.attempt, bar.size, c)
    ensures Traced(s, After(bar, r, Advance(c)))
  {
    hide Inv, PhasesLeave, RunPhase, Writes, SleepTotal, PhaseLeaves, Policy.SequenceAccepted, Accepted;
    var i := r.attempt.nextPhaseIndex;
    var phase, o := s.phases[i], NextPhase(bar, r.attempt, r.log, c);
    AuditCovers(c, i);
    CallProgress(bar, r, c);
    if !o.result.attemptUpdated {
      assert o.log == r.log + o.log[|r.log|..];
      T.WritesQuiet(r.log, o.log[|r.log|..]);
      QuietTail(s.phases, i, r.log, o.log[|r.log|..]);
    } else if o.result.checkPassed {
      PhaseTrace(bar, r.log, c, phase);
      assert o.log == r.log + o.log[|r.log|..];
      PhaseAdded(s.phases, i, r.log, o.log[|r.log|..]);
    }
  }

  lemma {:induction false} TracedPlay(s: G.BootSequence, bar: Bar, r: RunState, inputs: seq<Input>)
    requires Inv(r) && Traced(s, r) && Brings(s, inputs)
    ensures Traced(s, Play(bar, r, inputs))
    decreases |inputs|
  {
    hide Inv, Traced, After;
    if inputs != [] {
      TracedStep(s, bar, r, inputs[0]);
      StepKeeps(bar, r, inputs[0]);
      assert Brings(s, inputs[1..]) by { assert forall i :: 0 <= i < |inputs[1..]| ==> inputs[1..][i] == inputs[i + 1]; }
      TracedPlay(s, bar, After(bar, r, inputs[0]), inputs[1..]);
    }
  }

  /** Over every run from a fresh attempt whose calls bring one sequence, on any device: while it can go on, and
      when it has succeeded, the log is the traces of exactly the phases done, in order, and no other write. */
  lemma BootRunLeaves(s: G.BootSequence, bar: Bar, inputs: seq<Input>)
    requires Brings(s, inputs)
    ensures var r := Play(bar, RunState(FRESH, [], [], 0), inputs);
      && (r.attempt.Runnable() || r.attempt.state.Succeeded? ==>
            r.attempt.nextPhaseIndex <= |s.phases| && PhasesLeave(s.phases, r.attempt.nextPhaseIndex, r.log))
      && (r.attempt.state.Succeeded? ==> r.attempt.nextPhaseIndex == 12)
  {
    hide Play;
    FreshInv();
    PlayKeeps(bar, RunState(FRESH, [], [], 0), inputs);
    TracedPlay(s, bar, RunState(FRESH, [], [], 0), inputs);
  }

  // ---- Phases laid out in a log ----

  /** Where each phase stands, and that no write stands elsewhere. */
  ghost predicate Laid(phases: seq<G.PhasePlan>, n: nat, log: Log, lo: seq<nat>, hi: seq<nat>)
    requires n <= |phases|
  {
    && |lo| == n && |hi| == n
    && (forall i :: 0 <= i < n ==> lo[i] <= hi[i] <= |log| && PhaseLeaves(phases[i], log[lo[i]..hi[i]]))
    && (forall i, j :: 0 <= i < j < n ==> hi[i] <= lo[j])
    && (forall t :: 0 <= t < |log| && log[t].Write? ==> exists i :: 0 <= i < n && lo[i] <= t < hi[i])
  }

  lemma {:induction false} LayOut(phases: seq<G.PhasePlan>, n: nat, log: Log) returns (lo: seq<nat>, hi: seq<nat>)
    requires n <= |phases| && PhasesLeave(phases, n, log)
    ensures Laid(phases, n, log, lo, hi)
  {
    hide PhaseLeaves;
    if n == 0 {
      lo, hi := [], [];
    } else {
      var i, j :| 0 <= i <= j <= |log| && PhasesLeave(phases, n - 1, log[..i]) && PhaseLeaves(phases[n - 1], log[i..j])
                  && Quiet(log[j..]);
      var lo', hi' := LayOut(phases, n - 1, log[..i]);
      lo, hi := lo' + [i], hi' + [j];
      LaidAdded(phases, n - 1, log, lo', hi', i, j);
    }
  }

  lemma LaidAdded(phases: seq<G.PhasePlan>, n: nat, log: Log, lo: seq<nat>, hi: seq<nat>, i: nat, j: nat)
    requires n < |phases| && i <= j <= |log| && Laid(phases, n, log[..i], lo, hi)
    requires PhaseLeaves(phases[n], log[i..j]) && Quiet(log[j..])
    ensures Laid(phases, n + 1, log, lo + [i], hi + [j])
  {
    hide PhaseLeaves;
    var lo', hi' := lo + [i], hi + [j];
    forall m | 0 <= m < n + 1 ensures lo'[m] <= hi'[m] <= |log| && PhaseLeaves(phases[m], log[lo'[m]..hi'[m]]) {
      if m < n { assert log[..i][lo[m]..hi[m]] == log[lo[m]..hi[m]]; }
    }
    assert forall t :: j <= t < |log| ==> log[t] == log[j..][t - j];
    forall t | 0 <= t < |log| && log[t].Write? ensures exists m :: 0 <= m < n + 1 && lo'[m] <= t < hi'[m] {
      if t < i {
        assert log[..i][t] == log[t];
        var m :| 0 <= m < n && lo[m] <= t < hi[m];
        assert lo'[m] <= t < hi'[m];
      } else {
        assert lo'[n] <= t < hi'[n];
      }
    }
  }

  // ---- One phase at a time ----

  lemma ListQuiet(c: G.Check, log: Log)
    requires CheckLeaves(c, log)
    ensures Quiet(log) && |log| > 0 && SampleOf(c, log[|log| - 1]) && Demanded(c, log[|log| - 1].value)
  {
    hide Demanded;
    forall i | 0 <= i < |log| ensures !log[i].Write? {
      if i < |log| - 1 {
        var j := i / 2;
        assert SampleOf(c, log[2 * j]) && log[2 * j + 1] == Sleep(1);
      }
    }
  }

  /** A phase that only verifies. */
  lemma VerifyEnds(phase: G.PhasePlan, c: G.Check, log: Log)
    requires phase.actions == [] && phase.checks == [c] && PhaseLeaves(phase, log)
    ensures Quiet(log) && |log| > 0 && SampleOf(c, log[|log| - 1]) && Demanded(c, log[|log| - 1].value)
  {
    hide CheckLeaves, Quiet, Demanded;
    var k :| 0 <= k <= |log| && ProgLeaves(Parse(phase.actions), log[..k]) && ChecksLeave(phase.checks, log[k..]);
    assert k == 0 && log[0..] == log by { assert log[..k] == []; }
    var j :| 0 <= j <= |log| && CheckLeaves([c][0], log[..j]) && ChecksLeave([c][1..], log[j..]);
    assert [c][1..] == [] && log[j..] == [] && log[..j] == log;
    ListQuiet(c, log);
  }

  /** A phase that only acts. */
  lemma ActsOnly(phase: G.PhasePlan, log: Log)
    requires phase.checks == [] && PhaseLeaves(phase, log)
    ensures ProgLeaves(Parse(phase.actions), log)
  {
    hide ProgLeaves;
    var k :| 0 <= k <= |log| && ProgLeaves(Parse(phase.actions), log[..k]) && ChecksLeave(phase.checks, log[k..]);
    assert log[k..] == [] && log[..k] == log;
  }

  // ---- The phases of a planned boot ----

  predicate Inside(base: nat, address: nat) { base <= address < base + 0x2000 }

  /** The registers of the engine at `base`. */
  ghost function Window(base: nat): iset<nat> { iset x: nat | Inside(base, x) }

  /** Where the writes of a phase may go. */
  ghost function Region(i: nat): iset<nat>
  {
    match i
    case 1 => Window(0x11_0000)
    case 2 => Window(0x11_0000)
    case 4 => Window(0x11_0000)
    case 5 => iset{0x11_0040, 0x11_0044}
    case 6 => Window(0x84_0000)
    case 7 => Window(0x84_0000)
    case 9 => iset{0x11_0080}
    case _ => iset{}
  }

  lemma LoadPlain(p: L.HsParameters)
    requires L.LoadValid(p)
    ensures forall a <- L.LoadActions(p) :: !IsMarker(a)
  {
    hide L.LoadActions, L.DmaOk;
    FalconTrace.LoadDirect(p);
  }

  lemma LoadTarget(p: L.HsParameters)
    requires L.LoadValid(p)
    ensures AllTarget(L.LoadActions(p), Window(EngineBase(p.engine)))
  {
    hide L.DmaActions, L.DmaOk, L.LoadSetup, L.LoadFinish, AllTarget, Targets;
    var base, middle, w := EngineBase(p.engine), L.ImemLoad(p) + L.DmemLoad(p), Window(EngineBase(p.engine));
    MiddleTarget(p);
    Wider(middle, DmaRegisters(base), w);
    EndsTarget(p);
    TargetsJoin(middle, L.LoadFinish(p), w);
    TargetsJoin(L.LoadSetup(base), middle + L.LoadFinish(p), w);
    assert L.LoadActions(p) == L.LoadSetup(base) + (middle + L.LoadFinish(p));
  }

  lemma Wider(actions: seq<Action>, inner: iset<nat>, outer: iset<nat>)
    requires AllTarget(actions, inner) && inner <= outer
    ensures AllTarget(actions, outer)
  {
    hide Targets;
  }

  lemma EndsTarget(p: L.HsParameters)
    ensures var w := Window(EngineBase(p.engine));
      AllTarget(L.LoadSetup(EngineBase(p.engine)), w) && AllTarget(L.LoadFinish(p), w)
  {
  }

  lemma ResetTarget(engine: Engine, bootRiscv: bool, chipId: u32)
    ensures AllTarget(L.ResetActions(engine, bootRiscv, chipId), Window(EngineBase(engine)))
  {
  }

  lemma LoadWrites(p: L.HsParameters, log: Log)
    requires L.LoadValid(p) && ProgLeaves(Parse(L.LoadActions(p)), log)
    ensures ListLeaves(L.LoadActions(p), log) && WritesIn(log, Window(EngineBase(p.engine)))
  {
    hide L.LoadActions, L.LoadValid, AllTarget, ListLeaves, ProgLeaves, Window;
    LoadPlain(p);
    PlainProg(L.LoadActions(p), log);
    LoadTarget(p);
    ListTargets(L.LoadActions(p), log, Window(EngineBase(p.engine)));
  }

  lemma ResetWrites(engine: Engine, bootRiscv: bool, chipId: u32, log: Log)
    requires ProgLeaves(Parse(L.ResetActions(engine, bootRiscv, chipId)), log)
    ensures WritesIn(log, Window(EngineBase(engine)))
  {
    hide L.ResetActions, AllTarget, ProgLeaves, Accepted, Window;
    S.ResetAccepted(engine, bootRiscv, chipId);
    AcceptedIsStructured(L.ResetActions(engine, bootRiscv, chipId));
    ResetTarget(engine, bootRiscv, chipId);
    ProgTargets(Parse(L.ResetActions(engine, bootRiscv, chipId)), log, Window(EngineBase(engine)));
  }

  /** The two libOS mailbox words, and the version that releases the core. */
  lemma MailboxLeaves(libos: u64, log: Log)
    requires ProgLeaves(Parse([Policy.FullWrite(Policy.GSP_MAILBOX0, Policy.LowWord(libos)),
                               Policy.FullWrite(Policy.GSP_MAILBOX1, Policy.HighWord(libos))]), log)
    ensures |log| == 4 && log[0].Write? && log[0].address == 0x11_0040 && ReadOf(log[1], 0x11_0040)
    ensures log[2].Write? && log[2].address == 0x11_0044 && ReadOf(log[3], 0x11_0044)
    ensures log[0].value + 0x1_0000_0000 * log[2].value == libos
  {
    hide From;
    var low, high := Policy.FullWrite(0x11_0040, Policy.LowWord(libos)), Policy.FullWrite(0x11_0044, Policy.HighWord(libos));
    PlainProg([low, high], log);
    assert [low, high] == [low] + [high] && [high] == [high] + [] && log[0..] == log;
    assert From([low, high], log, 0) by { FromStart([low, high], log); }
    PutNext(0x11_0040, low.value, MAX32, [high], log, 0);
    PutNext(0x11_0044, high.value, MAX32, [], log, 2);
    AtEnd(log, 4);
  }

  lemma FromStart(actions: seq<Action>, log: Log)
    requires ListLeaves(actions, log)
    ensures From(actions, log, 0)
  {
    assert log[0..] == log;
  }

  lemma ReleaseLeaves(version: u32, log: Log)
    requires ProgLeaves(Parse([Policy.FullWrite(Policy.GSP_FALCON_OS, version)]), log)
    ensures |log| == 2 && log[0] == Write(0x11_0080, version, false) && ReadOf(log[1], 0x11_0080)
  {
    hide From;
    var one := [Policy.FullWrite(0x11_0080, version)];
    PlainProg(one, log);
    FromStart(one, log);
    assert one == one + [];
    PutNext(0x11_0080, version, MAX32, [], log, 0);
    AtEnd(log, 2);
  }

  lemma PhaseWrites(b: T.Boot, i: nat, log: Log)
    requires b.Valid() && i < 12 && PhaseLeaves(b.Phase(i), log)
    ensures WritesIn(log, Region(i))
  {
    hide L.LoadActions, L.ResetActions, L.LoadValid, ProgLeaves, PhaseLeaves, Window, Parse;
    match i
    case 0 => NoPhase(b.Phase(0), log);
    case 1 => ActsOnly(b.Phase(1), log); ResetWrites(Falcon.Gsp, false, b.chipId, log);
    case 2 => ActsOnly(b.Phase(2), log); LoadWrites(b.Load(Falcon.Gsp), log);
    case 4 => ActsOnly(b.Phase(4), log); ResetWrites(Falcon.Gsp, true, b.chipId, log);
    case 5 => ActsOnly(b.Phase(5), log); MailboxLeaves(b.addresses.libosInitArguments, log);
    case 6 => ActsOnly(b.Phase(6), log); ResetWrites(Falcon.Sec2, false, b.chipId, log);
    case 7 => ActsOnly(b.Phase(7), log); LoadWrites(b.Load(Falcon.Sec2), log);
    case 9 => ActsOnly(b.Phase(9), log); ReleaseLeaves(b.bootloader.appVersion, log);
    case _ => VerifyEnds(b.Phase(i), b.Phase(i).checks[0], log);
  }

  lemma NoPhase(phase: G.PhasePlan, log: Log)
    requires phase.actions == [] && phase.checks == [] && PhaseLeaves(phase, log)
    ensures log == []
  {
    var k :| 0 <= k <= |log| && ProgLeaves(Parse(phase.actions), log[..k]) && ChecksLeave(phase.checks, log[k..]);
    assert log == log[..k] + log[k..];
  }

  // ---- A planned boot that succeeded ----

  ghost predicate LaidBoot(b: T.Boot, log: Log, lo: seq<nat>, hi: seq<nat>)
    requires b.Valid()
  {
    && |lo| == 12 && |hi| == 12
    && (forall i :: 0 <= i < 12 ==> lo[i] <= hi[i] <= |log| && PhaseLeaves(b.Phase(i), log[lo[i]..hi[i]]))
    && (forall i, j :: 0 <= i < j < 12 ==> hi[i] <= lo[j])
    && (forall t :: 0 <= t < |log| && log[t].Write? ==> exists i :: 0 <= i < 12 && lo[i] <= t < hi[i])
  }

  lemma LayOutBoot(b: T.Boot, bar: Bar, inputs: seq<Input>) returns (lo: seq<nat>, hi: seq<nat>)
    requires b.Valid() && T.Plays(b, inputs) && Play(bar, RunState(FRESH, [], [], 0), inputs).attempt.state.Succeeded?
    ensures LaidBoot(b, Play(bar, RunState(FRESH, [], [], 0), inputs).log, lo, hi)
  {
    hide Play, PhaseLeaves, PhasesLeave, L.LoadValid, S.PhaseOf;
    BootRunLeaves(b.Sequence(), bar, inputs);
    var log := Play(bar, RunState(FRESH, [], [], 0), inputs).log;
    lo, hi := LayOut(b.Sequence().phases, 12, log);
  }

  /** Which phase a write belongs to, by its register. */
  lemma WriteFound(b: T.Boot, log: Log, lo: seq<nat>, hi: seq<nat>, t: nat) returns (i: nat)
    requires b.Valid() && LaidBoot(b, log, lo, hi) && t < |log| && log[t].Write?
    ensures i < 12 && lo[i] <= t < hi[i] && log[t].address in Region(i)
  {
    hide PhaseLeaves, Region, L.LoadValid;
    i :| 0 <= i < 12 && lo[i] <= t < hi[i];
    PhaseWrites(b, i, log[lo[i]..hi[i]]);
    assert log[lo[i]..hi[i]][t - lo[i]] == log[t];
  }

  /** The last event of a phase that only verifies. */
  lemma Verified(b: T.Boot, log: Log, lo: seq<nat>, hi: seq<nat>, i: nat)
    requires b.Valid() && LaidBoot(b, log, lo, hi) && i in {3, 8, 10, 11}
    ensures lo[i] < hi[i] && |b.Phase(i).checks| == 1
    ensures SampleOf(b.Phase(i).checks[0], log[hi[i] - 1]) && Demanded(b.Phase(i).checks[0], log[hi[i] - 1].value)
    ensures forall t :: lo[i] <= t < hi[i] ==> !log[t].Write?
  {
    hide PhaseLeaves, Demanded, SampleOf, L.LoadValid, L.LoadActions, L.ResetActions;
    var part, c := log[lo[i]..hi[i]], b.Phase(i).checks[0];
    assert b.Phase(i).actions == [] && b.Phase(i).checks == [c];
    VerifyEnds(b.Phase(i), c, part);
    assert part[|part| - 1] == log[hi[i] - 1];
    assert forall t :: lo[i] <= t < hi[i] ==> log[t] == part[t - lo[i]];
    SampleHasValue(c, log[hi[i] - 1]);
  }

  lemma SampleHasValue(c: G.Check, e: Mmio.Event)
    requires SampleOf(c, e)
    ensures e.Read? || e.SharedRead?
  {
  }

  lemma NonZero(value: u32)
    requires exists i :: 0 <= i < 32 && Bit(value, i) && Bit(MAX32, i)
    ensures value != 0
  {
    var i :| 0 <= i < 32 && Bit(value, i) && Bit(MAX32, i);
    ZeroHasNoBits(i);
  }

  lemma BitSevenSeen(value: u32)
    requires Matches(value, 0x80, 0x80)
    ensures value / 128 % 2 == 1
  {
    assert Pow2(7) == 128;
    BitIs(value, 7);
    BitIs(0x80, 7);
  }

  /** A run of one planned sequence that succeeded has, in this order, read WPR2_HI as nonzero, SEC2's first
      mailbox as zero, the RISC-V core as active, and the status queue's entry offset as 0x1000. */
  lemma BootRunVerifies(b: T.Boot, bar: Bar, inputs: seq<Input>) returns (w: nat, x: nat, y: nat, z: nat)
    requires b.Valid() && T.Plays(b, inputs) && Play(bar, RunState(FRESH, [], [], 0), inputs).attempt.state.Succeeded?
    ensures var log := Play(bar, RunState(FRESH, [], [], 0), inputs).log;
      && w < x < y < z < |log|
      && ReadOf(log[w], 0x1F_A828) && log[w].value != 0
      && log[x] == Read(0x84_0040, 0)
      && ReadOf(log[y], 0x11_1388) && log[y].value / 128 % 2 == 1
      && log[z] == SharedRead((b.manifest.queues.statusQueueOffset + 28) % 0x1_0000_0000_0000_0000, 0x1000)
  {
    hide Play, LaidBoot;
    var log := Play(bar, RunState(FRESH, [], [], 0), inputs).log;
    var lo, hi := LayOutBoot(b, bar, inputs);
    w, x, y, z := VerifiesLaid(b, log, lo, hi);
  }

  lemma VerifiesLaid(b: T.Boot, log: Log, lo: seq<nat>, hi: seq<nat>) returns (w: nat, x: nat, y: nat, z: nat)
    requires b.Valid() && LaidBoot(b, log, lo, hi)
    ensures |hi| == 12 && w + 1 == hi[3] && x + 1 == hi[8] && y + 1 == hi[10] && z + 1 == hi[11]
    ensures
      && w < x < y < z < |log|
      && ReadOf(log[w], 0x1F_A828) && log[w].value != 0
      && log[x] == Read(0x84_0040, 0)
      && ReadOf(log[y], 0x11_1388) && log[y].value / 128 % 2 == 1
      && log[z] == SharedRead((b.manifest.queues.statusQueueOffset + 28) % 0x1_0000_0000_0000_0000, 0x1000)
  {
    hide PhaseLeaves, Matches, Bit, L.LoadValid, L.LoadActions, L.ResetActions;
    Verified(b, log, lo, hi, 3);
    Verified(b, log, lo, hi, 8);
    Verified(b, log, lo, hi, 10);
    Verified(b, log, lo, hi, 11);
    w, x, y, z := hi[3] - 1, hi[8] - 1, hi[10] - 1, hi[11] - 1;
    NonZero(log[w].value);
    FullMatch(log[x].value, 0);
    BitSevenSeen(log[y].value);
    FullMatch(log[z].value, 0x1000);
  }

  // ---- What the engines were given ----

  lemma LastShift(log: Log, lo: nat, hi: nat, n: nat, address: nat)
    requires lo + n <= hi <= |log| && Last(log[lo..hi][..n], address).Some?
    ensures Last(log[..lo + n], address) == Last(log[lo..hi][..n], address)
  {
    assert log[..lo + n] == log[..lo] + log[lo..hi][..n];
    LastJoin(log[..lo], log[lo..hi][..n], address);
  }

  lemma StartsShift(base: u32, log: Log, lo: nat, hi: nat, n: nat)
    requires lo <= hi <= |log| && StartsAt(base, log[lo..hi], n)
    ensures StartsAt(base, log, lo + n)
  {
    hide Merges;
    var part := log[lo..hi];
    assert part[n] == log[lo + n] && part[n - 1] == log[lo + n - 1];
    if n > 1 { assert part[n - 2] == log[lo + n - 2]; }
  }

  lemma ProgrammedShift(p: L.HsParameters, log: Log, lo: nat, hi: nat, n: nat)
    requires lo + n <= hi <= |log| && Programmed(p, log[lo..hi][..n])
    ensures Programmed(p, log[..lo + n])
  {
    hide Last;
    var base := EngineBase(p.engine);
    LastShift(log, lo, hi, n, base + 0x1210);
    LastShift(log, lo, hi, n, base + 0x119C);
    LastShift(log, lo, hi, n, base + 0x1198);
    LastShift(log, lo, hi, n, base + 0x104);
    if p.mailbox.Some? {
      LastShift(log, lo, hi, n, base + 0x40);
      LastShift(log, lo, hi, n, base + 0x44);
    }
  }

  /** An engine's load in a laid-out boot: where its CPU is started, and what the engine holds by then. */
  lemma LoadLaid(b: T.Boot, engine: Engine, log: Log, lo: seq<nat>, hi: seq<nat>) returns (s: nat)
    requires b.Valid() && LaidBoot(b, log, lo, hi)
    ensures var i := T.LoadPhase(engine);
      && lo[i] <= s < hi[i] && StartsAt(EngineBase(engine), log, s) && Programmed(b.Load(engine), log[..s])
      && forall t :: s < t < hi[i] ==> !log[t].Write?
  {
    hide PhaseLeaves, L.LoadValid, L.LoadActions, L.ResetActions, Programmed, StartsAt, ProgLeaves, ListLeaves, SetupLeaves, Parse;
    var i, p := T.LoadPhase(engine), b.Load(engine);
    var part := log[lo[i]..hi[i]];
    assert b.Phase(i).actions == L.LoadActions(p) && b.Phase(i).checks == [] && L.LoadValid(p);
    ActsOnly(b.Phase(i), part);
    LoadWrites(p, part);
    var n := LoadPrograms(p, part);
    InPart(EngineBase(engine), part, n);
    s := lo[i] + n;
    assert forall t :: s < t < hi[i] ==> log[t] == part[n + 1..][t - s - 1];
    StartsShift(EngineBase(engine), log, lo[i], hi[i], n);
    ProgrammedShift(p, log, lo[i], hi[i], n);
  }

  lemma InPart(base: u32, log: Log, n: nat)
    requires StartsAt(base, log, n)
    ensures n < |log|
  {
  }

  /** A value given in phase `k` is still the last one at a later place, when no later phase reaches the register. */
  lemma StillLast(b: T.Boot, log: Log, lo: seq<nat>, hi: seq<nat>, k: nat, t: nat, y: nat, address: nat)
    requires b.Valid() && LaidBoot(b, log, lo, hi) && k < 12 && lo[k] <= t < hi[k] && t < y <= |log|
    requires log[t].Write? && log[t].address == address
    requires forall u :: t < u < hi[k] && log[u].Write? ==> log[u].address != address
    requires forall i :: k < i < 12 ==> address !in Region(i)
    ensures Last(log[..y], address) == Some(log[t].value)
  {
    hide PhaseLeaves, Region, L.LoadValid;
    var part := log[..y];
    var after := part[t + 1..];
    forall j | 0 <= j < |after| && after[j].Write? ensures after[j].address != address {
      var u := t + 1 + j;
      assert after[j] == log[u];
      var i := WriteFound(b, log, lo, hi, u);
    }
    LastAt(part, t, address);
  }

  /** The libOS mailbox and the release of the core in a laid-out boot. */
  lemma ReleaseLaid(b: T.Boot, log: Log, lo: seq<nat>, hi: seq<nat>, y: nat)
    requires b.Valid() && LaidBoot(b, log, lo, hi) && hi[9] <= y <= |log|
    ensures Joined(log[..y], 0x11_0040, 0x11_0044, b.addresses.libosInitArguments)
    ensures Last(log[..y], 0x11_0080) == Some(b.bootloader.appVersion)
  {
    hide PhaseLeaves, L.LoadValid, L.LoadActions, L.ResetActions, ProgLeaves, Parse, Last;
    var five, nine := log[lo[5]..hi[5]], log[lo[9]..hi[9]];
    ActsOnly(b.Phase(5), five);
    MailboxLeaves(b.addresses.libosInitArguments, five);
    ActsOnly(b.Phase(9), nine);
    ReleaseLeaves(b.bootloader.appVersion, nine);
    assert forall j :: 0 <= j < 4 ==> log[lo[5] + j] == five[j];
    assert forall j :: 0 <= j < 2 ==> log[lo[9] + j] == nine[j];
    StillLast(b, log, lo, hi, 5, lo[5], y, 0x11_0040);
    StillLast(b, log, lo, hi, 5, lo[5] + 2, y, 0x11_0044);
    StillLast(b, log, lo, hi, 9, lo[9], y, 0x11_0080);
  }

  /** What SEC2 and GSP hold when each is started, by register number. */
  ghost predicate GspStarted(b: T.Boot, log: Log, g: nat)
  {
    && StartsAt(0x11_0000, log, g)
    && Last(log[..g], 0x11_1210) == Some(b.fwsec.pkcDataOffset) && Last(log[..g], 0x11_119C) == Some(b.fwsec.engineIdMask)
    && Last(log[..g], 0x11_1198) == Some(b.fwsec.ucodeId) && Last(log[..g], 0x11_0104) == Some(b.fwsec.imemVirtBase)
  }

  ghost predicate Sec2Started(b: T.Boot, log: Log, c: nat)
  {
    && StartsAt(0x84_0000, log, c)
    && Last(log[..c], 0x84_1210) == Some(0x10) && Last(log[..c], 0x84_119C) == Some(1)
    && Last(log[..c], 0x84_1198) == Some(3) && Last(log[..c], 0x84_0104) == Some(b.booter.codeOffset)
    && Joined(log[..c], 0x84_0040, 0x84_0044, b.addresses.wprMetadata)
  }

  lemma StartedLaid(b: T.Boot, log: Log, lo: seq<nat>, hi: seq<nat>) returns (g: nat, c: nat)
    requires b.Valid() && LaidBoot(b, log, lo, hi)
    ensures lo[2] <= g < hi[2] && GspStarted(b, log, g) && forall t :: g < t < hi[2] ==> !log[t].Write?
    ensures lo[7] <= c < hi[7] && Sec2Started(b, log, c) && forall t :: c < t < hi[7] ==> !log[t].Write?
  {
    hide LaidBoot, StartsAt, L.LoadValid, Last;
    g := LoadLaid(b, Falcon.Gsp, log, lo, hi);
    c := LoadLaid(b, Falcon.Sec2, log, lo, hi);
    CutsThere(b, log, lo, hi);
    InPart(0x11_0000, log, g);
    InPart(0x84_0000, log, c);
  }

  lemma CutsThere(b: T.Boot, log: Log, lo: seq<nat>, hi: seq<nat>)
    requires b.Valid() && LaidBoot(b, log, lo, hi)
    ensures |lo| == 12 && |hi| == 12
    ensures hi[2] <= lo[3] && hi[3] <= lo[7] && hi[7] <= lo[8] && hi[9] <= lo[10]
  {
    hide PhaseLeaves, L.LoadValid;
  }

  /** After SEC2 is started only the version that releases the GSP core is written. */
  lemma NothingAfter(b: T.Boot, log: Log, lo: seq<nat>, hi: seq<nat>, c: nat, t: nat)
    requires b.Valid() && LaidBoot(b, log, lo, hi) && lo[7] <= c < t < |log|
    requires forall u :: c < u < hi[7] ==> !log[u].Write?
    ensures log[t].Write? ==> log[t].address == 0x11_0080
  {
    hide PhaseLeaves, L.LoadValid;
    if log[t].Write? {
      var i := WriteFound(b, log, lo, hi, t);
      assert i > 7;
    }
  }

  /** In a run of one planned sequence that succeeded: GSP is started with the FRTS firmware's parameters before
      WPR2 is verified; SEC2 is then started with the booter's, its two mailbox words joining to the WPR
      metadata's address, and before its result is verified; nothing is written after that but the version that
      releases the core; and when the core is verified the two GSP mailbox words join to the libOS arguments'
      address. */
  lemma BootRunPrograms(b: T.Boot, bar: Bar, inputs: seq<Input>) returns (g: nat, w: nat, c: nat, x: nat, y: nat)
    requires b.Valid() && T.Plays(b, inputs) && Play(bar, RunState(FRESH, [], [], 0), inputs).attempt.state.Succeeded?
    ensures var log := Play(bar, RunState(FRESH, [], [], 0), inputs).log;
      && g < w < c < x < y < |log|
      && GspStarted(b, log, g) && (forall t :: g < t < w ==> !log[t].Write?)
      && ReadOf(log[w], 0x1F_A828) && log[w].value != 0
      && Sec2Started(b, log, c) && (forall t :: c < t < |log| && log[t].Write? ==> log[t].address == 0x11_0080)
      && log[x] == Read(0x84_0040, 0)
      && ReadOf(log[y], 0x11_1388) && log[y].value / 128 % 2 == 1
      && Joined(log[..y], 0x11_0040, 0x11_0044, b.addresses.libosInitArguments)
      && Last(log[..y], 0x11_0080) == Some(b.bootloader.appVersion)
  {
    hide Play, LaidBoot, GspStarted, Sec2Started, Joined, Last;
    var log := Play(bar, RunState(FRESH, [], [], 0), inputs).log;
    var lo, hi := LayOutBoot(b, bar, inputs);
    g, w, c, x, y := ProgramsLaid(b, log, lo, hi);
  }

  lemma ProgramsLaid(b: T.Boot, log: Log, lo: seq<nat>, hi: seq<nat>) returns (g: nat, w: nat, c: nat, x: nat, y: nat)
    requires b.Valid() && LaidBoot(b, log, lo, hi)
    ensures
      && g < w < c < x < y < |log|
      && GspStarted(b, log, g) && (forall t :: g < t < w ==> !log[t].Write?)
      && ReadOf(log[w], 0x1F_A828) && log[w].value != 0
      && Sec2Started(b, log, c) && (forall t :: c < t < |log| && log[t].Write? ==> log[t].address == 0x11_0080)
      && log[x] == Read(0x84_0040, 0)
      && ReadOf(log[y], 0x11_1388) && log[y].value / 128 % 2 == 1
      && Joined(log[..y], 0x11_0040, 0x11_0044, b.addresses.libosInitArguments)
      && Last(log[..y], 0x11_0080) == Some(b.bootloader.appVersion)
  {
    hide LaidBoot, GspStarted, Sec2Started, Joined, Last, L.LoadValid, StartsAt, SampleOf, Demanded;
    var z;
    w, x, y, z := VerifiesLaid(b, log, lo, hi);
    g, c := StartedLaid(b, log, lo, hi);
    CutsThere(b, log, lo, hi);
    Verified(b, log, lo, hi, 3);
    Verified(b, log, lo, hi, 8);
    Verified(b, log, lo, hi, 10);
    ReleaseLaid(b, log, lo, hi, y);
    forall t | c < t < |log| && log[t].Write? ensures log[t].address == 0x11_0080 { NothingAfter(b, log, lo, hi, c, t); }
    forall t | g < t < w ensures !log[t].Write? { NothingBetween(b, log, lo, hi, t); }
  }

  /** Between the two phases' parts, and in the verifying one, nothing is written. */
  lemma NothingBetween(b: T.Boot, log: Log, lo: seq<nat>, hi: seq<nat>, t: nat)
    requires b.Valid() && LaidBoot(b, log, lo, hi) && lo[2] <= t < hi[3]
    ensures log[t].Write? ==> t < hi[2]
  {
    hide PhaseLeaves, L.LoadValid;
    if log[t].Write? {
      var i := WriteFound(b, log, lo, hi, t);
    }
  }

  /** A whole reset: the pulse, then the core selected. */
  ghost predicate ResetLeaves(base: u32, bootRiscv: bool, chipId: u32, log: Log)
    requires base <= 0x0084_0000
  {
    exists p, q :: ResetPulse(base, log, p) && if bootRiscv then RiscvSelected(base, log, p) else FalconSelected(base, chipId, log, p, q)
  }

  lemma ResetThere(base: u32, bootRiscv: bool, chipId: u32, log: Log, p: nat, q: nat)
    requires base <= 0x0084_0000 && ResetPulse(base, log, p)
    requires if bootRiscv then RiscvSelected(base, log, p) else FalconSelected(base, chipId, log, p, q)
    ensures ResetLeaves(base, bootRiscv, chipId, log)
  {
    hide ResetPulse, RiscvSelected, FalconSelected;
  }

  lemma ResetLaid(b: T.Boot, log: Log, lo: seq<nat>, hi: seq<nat>, i: nat)
    requires b.Valid() && LaidBoot(b, log, lo, hi) && i in {1, 4, 6}
    ensures ResetLeaves(if i == 6 then 0x84_0000 else 0x11_0000, i == 4, b.chipId, log[lo[i]..hi[i]])
  {
    hide PhaseLeaves, L.LoadValid, L.LoadActions, L.ResetActions, ProgLeaves, Parse, ResetPulse, RiscvSelected, FalconSelected, ResetLeaves;
    var part := log[lo[i]..hi[i]];
    var engine := if i == 6 then Falcon.Sec2 else Falcon.Gsp;
    assert b.Phase(i).actions == L.ResetActions(engine, i == 4, b.chipId) && b.Phase(i).checks == [];
    ActsOnly(b.Phase(i), part);
    var p, q := ResetTrace(engine, i == 4, b.chipId, part);
    ResetThere(EngineBase(engine), i == 4, b.chipId, part, p, q);
  }

  /** In a run of one planned sequence that succeeded the engines were reset, each before it was started, and GSP
      once more for RISC-V between the two starts. */
  lemma BootRunResets(b: T.Boot, bar: Bar, inputs: seq<Input>) returns (lo: seq<nat>, hi: seq<nat>, g: nat, c: nat)
    requires b.Valid() && T.Plays(b, inputs) && Play(bar, RunState(FRESH, [], [], 0), inputs).attempt.state.Succeeded?
    ensures var log := Play(bar, RunState(FRESH, [], [], 0), inputs).log;
      && |lo| == 3 && |hi| == 3
      && lo[0] <= hi[0] <= g < lo[1] <= hi[1] <= lo[2] <= hi[2] <= c < |log|
      && ResetLeaves(0x11_0000, false, b.chipId, log[lo[0]..hi[0]]) && StartsAt(0x11_0000, log, g)
      && ResetLeaves(0x11_0000, true, b.chipId, log[lo[1]..hi[1]])
      && ResetLeaves(0x84_0000, false, b.chipId, log[lo[2]..hi[2]]) && StartsAt(0x84_0000, log, c)
  {
    hide Play, LaidBoot, ResetLeaves, StartsAt;
    var log := Play(bar, RunState(FRESH, [], [], 0), inputs).log;
    var at, end := LayOutBoot(b, bar, inputs);
    ResetLaid(b, log, at, end, 1);
    ResetLaid(b, log, at, end, 4);
    ResetLaid(b, log, at, end, 6);
    g, c := StartedLaid(b, log, at, end);
    ResetsInOrder(b, log, at, end);
    lo, hi := [at[1], at[4], at[6]], [end[1], end[4], end[6]];
  }

  lemma ResetsInOrder(b: T.Boot, log: Log, lo: seq<nat>, hi: seq<nat>)
    requires b.Valid() && LaidBoot(b, log, lo, hi)
    ensures |lo| == 12 && |hi| == 12
    ensures lo[1] <= hi[1] <= lo[2] && hi[2] <= lo[4] <= hi[4] <= lo[6] <= hi[6] <= lo[7] && hi[7] <= |log|
  {
    hide PhaseLeaves, L.LoadValid;
  }
}
