/** Safety of whole boot runs: any number of calls, each with its own sequence, gate and budget,
    against any device. */
module BootRun {
  import opened Words
  import opened Falcon
  import opened FalconPolicy
  import opened FalconExec
  import opened Gsp
  import opened Mmio
  import opened BootAttempts
  import opened BootPhaseExecutor
  import Policy = BootSequencePolicy

  datatype Input = Advance(call: Call) | ResetChecked(postcheck: Postcheck)

  /** A run so far: the attempt, the device log since it began, the phases recorded as successes
      and the number of calls that changed the attempt. */
  datatype RunState = RunState(attempt: Attempt, log: Log, done: seq<BootPhase>, updates: nat)

  const FRESH: Attempt := Attempt(Ready, NO_RECOVERY, 0, false)

  function After(bar: Bar, r: RunState, input: Input): RunState
  {
    match input
    case Advance(c) =>
      var o := NextPhase(bar, r.attempt, r.log, c);
      RunState(o.attempt, o.log,
               if o.result.attemptUpdated && o.result.checkPassed then r.done + [o.result.phase] else r.done,
               r.updates + if o.result.attemptUpdated then 1 else 0)
    case ResetChecked(p) => r.(attempt := PostcheckRecorded(r.attempt, p).attempt)
  }

  function Play(bar: Bar, r: RunState, inputs: seq<Input>): RunState
    decreases |inputs|
  {
    if inputs == [] then r else Play(bar, After(bar, r, inputs[0]), inputs[1..])
  }

  // ---- One call ----

  lemma SampleKeeps(bar: Bar, hasQueue: bool, budget: nat, st: State, c: Check)
    ensures Keeps(budget, st, st.(log := Sample(bar, hasQueue, st.log, c).log))
  {
    hide Legal, Writes, SleepTotal;
    var r := Sample(bar, hasQueue, st.log, c);
    if r.log != st.log {
      QuietEvent(budget, st, r.log[|st.log|]);
    }
  }

  lemma QuietEvent(budget: nat, st: State, e: Mmio.Event)
    requires !e.Write? && !e.Sleep?
    ensures Keeps(budget, st, st.(log := st.log + [e]))
  {
    Snoc(st.log, e);
    if Legal(st.log) { LegalSnoc(st.log, e); }
  }

  lemma {:induction false} AwaitKeeps(bar: Bar, hasQueue: bool, st: State, c: Check, budget: nat, waited: nat)
    requires waited <= budget && waited <= st.wait
    ensures var r := Await(bar, hasQueue, st.log, c, budget, waited);
      && waited <= r.wait <= budget
      && Keeps(st.wait + budget - waited, st, st.(log := r.log, wait := st.wait - waited + r.wait))
    decreases budget - waited
  {
    hide Legal, Writes, SleepTotal, CheckSatisfied, Sample;
    var limit := st.wait + budget - waited;
    var r := Sample(bar, hasQueue, st.log, c);
    var seen := st.(log := r.log);
    SampleKeeps(bar, hasQueue, limit, st, c);
    if r.status == Success && !CheckSatisfied(c, r.value) && waited < budget {
      SleepKeeps(limit, seen, 1);
      var slept := seen.(log := seen.log + [Sleep(1)], wait := seen.wait + 1);
      AwaitKeeps(bar, hasQueue, slept, c, budget, waited + 1);
      var end := Await(bar, hasQueue, slept.log, c, budget, waited + 1);
      KeepsTrans(limit, st, slept, slept.(log := end.log, wait := slept.wait - waited - 1 + end.wait));
    }
  }

  lemma {:induction false} ChecksKeep(bar: Bar, hasQueue: bool, st: State, budget: nat, checks: seq<Check>)
    requires st.wait <= budget
    ensures var r := RunChecks(bar, hasQueue, st.log, st.wait, budget, checks);
      Keeps(budget, st, st.(log := r.log, wait := r.wait))
    decreases |checks|
  {
    hide Legal, Writes, SleepTotal, Await, CheckSatisfied;
    if checks != [] && st.wait < budget {
      var r := RunCheck(bar, hasQueue, st.log, checks[0], budget - st.wait);
      var moved := st.(log := r.log, wait := st.wait + r.wait);
      if !checks[0].kind.HostPreparationRequired? {
        AwaitKeeps(bar, hasQueue, st, checks[0], budget - st.wait, 0);
      }
      if r.status == Success {
        ChecksKeep(bar, hasQueue, moved, budget, checks[1..]);
        var end := RunChecks(bar, hasQueue, moved.log, moved.wait, budget, checks[1..]);
        KeepsTrans(budget, st, moved, st.(log := end.log, wait := end.wait));
      }
    }
  }

  /** A phase runs within its budget, writes only legal values, and reports a write exactly when
      one was made. */
  lemma PhaseKeeps(bar: Bar, log: Log, c: Call, phase: PhasePlan)
    requires phase.actions != [] ==> Accepted(phase.actions)
    ensures var (run, started) := RunPhase(bar, log, c, phase);
      && log <= run.log
      && run.wait == SleepTotal(run.log) - SleepTotal(log) <= c.budget
      && Writes(log) <= Writes(run.log)
      && (started <==> Writes(log) < Writes(run.log))
      && (Legal(log) ==> Legal(run.log))
      && (phase.actions == [] ==> !started)
  {
    hide Legal, Writes, SleepTotal, RunChecks, Run;
    var acted := RunActions(bar, log, c.budget, phase.actions);
    if phase.actions != [] {
      RunIsSafe(bar, log, c.budget, phase.actions);
    }
    if acted.status == Success {
      ChecksKeep(bar, c.hasQueue, acted.state, c.budget, phase.checks);
    }
  }

  // ---- The invariant ----

  predicate Reset(s: AttemptState) { s.FailedNeedsGpuReset? || s.ResetRecovered? || s.Unrecovered? }

  /** What every run from a fresh attempt keeps. */
  ghost predicate Inv(r: RunState)
  {
    var a := r.attempt;
    && Legal(r.log)
    && a.nextPhaseIndex <= 12
    && r.done == Policy.EXPECTED_PHASES[..a.nextPhaseIndex]
    && r.updates == a.nextPhaseIndex + (if a.Runnable() || a.state.Succeeded? then 0 else 1)
    && (Writes(r.log) > 0 <==> a.crossed)
    && (a.Runnable() || a.state.Succeeded? || a.state.FailedColdReversible? || Reset(a.state))
    && (a.Runnable() || a.state.Succeeded? ==> (a.crossed <==> a.nextPhaseIndex >= 2))
    && (a.Runnable() ==> a.nextPhaseIndex < 12)
    && (a.state.Succeeded? ==> a.nextPhaseIndex == 12)
    && (a.state.FailedColdReversible? ==> !a.crossed && a.recovery.Reversible())
    && (Reset(a.state) ==> a.crossed && a.recovery.Pinned())
    && (a.nextPhaseIndex == 12 ==> a.state.Succeeded?)
  }

  lemma FreshInv()
    ensures Inv(RunState(FRESH, [], [], 0))
  {
  }

  /** The branch that overrides a recovery after the reset commit is never taken: once the first
      reset has been crossed, the failed phase alone already demands a full reset. */
  lemma OverrideIsDead(r: RunState, c: Call, started: bool)
    requires Inv(r) && r.attempt.Runnable()
    requires Policy.SequenceAccepted(c.manifest, c.sequence, c.expectations)
    ensures var phase := c.sequence.phases[r.attempt.nextPhaseIndex].phase;
      r.attempt.crossed || (phase.ResetGspForFrts? && started) ==>
        RecoveryForBootFailure(phase, started).fullGpuResetRequired
  {
    var i := r.attempt.nextPhaseIndex;
    assert Policy.PhaseAccepted(c.manifest, c.expectations, c.sequence.phases[i], Policy.EXPECTED_PHASES[i]);
    if i == 0 {
    } else if i == 1 {
    } else {
      LatePhasesReset(i, started);
    }
  }

  lemma LatePhasesReset(i: nat, started: bool)
    requires 2 <= i < 12
    ensures RecoveryForBootFailure(Policy.EXPECTED_PHASES[i], started) == FULL_RESET
    ensures !Policy.EXPECTED_PHASES[i].ResetGspForFrts?
  {
  }

  /** The attempt-side half of one step, with the phase's outcome abstracted to what it reported. */
  lemma RecordKeeps(r: RunState, c: Call, log: Log, ok: bool, started: bool)
    requires Inv(r) && r.attempt.Runnable()
    requires Policy.SequenceAccepted(c.manifest, c.sequence, c.expectations)
    requires Legal(log)
    requires Writes(r.log) <= Writes(log) && (started <==> Writes(r.log) < Writes(log))
    requires c.sequence.phases[r.attempt.nextPhaseIndex].actions == [] ==> !started
    ensures var i := r.attempt.nextPhaseIndex;
      var e := Recorded(r.attempt, c.sequence, i, ok, started);
      Inv(RunState(e.attempt, log,
                   if e.status == Ok && ok then r.done + [c.sequence.phases[i].phase] else r.done,
                   r.updates + if e.status == Ok then 1 else 0))
  {
    hide Legal, Writes;
    var i := r.attempt.nextPhaseIndex;
    AuditCovers(c, i);
    OverrideIsDead(r, c, started);
    assert Policy.EXPECTED_PHASES[..i + 1] == Policy.EXPECTED_PHASES[..i] + [Policy.EXPECTED_PHASES[i]];
    ExpectedShapes(c, i);
    if i >= 2 { LatePhasesReset(i, started); }
  }

  /** Where the phases that matter to recovery stand in an accepted sequence. */
  lemma ExpectedShapes(c: Call, i: nat)
    requires Policy.SequenceAccepted(c.manifest, c.sequence, c.expectations) && i < 12
    ensures |c.sequence.phases| == 12 && c.sequence.valid
    ensures c.sequence.phases[i].phase == Policy.EXPECTED_PHASES[i]
    ensures i == 0 ==> c.sequence.phases[i].phase.PrefillBootstrapRpcRecords? && c.sequence.phases[i].actions == []
    ensures c.sequence.phases[i].phase.ResetGspForFrts? <==> i == 1
    ensures i == 1 ==> c.sequence.phases[i].actions != []
  {
    AuditCovers(c, i);
    if i > 1 { LatePhasesReset(i, true); }
  }

  lemma StepKeeps(bar: Bar, r: RunState, input: Input)
    requires Inv(r)
    ensures Inv(After(bar, r, input))
  {
    match input
    case ResetChecked(p) =>
    case Advance(c) =>
      if Admitted(r.attempt, bar.size, c) {
        AdvanceKeeps(bar, r, c);
      }
  }

  lemma AdvanceKeeps(bar: Bar, r: RunState, c: Call)
    requires Inv(r) && Admitted(r.attempt, bar.size, c)
    ensures Inv(After(bar, r, Advance(c)))
  {
    hide Inv, RunPhase, Recorded, Legal, Writes;
    var i := r.attempt.nextPhaseIndex;
    var phase := c.sequence.phases[i];
    AuditCovers(c, i);
    if phase.actions == [] || c.writesEnabled {
      var (run, started) := RunPhase(bar, r.log, c, phase);
      PhaseKeeps(bar, r.log, c, phase);
      InvLegal(r);
      RecordKeeps(r, c, run.log, run.status == Success, started);
    }
  }

  lemma InvLegal(r: RunState)
    requires Inv(r)
    ensures Legal(r.log)
  {
  }

  /** The invariant holds after every run. */
  lemma {:induction false} PlayKeeps(bar: Bar, r: RunState, inputs: seq<Input>)
    requires Inv(r)
    ensures Inv(Play(bar, r, inputs))
    decreases |inputs|
  {
    hide Inv, After;
    if inputs != [] {
      StepKeeps(bar, r, inputs[0]);
      PlayKeeps(bar, After(bar, r, inputs[0]), inputs[1..]);
    }
  }

  // ---- The main statements ----

  /** Over every run from a fresh attempt: a cold-reversible failure means no register was ever
      written; any write means the commit was crossed, and then a failure owes a full reset with
      its buffers pinned; success means the twelve phases were each recorded once, in order. */
  lemma BootRunSafety(bar: Bar, inputs: seq<Input>)
    ensures var r := Play(bar, RunState(FRESH, [], [], 0), inputs);
      var a := r.attempt;
      && (a.state.FailedColdReversible? ==>
            (forall i :: 0 <= i < |r.log| ==> !r.log[i].Write?) && a.recovery.Reversible())
      && ((exists i :: 0 <= i < |r.log| && r.log[i].Write?) <==> a.crossed)
      && (a.crossed && !a.Runnable() && !a.state.Succeeded? ==> a.recovery.Pinned() && Reset(a.state))
      && (a.state.Succeeded? ==> r.done == Policy.EXPECTED_PHASES && a.crossed)
      && r.done <= Policy.EXPECTED_PHASES
      && r.updates <= 12
      && Legal(r.log)
  {
    var start := RunState(FRESH, [], [], 0);
    FreshInv();
    PlayKeeps(bar, start, inputs);
    var r := Play(bar, start, inputs);
    WritesCounts(r.log);
    assert Policy.EXPECTED_PHASES[..12] == Policy.EXPECTED_PHASES;
  }

  /** How many more recorded results an attempt can take. */
  function Remaining(a: Attempt): nat
    requires a.nextPhaseIndex <= 12
  {
    if a.Runnable() then 13 - a.nextPhaseIndex else 0
  }

  /** Progress and cost of one call: it sleeps exactly what it reports, never more than its budget,
      and either leaves the attempt alone or uses up one of the results it had left. */
  lemma CallProgress(bar: Bar, r: RunState, c: Call)
    requires Inv(r)
    ensures var o := NextPhase(bar, r.attempt, r.log, c);
      && r.log <= o.log
      && o.result.waitMilliseconds == SleepTotal(o.log) - SleepTotal(r.log)
      && (c.budget > 0 ==> o.result.waitMilliseconds <= c.budget)
      && o.attempt.nextPhaseIndex <= 12
      && (o.result.attemptUpdated ==> Remaining(o.attempt) < Remaining(r.attempt))
      && (!o.result.attemptUpdated ==> o.attempt == r.attempt && Writes(o.log) == Writes(r.log))
      && (!c.writesEnabled ==> Writes(o.log) == Writes(r.log))
  {
    hide Legal, Writes, SleepTotal, RunPhase;
    if Admitted(r.attempt, bar.size, c) {
      var i := r.attempt.nextPhaseIndex;
      AuditCovers(c, i);
      PhaseKeeps(bar, r.log, c, c.sequence.phases[i]);
      ExpectedShapes(c, i);
    }
  }

  /** What one call comes to. One that is not admitted, or would write without the gate, changes nothing. Any other is
      recorded, unless its actions all passed without writing, which leaves the attempt as it was; and what is recorded
      follows from whether it passed, where it stood and whether it wrote. */
  lemma CallDecides(bar: Bar, r: RunState, c: Call)
    requires Inv(r)
    ensures var o, i := NextPhase(bar, r.attempt, r.log, c), r.attempt.nextPhaseIndex;
      var wrote, q := Writes(o.log) > Writes(r.log), o.result;
      var admitted :=
        && (r.attempt.state == Ready || r.attempt.state == Running) && c.hasBar0 && bar.size > 0 && c.budget > 0
        && Policy.SequenceAccepted(c.manifest, c.sequence, c.expectations) && i < |c.sequence.phases|;
      && q.phaseIndex == i
      && if !admitted || (c.sequence.phases[i].actions != [] && !c.writesEnabled) then
           && q.status == NotPermitted && !q.attemptUpdated && !q.checkPassed && !q.hardwareActionsStarted
           && q.waitMilliseconds == 0 && o.attempt == r.attempt && o.log == r.log
         else
           && q.hardwareActionsStarted == wrote && q.phase == Policy.EXPECTED_PHASES[i]
           && if q.checkPassed && c.sequence.phases[i].actions != [] && !wrote then
                q.status == NotPermitted && !q.attemptUpdated && o.attempt == r.attempt
              else
                && q.attemptUpdated && (q.status == Success <==> q.checkPassed)
                && if q.checkPassed then
                     o.attempt.nextPhaseIndex == i + 1 && o.attempt.state == if i == 11 then Succeeded else Running
                   else
                     && o.attempt.nextPhaseIndex == i
                     && o.attempt.state == if i >= 2 || wrote then FailedNeedsGpuReset else FailedColdReversible
  {
    hide Legal, Writes, SleepTotal, RunPhase, Policy.SequenceAccepted, Policy.PhaseAccepted;
    var i := r.attempt.nextPhaseIndex;
    if Admitted(r.attempt, bar.size, c) {
      AuditCovers(c, i);
      PhaseKeeps(bar, r.log, c, c.sequence.phases[i]);
      ExpectedShapes(c, i);
      if i >= 2 { LatePhasesReset(i, false); LatePhasesReset(i, true); }
    }
  }

  // ---- After a failure ----

  predicate Closed(s: AttemptState) { s.ResetRecovered? || s.Unrecovered? }

  /** A postcheck's verdict is final. */
  lemma {:induction false} VerdictStays(bar: Bar, r: RunState, inputs: seq<Input>)
    requires Closed(r.attempt.state)
    ensures Play(bar, r, inputs).attempt == r.attempt
    decreases |inputs|
  {
    hide RunPhase, Recorded, Policy.SequenceAccepted;
    if inputs != [] { VerdictStays(bar, After(bar, r, inputs[0]), inputs[1..]); }
  }

  predicate Verdict(inputs: seq<Input>, clears: bool)
  {
    exists i :: 0 <= i < |inputs| && inputs[i].ResetChecked? && inputs[i].postcheck.Clears() == clears
  }

  lemma VerdictLater(inputs: seq<Input>, clears: bool)
    requires inputs != [] && Verdict(inputs[1..], clears)
    ensures Verdict(inputs, clears)
  {
    var i :| 0 <= i < |inputs[1..]| && inputs[1..][i].ResetChecked? && inputs[1..][i].postcheck.Clears() == clears;
    assert inputs[i + 1] == inputs[1..][i];
  }

  /** A run ends recovered only through a postcheck that clears it, and unrecovered only through one that does not. */
  lemma {:induction false} VerdictNeedsPostcheck(bar: Bar, r: RunState, inputs: seq<Input>)
    requires Inv(r) && !Closed(r.attempt.state)
    ensures var s := Play(bar, r, inputs).attempt.state;
      && (s.ResetRecovered? ==> Verdict(inputs, true))
      && (s.Unrecovered? ==> Verdict(inputs, false))
    decreases |inputs|
  {
    hide Inv, NextPhase, Verdict;
    if inputs != [] {
      var next := After(bar, r, inputs[0]);
      StepKeeps(bar, r, inputs[0]);
      if inputs[0].Advance? { AdvanceLeavesOpen(bar, r, inputs[0].call); }
      if Closed(next.attempt.state) {
        VerdictStays(bar, next, inputs[1..]);
        assert Verdict(inputs, inputs[0].postcheck.Clears()) by { FirstVerdict(inputs); }
      } else {
        VerdictNeedsPostcheck(bar, next, inputs[1..]);
        if Play(bar, next, inputs[1..]).attempt.state.ResetRecovered? { VerdictLater(inputs, true); }
        if Play(bar, next, inputs[1..]).attempt.state.Unrecovered? { VerdictLater(inputs, false); }
      }
    }
  }

  lemma FirstVerdict(inputs: seq<Input>)
    requires inputs != [] && inputs[0].ResetChecked?
    ensures Verdict(inputs, inputs[0].postcheck.Clears())
  {
  }

  lemma AdvanceLeavesOpen(bar: Bar, r: RunState, c: Call)
    requires !Closed(r.attempt.state)
    ensures !Closed(NextPhase(bar, r.attempt, r.log, c).attempt.state)
  {
    hide RunPhase, Policy.SequenceAccepted, Policy.PhaseAccepted;
    if Admitted(r.attempt, bar.size, c) { AuditCovers(c, r.attempt.nextPhaseIndex); }
  }
}
