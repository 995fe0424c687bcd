/** Executes the next phase of an attempt: its actions, then its checks, within one wait budget. */
module BootPhaseExecutor {
  import opened Words
  import opened Falcon
  import opened FalconPolicy
  import opened FalconExec
  import opened FalconLog
  import opened Gsp
  import opened Mmio
  import opened BootAttempts
  import Policy = BootSequencePolicy

  predicate CheckSatisfied(c: Check, value: u32)
  {
    match c.kind
    case MmioMaskEqual => And32(value, c.mask) == c.value
    case SharedMemoryU32Equal => And32(value, c.mask) == c.value
    case MmioNonZero => And32(value, c.mask) != 0
    case HostPreparationRequired => false
  }

  /** One reading of what a check looks at: shared queue memory or a BAR0 register. */
  function Sample(bar: Bar, hasQueue: bool, log: Log, c: Check): ReadResult
  {
    if c.kind.SharedMemoryU32Equal? then
      if !hasQueue then ReadResult(BadArgument, 0, log)
      else match bar.env.shared(log, c.addressOrOffset)
        case SharedValue(v) => ReadResult(Success, v, log + [SharedRead(c.addressOrOffset, v)])
        case SharedFailure(status) =>
          ReadResult(if status == Success then Error else status, 0, log + [Refused(c.addressOrOffset)])
    else if c.addressOrOffset % 4 != 0 || c.addressOrOffset > bar.size || 4 > bar.size - c.addressOrOffset then
      ReadResult(BadArgument, 0, log)
    else ReadRegister(bar, log, c.addressOrOffset)
  }

  datatype CheckRun = CheckRun(status: Status, wait: nat, log: Log)

  /** Samples once a millisecond until the check holds or the remaining budget is spent. */
  function Await(bar: Bar, hasQueue: bool, log: Log, c: Check, budget: nat, waited: nat): CheckRun
    requires waited <= budget
    decreases budget - waited
  {
    var r := Sample(bar, hasQueue, log, c);
    if r.status != Success then CheckRun(r.status, waited, r.log)
    else if CheckSatisfied(c, r.value) then CheckRun(Success, waited, r.log)
    else if waited >= budget then CheckRun(Timeout, waited, r.log)
    else Await(bar, hasQueue, r.log + [Sleep(1)], c, budget, waited + 1)
  }

  // ---- What a check leaves in the log ----

  /** A reading of what the check looks at. */
  predicate SampleOf(c: Check, e: Mmio.Event)
  {
    if c.kind.SharedMemoryU32Equal? then e.SharedRead? && e.offset == c.addressOrOffset else ReadOf(e, c.addressOrOffset)
  }

  /** What a check demands of the value it reads, bit by bit. */
  ghost predicate Demanded(c: Check, value: u32)
  {
    match c.kind
    case MmioMaskEqual => Matches(value, c.mask, c.value)
    case SharedMemoryU32Equal => Matches(value, c.mask, c.value)
    case MmioNonZero => exists i :: 0 <= i < 32 && Bit(value, i) && Bit(c.mask, i)
    case HostPreparationRequired => false
  }

  /** A check that passed: readings that miss, each followed by a millisecond's sleep, then one that is as demanded. */
  ghost predicate CheckLeaves(c: Check, log: Log)
  {
    && |log| % 2 == 1 && CheckMissed(c, log, |log| / 2)
    && SampleOf(c, log[|log| - 1]) && Demanded(c, log[|log| - 1].value)
  }

  ghost predicate CheckMissed(c: Check, log: Log, n: nat)
  {
    && |log| >= 2 * n
    && forall j :: 0 <= j < n ==> SampleOf(c, log[2 * j]) && !Demanded(c, log[2 * j].value) && log[2 * j + 1] == Sleep(1)
  }

  /** How a check may end within `limit` sleeps: passed, given up after all of them, or refused by the device. */
  ghost predicate CheckEnds(c: Check, log: Log, status: Status, waited: nat, limit: nat)
  {
    && waited <= limit && CheckMissed(c, log, waited) && |log| <= 2 * waited + 1
    && if status == Success then |log| == 2 * waited + 1 && CheckLeaves(c, log)
       else if |log| == 2 * waited then true
       else if SampleOf(c, log[2 * waited]) then status == Timeout && waited == limit && !Demanded(c, log[2 * waited].value)
       else log[2 * waited] == Refused(c.addressOrOffset)
  }

  ghost predicate ChecksLeave(checks: seq<Check>, log: Log)
    decreases |checks|
  {
    if checks == [] then log == []
    else exists k :: 0 <= k <= |log| && CheckLeaves(checks[0], log[..k]) && ChecksLeave(checks[1..], log[k..])
  }

  /** The executor's test is the bitwise one. */
  lemma SatisfiedIs(c: Check, value: u32)
    ensures CheckSatisfied(c, value) <==> Demanded(c, value)
  {
    hide Bit;
    MatchesIs(value, c.mask, c.value);
    if c.kind.MmioNonZero? {
      forall i | 0 <= i < 32 ensures Bit(And32(value, c.mask), i) == (Bit(value, i) && Bit(c.mask, i)) && !Bit(0, i) {
        BitwiseAt(And, 32, value, c.mask, i);
        ZeroHasNoBits(i);
      }
      if And32(value, c.mask) == 0 {
      } else if !Demanded(c, value) {
        Equal32(And32(value, c.mask), 0);
      }
    }
  }

  lemma {:induction false} AwaitTrace(bar: Bar, hasQueue: bool, log: Log, c: Check, budget: nat, waited: nat)
    requires waited <= budget && !c.kind.HostPreparationRequired?
    ensures var r := Await(bar, hasQueue, log, c, budget, waited);
      && log <= r.log && waited <= r.wait <= budget
      && CheckEnds(c, r.log[|log|..], r.status, r.wait - waited, budget - waited)
    decreases budget - waited
  {
    hide CheckSatisfied, Demanded, CheckEnds;
    var s, r := Sample(bar, hasQueue, log, c), Await(bar, hasQueue, log, c, budget, waited);
    SatisfiedIs(c, s.value);
    if s.status == Success && !CheckSatisfied(c, s.value) && waited < budget {
      AwaitTrace(bar, hasQueue, s.log + [Sleep(1)], c, budget, waited + 1);
      assert r.log[|log|..] == [s.log[|log|], Sleep(1)] + r.log[|s.log| + 1..];
      CheckLater(c, s.log[|log|], r.log[|s.log| + 1..], r.status, r.wait - waited - 1, budget - waited - 1);
    } else {
      CheckNow(c, r.log[|log|..], r.status, budget - waited);
    }
  }

  lemma CheckNow(c: Check, log: Log, status: Status, limit: nat)
    requires |log| <= 1
    requires if status == Success then |log| == 1 && SampleOf(c, log[0]) && Demanded(c, log[0].value)
             else |log| == 0 || log[0] == Refused(c.addressOrOffset)
                  || (SampleOf(c, log[0]) && status == Timeout && limit == 0 && !Demanded(c, log[0].value))
    ensures CheckEnds(c, log, status, 0, limit)
  {
    hide Demanded;
  }

  lemma CheckLater(c: Check, first: Mmio.Event, rest: Log, status: Status, waited: nat, limit: nat)
    requires SampleOf(c, first) && !Demanded(c, first.value) && CheckEnds(c, rest, status, waited, limit)
    ensures CheckEnds(c, [first, Sleep(1)] + rest, status, waited + 1, limit + 1)
  {
    hide Demanded;
    var log := [first, Sleep(1)] + rest;
    forall j | 0 <= j < waited + 1
      ensures SampleOf(c, log[2 * j]) && !Demanded(c, log[2 * j].value) && log[2 * j + 1] == Sleep(1)
    {
      if j > 0 { assert log[2 * j] == rest[2 * (j - 1)] && log[2 * j + 1] == rest[2 * (j - 1) + 1]; }
    }
    assert |rest| == 2 * waited + 1 ==> log[2 * (waited + 1)] == rest[2 * waited];
  }

  function RunCheck(bar: Bar, hasQueue: bool, log: Log, c: Check, budget: nat): CheckRun
  {
    if budget == 0 then CheckRun(BadArgument, 0, log)
    else if c.kind.HostPreparationRequired? then CheckRun(NotPermitted, 0, log)
    else Await(bar, hasQueue, log, c, budget, 0)
  }

  function RunChecks(bar: Bar, hasQueue: bool, log: Log, wait: nat, budget: nat, checks: seq<Check>): CheckRun
    decreases |checks|
  {
    if checks == [] then CheckRun(Success, wait, log)
    else if wait >= budget then CheckRun(Timeout, wait, log)
    else
      var r := RunCheck(bar, hasQueue, log, checks[0], budget - wait);
      if r.status != Success then r.(wait := wait + r.wait)
      else RunChecks(bar, hasQueue, r.log, wait + r.wait, budget, checks[1..])
  }

  lemma CheckTrace(bar: Bar, hasQueue: bool, log: Log, c: Check, budget: nat)
    ensures var r := RunCheck(bar, hasQueue, log, c, budget);
      log <= r.log && CheckEnds(c, r.log[|log|..], r.status, r.wait, budget)
  {
    hide CheckEnds, Await;
    if budget == 0 || c.kind.HostPreparationRequired? {
      assert log[|log|..] == [];
      CheckNow(c, [], RunCheck(bar, hasQueue, log, c, budget).status, budget);
    } else {
      AwaitTrace(bar, hasQueue, log, c, budget, 0);
    }
  }

  /** Checks that all passed left their traces one after the other. */
  lemma {:induction false} ChecksTrace(bar: Bar, hasQueue: bool, log: Log, wait: nat, budget: nat, checks: seq<Check>)
    requires RunChecks(bar, hasQueue, log, wait, budget, checks).status == Success
    ensures var r := RunChecks(bar, hasQueue, log, wait, budget, checks);
      log <= r.log && ChecksLeave(checks, r.log[|log|..])
    decreases |checks|
  {
    hide CheckMissed, CheckLeaves, RunCheck;
    if checks != [] {
      var r, all := RunCheck(bar, hasQueue, log, checks[0], budget - wait), RunChecks(bar, hasQueue, log, wait, budget, checks);
      CheckTrace(bar, hasQueue, log, checks[0], budget - wait);
      ChecksTrace(bar, hasQueue, r.log, wait + r.wait, budget, checks[1..]);
      var k := |r.log| - |log|;
      assert all.log[|log|..][..k] == r.log[|log|..] && all.log[|log|..][k..] == all.log[|r.log|..];
    }
  }

  datatype PhaseResult = PhaseResult(
    status: Status,
    phaseIndex: nat,
    phase: BootPhase,
    hardwareActionsStarted: bool,
    checkPassed: bool,
    attemptUpdated: bool,
    waitMilliseconds: nat)

  datatype Outcome = Outcome(result: PhaseResult, attempt: Attempt, log: Log)

  /** One call: everything but the device and the attempt it acts on. */
  datatype Call = Call(
    manifest: BootManifest,
    sequence: BootSequence,
    expectations: Policy.Expectations,
    hasBar0: bool,
    hasQueue: bool,
    writesEnabled: bool,
    budget: nat)

  /** The guards before anything is touched. */
  predicate Admitted(a: Attempt, size: u64, c: Call)
  {
    && a.Runnable() && c.hasBar0 && size != 0 && c.budget != 0
    && Policy.SequenceAccepted(c.manifest, c.sequence, c.expectations)
    && a.nextPhaseIndex < |c.sequence.phases|
  }

  function Refusal(a: Attempt, phase: BootPhase): PhaseResult
  {
    PhaseResult(NotPermitted, a.nextPhaseIndex, phase, false, false, false, 0)
  }

  function RunActions(bar: Bar, log: Log, budget: nat, actions: seq<Action>): Step
    requires actions != [] ==> Accepted(actions)
  {
    if actions == [] then Step(Success, State(log, 0, false, 0)) else Run(bar, log, budget, actions)
  }

  function RunPhase(bar: Bar, log: Log, c: Call, phase: PhasePlan): (CheckRun, bool)
    requires phase.actions != [] ==> Accepted(phase.actions)
  {
    var acted := RunActions(bar, log, c.budget, phase.actions);
    if acted.status != Success then (CheckRun(acted.status, acted.state.wait, acted.state.log), acted.state.started)
    else (RunChecks(bar, c.hasQueue, acted.state.log, acted.state.wait, c.budget, phase.checks), acted.state.started)
  }

  /** What one call does to the device log and the attempt. */
  function NextPhase(bar: Bar, a: Attempt, log: Log, c: Call): Outcome
  {
    if !Admitted(a, bar.size, c) then Outcome(Refusal(a, PrefillBootstrapRpcRecords), a, log)
    else
      var i := a.nextPhaseIndex;
      var phase := c.sequence.phases[i];
      assert Policy.PhaseAccepted(c.manifest, c.expectations, phase, Policy.EXPECTED_PHASES[i]);
      if phase.actions != [] && !c.writesEnabled then Outcome(Refusal(a, phase.phase), a, log)
      else
        var (run, started) := RunPhase(bar, log, c, phase);
        var ok := run.status == Success;
        var event := Recorded(a, c.sequence, i, ok, started);
        var updated := event.status == Ok;
        Outcome(PhaseResult(if updated then run.status else NotPermitted, i, phase.phase, started, ok, updated, run.wait),
                event.attempt, run.log)
  }

  // ---- The methods ----

  method ReadShared(gpu: Gpu, offset: nat) returns (status: Status, value: u32)
    modifies gpu`log
    ensures match gpu.bar.env.shared(old(gpu.log), offset)
            case SharedValue(v) => status == Success && value == v && gpu.log == old(gpu.log) + [SharedRead(offset, v)]
            case SharedFailure(s) =>
              status == (if s == Success then Error else s) && value == 0 && gpu.log == old(gpu.log) + [Refused(offset)]
  {
    match gpu.bar.env.shared(gpu.log, offset) {
      case SharedValue(v) =>
        gpu.log := gpu.log + [SharedRead(offset, v)];
        return Success, v;
      case SharedFailure(s) =>
        gpu.log := gpu.log + [Refused(offset)];
        return (if s == Success then Error else s), 0;
    }
  }

  method TakeSample(gpu: Gpu, hasQueue: bool, c: Check) returns (status: Status, value: u32)
    modifies gpu`log
    ensures ReadResult(status, value, gpu.log) == Sample(gpu.bar, hasQueue, old(gpu.log), c)
  {
    if c.kind.SharedMemoryU32Equal? {
      if !hasQueue {
        return BadArgument, 0;
      }
      status, value := ReadShared(gpu, c.addressOrOffset);
    } else if c.addressOrOffset % 4 != 0 || c.addressOrOffset > gpu.bar.size || 4 > gpu.bar.size - c.addressOrOffset {
      return BadArgument, 0;
    } else {
      status, value := gpu.Fetch(c.addressOrOffset);
    }
  }

  method ExecuteCheck(gpu: Gpu, hasQueue: bool, c: Check, budget: nat) returns (status: Status, waited: nat)
    modifies gpu`log
    ensures CheckRun(status, waited, gpu.log) == RunCheck(gpu.bar, hasQueue, old(gpu.log), c, budget)
    ensures old(gpu.log) <= gpu.log && CheckEnds(c, gpu.log[|old(gpu.log)|..], status, waited, budget)
  {
    hide CheckEnds;
    CheckTrace(gpu.bar, hasQueue, gpu.log, c, budget);
    waited := 0;
    if budget == 0 {
      return BadArgument, 0;
    }
    if c.kind.HostPreparationRequired? {
      return NotPermitted, 0;
    }
    while true
      invariant waited <= budget
      invariant Await(gpu.bar, hasQueue, old(gpu.log), c, budget, 0) ==
                Await(gpu.bar, hasQueue, gpu.log, c, budget, waited)
      decreases budget - waited
    {
      var value;
      status, value := TakeSample(gpu, hasQueue, c);
      if status != Success {
        return;
      }
      if CheckSatisfied(c, value) {
        return;
      }
      if waited >= budget {
        status := Timeout;
        return;
      }
      gpu.Pause(1);
      waited := waited + 1;
    }
  }

  method ExecuteChecks(gpu: Gpu, hasQueue: bool, wait: nat, budget: nat, checks: seq<Check>)
    returns (status: Status, total: nat)
    modifies gpu`log
    ensures CheckRun(status, total, gpu.log) == RunChecks(gpu.bar, hasQueue, old(gpu.log), wait, budget, checks)
    ensures status == Success ==> old(gpu.log) <= gpu.log && ChecksLeave(checks, gpu.log[|old(gpu.log)|..])
    ensures checks != [] && wait >= budget ==> status == Timeout && total == wait && gpu.log == old(gpu.log)
  {
    hide RunCheck, CheckEnds, ChecksLeave;
    if RunChecks(gpu.bar, hasQueue, gpu.log, wait, budget, checks).status == Success {
      ChecksTrace(gpu.bar, hasQueue, gpu.log, wait, budget, checks);
    }
    total := wait;
    var i := 0;
    assert checks[0..] == checks;
    while i < |checks|
      invariant 0 <= i <= |checks|
      invariant RunChecks(gpu.bar, hasQueue, old(gpu.log), wait, budget, checks) ==
                RunChecks(gpu.bar, hasQueue, gpu.log, total, budget, checks[i..])
    {
      assert checks[i..][0] == checks[i] && checks[i..][1..] == checks[i + 1..];
      if total >= budget {
        return Timeout, total;
      }
      var waited;
      status, waited := ExecuteCheck(gpu, hasQueue, checks[i], budget - total);
      total := total + waited;
      if status != Success {
        return;
      }
      i := i + 1;
    }
    status := Success;
  }

  method ExecuteNextBootPhase(attempt: BootAttempt, gpu: Gpu?, c: Call) returns (out: PhaseResult)
    requires c.hasBar0 <==> gpu != null
    modifies attempt, if gpu == null then {} else {gpu}
    ensures gpu != null ==>
              Outcome(out, attempt.View(), gpu.log) == NextPhase(gpu.bar, old(attempt.View()), old(gpu.log), c)
    ensures gpu == null ==>
              out == Refusal(old(attempt.View()), PrefillBootstrapRpcRecords) && attempt.View() == old(attempt.View())
  {
    hide Recorded, RunChecks, ChecksLeave, Run, Policy.SequenceAccepted, Policy.PhaseAccepted, Accepted, Policy.StopsAt,
         Policy.HeaderFailure, FirstDenial, Policy.TotalActions;
    out := PhaseResult(NotPermitted, attempt.nextPhaseIndex, PrefillBootstrapRpcRecords, false, false, false, 0);
    if (attempt.state != Ready && attempt.state != Running) || gpu == null || gpu.bar.size == 0 || c.budget == 0 {
      return;
    }
    var policy := Policy.CheckSequence(c.manifest, c.sequence, c.expectations);
    if !policy.valid || attempt.nextPhaseIndex >= |c.sequence.phases| {
      return;
    }
    var i := attempt.nextPhaseIndex;
    var phase := c.sequence.phases[i];
    AuditCovers(c, i);
    out := out.(phase := phase.phase);
    if phase.actions != [] && !c.writesEnabled {
      return;
    }
    var status, started, wait := Success, false, 0;
    if phase.actions != [] {
      var exec := ExecuteFalconPlan(gpu, Plan(true, phase.actions), c.writesEnabled, c.budget);
      status, wait, started := exec.status, exec.totalWaitMilliseconds, exec.hardwareActionsStarted;
    }
    if status == Success {
      status, wait := ExecuteChecks(gpu, c.hasQueue, wait, c.budget, phase.checks);
    }
    var succeeded := status == Success;
    var event := attempt.RecordPhaseResult(c.sequence, i, succeeded, started);
    out := PhaseResult(if event == Ok then status else NotPermitted, i, phase.phase, started, succeeded, event == Ok, wait);
  }

  lemma AuditCovers(c: Call, i: nat)
    requires Policy.SequenceAccepted(c.manifest, c.sequence, c.expectations) && i < |c.sequence.phases|
    ensures Policy.PhaseAccepted(c.manifest, c.expectations, c.sequence.phases[i], Policy.EXPECTED_PHASES[i])
    ensures c.sequence.phases[i].actions != [] ==> Accepted(c.sequence.phases[i].actions)
  {
  }
}
