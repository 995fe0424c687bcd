/** What the accesses of whole boot runs stay within: BAR0, its words, and the listed bits of the listed registers. */
module BarAccess {
  import opened Words
  import opened Falcon
  import opened FalconPolicy
  import opened FalconExec
  import opened Gsp
  import opened Mmio
  import opened BootAttempts
  import opened BootPhaseExecutor
  import opened BootRun
  import Policy = BootSequencePolicy
  import WriteReach

  predicate Inside(bar: Bar, e: Mmio.Event)
  {
    e.Read? || e.Write? ==> e.address % 4 == 0 && e.address + 4 <= bar.size
  }

  predicate AllInside(bar: Bar, log: Log) { forall i :: 0 <= i < |log| ==> Inside(bar, log[i]) }

  lemma OneMore(bar: Bar, log: Log, e: Mmio.Event)
    requires AllInside(bar, log) && Inside(bar, e)
    ensures AllInside(bar, log + [e])
  {
  }

  lemma ConcreteInside(bar: Bar, st: State, a: Action)
    requires AllInside(bar, st.log)
    ensures AllInside(bar, ConcreteWrite(bar, st, a).state.log)
  {
    hide Decide, Merge;
  }

  lemma ReadInside(bar: Bar, log: Log, address: nat)
    requires AllInside(bar, log)
    ensures AllInside(bar, ReadRegister(bar, log, address).log)
  {
  }

  lemma {:induction false} PollInside(bar: Bar, budget: nat, st: State, a: Action, waited: nat)
    requires waited <= a.timeoutMs && AllInside(bar, st.log)
    ensures AllInside(bar, Poll(bar, budget, st, a, waited).state.log)
    decreases a.timeoutMs - waited
  {
    hide And32, AllInside;
    var r := ReadRegister(bar, st.log, a.address);
    ReadInside(bar, st.log, a.address);
    if r.status == Success && And32(r.value, a.mask) != a.value && waited < a.timeoutMs && CanConsumeWait(st.wait, 1, budget) {
      OneMore(bar, r.log, Sleep(1));
      PollInside(bar, budget, st.(log := r.log + [Sleep(1)], wait := st.wait + 1), a, waited + 1);
    }
  }

  lemma ActionInside(bar: Bar, budget: nat, st: State, a: Action)
    requires AllInside(bar, st.log)
    ensures AllInside(bar, RunAction(bar, budget, st, a).state.log)
  {
    hide ConcreteWrite, Poll, Decide, ResolveStartCpu, AllInside;
    match a.kind
    case Write32 => ConcreteInside(bar, st, a);
    case MaskedWrite => ConcreteInside(bar, st, a);
    case PollMaskEqual => PollInside(bar, budget, st, a, 0);
    case StartCpuRespectAlias =>
      var r := ReadRegister(bar, st.log, a.address);
      ReadInside(bar, st.log, a.address);
      if r.status == Success { ConcreteInside(bar, st.(log := r.log), ResolveStartCpu(a, r.value).action); }
    case DelayMilliseconds => OneMore(bar, st.log, Sleep(a.value));
    case _ =>
  }

  lemma {:induction false} FlatInside(bar: Bar, budget: nat, st: State, skipping: bool, actions: seq<Action>)
    requires AllInside(bar, st.log)
    ensures AllInside(bar, Flat(Executor(bar, budget), st, skipping, actions).state.log)
    decreases |actions|
  {
    hide RunAction, And32, Flat, Dispatch, AllInside;
    var m := Executor(bar, budget);
    if actions == [] {
      FlatEnd(m, st, skipping);
    } else {
      DispatchInside(bar, budget, st, skipping, actions[0]);
      FlatAt(m, st, skipping, actions, 0);
      assert actions[0..] == actions;
      var d := Dispatch(m, st, skipping, actions[0]);
      if d.status == Success { FlatInside(bar, budget, d.state, d.skipping, actions[1..]); }
    }
  }

  lemma DispatchInside(bar: Bar, budget: nat, st: State, skipping: bool, a: Action)
    requires AllInside(bar, st.log)
    ensures AllInside(bar, Dispatch(Executor(bar, budget), st, skipping, a).state.log)
  {
    hide RunAction, And32, AllInside, ReadRegister;
    ActionInside(bar, budget, st, a);
    ReadInside(bar, st.log, a.address);
  }

  lemma RunInside(bar: Bar, log: Log, budget: nat, actions: seq<Action>)
    requires AllInside(bar, log) && (actions != [] ==> Accepted(actions))
    ensures AllInside(bar, RunActions(bar, log, budget, actions).state.log)
  {
    hide RunProg, Flat, Accepted, AllInside;
    if actions != [] {
      var st := State(log, 0, false, 0);
      AcceptedIsStructured(actions);
      FlatRefinesProg(Executor(bar, budget), st, Parse(actions));
      FlatInside(bar, budget, st, false, actions);
    }
  }

  lemma SampleInside(bar: Bar, hasQueue: bool, log: Log, c: Check)
    requires AllInside(bar, log)
    ensures AllInside(bar, Sample(bar, hasQueue, log, c).log)
  {
  }

  lemma {:induction false} AwaitInside(bar: Bar, hasQueue: bool, log: Log, c: Check, budget: nat, waited: nat)
    requires waited <= budget && AllInside(bar, log)
    ensures AllInside(bar, Await(bar, hasQueue, log, c, budget, waited).log)
    decreases budget - waited
  {
    hide CheckSatisfied, AllInside, Sample;
    var r := Sample(bar, hasQueue, log, c);
    SampleInside(bar, hasQueue, log, c);
    if r.status == Success && !CheckSatisfied(c, r.value) && waited < budget {
      OneMore(bar, r.log, Sleep(1));
      AwaitInside(bar, hasQueue, r.log + [Sleep(1)], c, budget, waited + 1);
    }
  }

  lemma {:induction false} ChecksInside(bar: Bar, hasQueue: bool, log: Log, wait: nat, budget: nat, checks: seq<Check>)
    requires AllInside(bar, log)
    ensures AllInside(bar, RunChecks(bar, hasQueue, log, wait, budget, checks).log)
    decreases |checks|
  {
    hide AllInside, Await;
    if checks != [] && wait < budget {
      var r := RunCheck(bar, hasQueue, log, checks[0], budget - wait);
      AwaitInside(bar, hasQueue, log, checks[0], budget - wait, 0);
      if r.status == Success { ChecksInside(bar, hasQueue, r.log, wait + r.wait, budget, checks[1..]); }
    }
  }

  lemma CallInside(bar: Bar, r: RunState, c: Call)
    requires AllInside(bar, r.log)
    ensures AllInside(bar, NextPhase(bar, r.attempt, r.log, c).log)
  {
    hide AllInside, RunActions, RunChecks, Recorded, Policy.SequenceAccepted, Accepted, Policy.PhaseAccepted;
    if Admitted(r.attempt, bar.size, c) {
      var phase := c.sequence.phases[r.attempt.nextPhaseIndex];
      AuditCovers(c, r.attempt.nextPhaseIndex);
      RunInside(bar, r.log, c.budget, phase.actions);
      var acted := RunActions(bar, r.log, c.budget, phase.actions);
      ChecksInside(bar, c.hasQueue, acted.state.log, acted.state.wait, c.budget, phase.checks);
    }
  }

  lemma {:induction false} PlayInside(bar: Bar, r: RunState, inputs: seq<Input>)
    requires AllInside(bar, r.log)
    ensures AllInside(bar, Play(bar, r, inputs).log)
    decreases |inputs|
  {
    hide AllInside, NextPhase;
    if inputs != [] {
      if inputs[0].Advance? { CallInside(bar, r, inputs[0].call); }
      PlayInside(bar, After(bar, r, inputs[0]), inputs[1..]);
    }
  }

  /** Over every run from a fresh attempt, whatever its calls bring: no read or write leaves BAR0 or is unaligned, and
      each bit that a write sets, or changes when it is merged, is on the list. */
  lemma BootRunStaysInside(bar: Bar, inputs: seq<Input>, i: nat)
    requires i < |Play(bar, RunState(FRESH, [], [], 0), inputs).log|
    ensures var log := Play(bar, RunState(FRESH, [], [], 0), inputs).log;
      && (log[i].Read? || log[i].Write? ==> log[i].address % 4 == 0 && log[i].address + 4 <= bar.size)
      && (log[i].Write? ==> forall bit: nat | bit < 32 && WriteReach.Touches(log, i, bit) :: WriteReach.Reaches(log[i].address, bit))
  {
    hide Play, WriteReach.Touches, WriteReach.Reaches, LegalWriteAt;
    var log := Play(bar, RunState(FRESH, [], [], 0), inputs).log;
    PlayInside(bar, RunState(FRESH, [], [], 0), inputs);
    BootRunSafety(bar, inputs);
    assert Inside(bar, log[i]) && LegalWriteAt(log, i);
    if log[i].Write? {
      forall bit: nat | bit < 32 && WriteReach.Touches(log, i, bit) ensures WriteReach.Reaches(log[i].address, bit) {
        WriteReach.LegalReaches(log, i, bit);
      }
    }
  }
}
