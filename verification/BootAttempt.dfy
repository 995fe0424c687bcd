/** The boot attempt: its state, what a recorded event does to it, and the recovery it owes. */
module BootAttempts {
  import opened Words
  import opened Falcon
  import opened Gsp
  import Policy = BootSequencePolicy

  datatype AttemptState =
    | Cold
    | Ready
    | Running
    | Succeeded
    | Rejected
    | FailedColdReversible
    | FailedNeedsGpuReset
    | ResetRecovered
    | Unrecovered

  datatype EventStatus = Ok | NotRunnable | WrongPhase | InvalidHardwareActionFlag | NotAwaitingReset

  datatype Recovery = Recovery(
    fullGpuResetRequired: bool,
    mayRetryBootstrap: bool,
    mayRollbackPraminScratch: bool,
    mayRollbackPciCommand: bool,
    mayRollbackSysmemFlushPage: bool,
    mayReleaseDmaBuffers: bool,
    keepDmaAndFlushPinned: bool)
  {
    /** Nothing may be undone, retried or released, and the buffers stay pinned. */
    predicate Pinned()
    {
      && fullGpuResetRequired && keepDmaAndFlushPinned
      && !mayRetryBootstrap && !mayRollbackPraminScratch && !mayRollbackPciCommand
      && !mayRollbackSysmemFlushPage && !mayReleaseDmaBuffers
    }

    predicate Reversible()
    {
      && !fullGpuResetRequired && !keepDmaAndFlushPinned
      && mayRetryBootstrap && mayRollbackPraminScratch && mayRollbackPciCommand
      && mayRollbackSysmemFlushPage && mayReleaseDmaBuffers
    }
  }

  const NO_RECOVERY := Recovery(false, false, false, false, false, false, false)
  const COLD_REVERSIBLE := Recovery(false, true, true, true, true, true, false)
  const FULL_RESET := Recovery(true, false, false, false, false, false, true)

  function RecoveryForBootFailure(failed: BootPhase, started: bool): Recovery
  {
    match failed
    case PrefillBootstrapRpcRecords => COLD_REVERSIBLE
    case ResetGspForFrts => if started then FULL_RESET else COLD_REVERSIBLE
    case _ => FULL_RESET
  }

  datatype Postcheck = Postcheck(
    recovered: bool,
    mayReleasePinnedBootBuffers: bool,
    mayBeginColdRebuild: bool,
    keepPinnedAndRequireReset: bool)
  {
    /** Everything a postcheck must say before the pinned buffers are let go. */
    predicate Clears()
    {
      recovered && mayReleasePinnedBootBuffers && mayBeginColdRebuild && !keepPinnedAndRequireReset
    }
  }

  /** The mutable part of an attempt. */
  datatype Attempt = Attempt(state: AttemptState, recovery: Recovery, nextPhaseIndex: nat, crossed: bool)
  {
    predicate Runnable() { state.Ready? || state.Running? }
  }

  datatype Event = Event(status: EventStatus, attempt: Attempt)

  /** What recording one phase result does. */
  function Recorded(a: Attempt, s: BootSequence, phaseIndex: nat, succeeded: bool, started: bool): Event
  {
    if !a.Runnable() then Event(NotRunnable, a)
    else if !s.valid || phaseIndex != a.nextPhaseIndex || phaseIndex >= |s.phases| then Event(WrongPhase, a)
    else
      var phase := s.phases[phaseIndex];
      var hasActions := phase.actions != [];
      if succeeded && hasActions != started then Event(InvalidHardwareActionFlag, a)
      else if !hasActions && started then Event(InvalidHardwareActionFlag, a)
      else
        var crossed := a.crossed || (phase.phase.ResetGspForFrts? && started);
        if !succeeded then
          var first := RecoveryForBootFailure(phase.phase, started);
          var recovery :=
            if crossed && !first.fullGpuResetRequired then RecoveryForBootFailure(ResetGspForFrts, true) else first;
          Event(Ok, a.(state := if recovery.fullGpuResetRequired then FailedNeedsGpuReset else FailedColdReversible,
                       recovery := recovery, crossed := crossed))
        else
          var next := a.nextPhaseIndex + 1;
          Event(Ok, a.(state := if next == |s.phases| then Succeeded else Running,
                       nextPhaseIndex := next, crossed := crossed))
  }

  function PostcheckRecorded(a: Attempt, p: Postcheck): Event
  {
    if !a.state.FailedNeedsGpuReset? then Event(NotAwaitingReset, a)
    else
      var recovered := p.recovered && p.mayReleasePinnedBootBuffers && p.mayBeginColdRebuild && !p.keepPinnedAndRequireReset;
      Event(Ok, a.(state := if recovered then ResetRecovered else Unrecovered))
  }

  /** The attempt object that the recording functions update in place. */
  class BootAttempt {
    var state: AttemptState
    var recovery: Recovery
    var nextPhaseIndex: nat
    var firstResetCommitCrossed: bool
    var preflightReady: bool
    var sequencePolicyValid: bool

    ghost function View(): Attempt
      reads this
    {
      Attempt(state, recovery, nextPhaseIndex, firstResetCommitCrossed)
    }

    /** A fresh attempt is runnable exactly when the preflight gate and the sequence audit agree. */
    constructor Begin(m: BootManifest, s: BootSequence, e: Policy.Expectations, ready: bool)
      ensures View() == Attempt(
                          if ready && Policy.SequenceAccepted(m, s, e) then Ready else Rejected,
                          NO_RECOVERY, 0, false)
      ensures preflightReady == ready && sequencePolicyValid == Policy.SequenceAccepted(m, s, e)
    {
      recovery, nextPhaseIndex, firstResetCommitCrossed := NO_RECOVERY, 0, false;
      var report := Policy.CheckSequence(m, s, e);
      preflightReady, sequencePolicyValid := ready, report.valid;
      state := if ready && report.valid then Ready else Rejected;
    }

    method RecordPhaseResult(s: BootSequence, phaseIndex: nat, succeeded: bool, started: bool)
      returns (status: EventStatus)
      modifies `state, `recovery, `nextPhaseIndex, `firstResetCommitCrossed
      ensures Event(status, View()) == Recorded(old(View()), s, phaseIndex, succeeded, started)
    {
      if state != Ready && state != Running {
        return NotRunnable;
      }
      if !s.valid || phaseIndex != nextPhaseIndex || phaseIndex >= |s.phases| {
        return WrongPhase;
      }
      var phase := s.phases[phaseIndex];
      var hasActions := phase.actions != [];
      if succeeded && hasActions != started {
        return InvalidHardwareActionFlag;
      }
      if !hasActions && started {
        return InvalidHardwareActionFlag;
      }
      if phase.phase.ResetGspForFrts? && started {
        firstResetCommitCrossed := true;
      }
      if !succeeded {
        recovery := RecoveryForBootFailure(phase.phase, started);
        if firstResetCommitCrossed && !recovery.fullGpuResetRequired {
          recovery := RecoveryForBootFailure(ResetGspForFrts, true);
        }
        state := if recovery.fullGpuResetRequired then FailedNeedsGpuReset else FailedColdReversible;
        return Ok;
      }
      nextPhaseIndex := nextPhaseIndex + 1;
      state := if nextPhaseIndex == |s.phases| then Succeeded else Running;
      return Ok;
    }

    method RecordResetPostcheck(p: Postcheck) returns (status: EventStatus)
      modifies `state
      ensures Event(status, View()) == PostcheckRecorded(old(View()), p)
      ensures status == Ok <==> old(state).FailedNeedsGpuReset?
      ensures status == Ok ==> state == if p.Clears() then ResetRecovered else Unrecovered
      ensures status != Ok ==> status == NotAwaitingReset && state == old(state)
    {
      if state != FailedNeedsGpuReset {
        return NotAwaitingReset;
      }
      state := if p.recovered && p.mayReleasePinnedBootBuffers && p.mayBeginColdRebuild && !p.keepPinnedAndRequireReset
               then ResetRecovered else Unrecovered;
      return Ok;
    }
  }
}
