/** What a boot attempt keeps whatever is reported to it: reports out of turn, twice over, or with the wrong flag. */
module BootReports {
  import opened Falcon
  import opened Gsp
  import opened BootAttempts
  import opened BootRun
  import Policy = BootSequencePolicy

  datatype Report = PhaseDone(index: nat, succeeded: bool, started: bool) | ResetDone(postcheck: Postcheck)

  function Reported(a: Attempt, s: BootSequence, r: Report): Event
  {
    match r
    case PhaseDone(index, succeeded, started) => Recorded(a, s, index, succeeded, started)
    case ResetDone(p) => PostcheckRecorded(a, p)
  }

  datatype Success = Success(index: nat, started: bool)

  /** The attempt after some reports, the successes it took, and whether it took one that said a write was made. */
  datatype History = History(attempt: Attempt, done: seq<Success>, touched: bool)

  function Taken(h: History, s: BootSequence, r: Report): History
  {
    var e := Reported(h.attempt, s, r);
    if e.status != Ok || r.ResetDone? then h.(attempt := e.attempt)
    else History(e.attempt, if r.succeeded then h.done + [Success(r.index, r.started)] else h.done, h.touched || r.started)
  }

  function Replay(h: History, s: BootSequence, reports: seq<Report>): History
    decreases |reports|
  {
    if reports == [] then h else Replay(Taken(h, s, reports[0]), s, reports[1..])
  }

  const UNTOUCHED := History(FRESH, [], false)

  /** Which reports an attempt takes, and how it refuses the others, itself unchanged. */
  lemma TakenExactly(a: Attempt, s: BootSequence, i: nat, succeeded: bool, started: bool)
    ensures var e := Recorded(a, s, i, succeeded, started);
      && (e.status == NotRunnable <==> a.state != Ready && a.state != Running)
      && (e.status == Ok <==>
            && (a.state == Ready || a.state == Running)
            && s.valid && i == a.nextPhaseIndex && i < |s.phases|
            && (started ==> s.phases[i].actions != [])
            && (succeeded && s.phases[i].actions != [] ==> started))
      && (e.status == WrongPhase <==>
            && (a.state == Ready || a.state == Running)
            && !(s.valid && i == a.nextPhaseIndex && i < |s.phases|))
      && (e.status != Ok ==> e.attempt == a)
  {
  }

  ghost predicate Sound(s: BootSequence, h: History)
  {
    var a := h.attempt;
    && a.nextPhaseIndex == |h.done| <= 12 == |s.phases|
    && (forall k :: 0 <= k < |h.done| ==> h.done[k] == Success(k, s.phases[k].actions != []))
    && (h.touched <==> a.crossed)
    && (a.Runnable() || a.state.Succeeded? || a.state.FailedColdReversible? || Reset(a.state))
    && (a.Runnable() ==> a.nextPhaseIndex < 12)
    && (a.Runnable() || a.state.Succeeded? ==> (a.crossed <==> a.nextPhaseIndex >= 2))
    && (a.state.Succeeded? <==> a.nextPhaseIndex == 12)
    && (a.state.FailedColdReversible? ==> !a.crossed && a.recovery.Reversible())
    && (Reset(a.state) ==> a.crossed && a.recovery.Pinned())
  }

  lemma TakenKeeps(m: BootManifest, s: BootSequence, e: Policy.Expectations, h: History, r: Report)
    requires Policy.SequenceAccepted(m, s, e) && Sound(s, h)
    ensures Sound(s, Taken(h, s, r))
  {
    hide Policy.SequenceAccepted;
    match r
    case ResetDone(p) =>
    case PhaseDone(i, succeeded, started) =>
      TakenExactly(h.attempt, s, i, succeeded, started);
      if Recorded(h.attempt, s, i, succeeded, started).status == Ok {
        if succeeded { SuccessKeeps(m, s, e, h, started); } else { FailureKeeps(m, s, e, h, started); }
      }
  }

  lemma SuccessKeeps(m: BootManifest, s: BootSequence, e: Policy.Expectations, h: History, started: bool)
    requires Policy.SequenceAccepted(m, s, e) && Sound(s, h)
    requires var i := h.attempt.nextPhaseIndex; Recorded(h.attempt, s, i, true, started).status == Ok
    ensures Sound(s, Taken(h, s, PhaseDone(h.attempt.nextPhaseIndex, true, started)))
  {
    hide Policy.SequenceAccepted, Policy.PhaseAccepted, RecoveryForBootFailure;
    TakenExactly(h.attempt, s, h.attempt.nextPhaseIndex, true, started);
    Shapes(m, s, e, h.attempt.nextPhaseIndex);
  }

  lemma FailureKeeps(m: BootManifest, s: BootSequence, e: Policy.Expectations, h: History, started: bool)
    requires Policy.SequenceAccepted(m, s, e) && Sound(s, h)
    requires var i := h.attempt.nextPhaseIndex; Recorded(h.attempt, s, i, false, started).status == Ok
    ensures Sound(s, Taken(h, s, PhaseDone(h.attempt.nextPhaseIndex, false, started)))
  {
    hide Policy.SequenceAccepted, Policy.PhaseAccepted;
    TakenExactly(h.attempt, s, h.attempt.nextPhaseIndex, false, started);
    Shapes(m, s, e, h.attempt.nextPhaseIndex);
  }

  /** Where the phases that matter to recovery stand in an accepted sequence. */
  lemma Shapes(m: BootManifest, s: BootSequence, e: Policy.Expectations, i: nat)
    requires Policy.SequenceAccepted(m, s, e) && i < 12
    ensures s.phases[i].phase == Policy.EXPECTED_PHASES[i]
    ensures i == 0 ==> s.phases[i].phase.PrefillBootstrapRpcRecords? && s.phases[i].actions == []
    ensures s.phases[i].phase.ResetGspForFrts? <==> i == 1
    ensures i == 1 ==> s.phases[i].actions != []
    ensures i >= 2 ==> forall started :: RecoveryForBootFailure(s.phases[i].phase, started) == FULL_RESET
  {
    assert Policy.PhaseAccepted(m, e, s.phases[i], Policy.EXPECTED_PHASES[i]);
    if i > 1 { LatePhasesReset(i, true); LatePhasesReset(i, false); }
  }

  lemma {:induction false} ReplayKeeps(m: BootManifest, s: BootSequence, e: Policy.Expectations, h: History, reports: seq<Report>)
    requires Policy.SequenceAccepted(m, s, e) && Sound(s, h)
    ensures Sound(s, Replay(h, s, reports))
    decreases |reports|
  {
    hide Sound, Taken, Policy.SequenceAccepted;
    if reports != [] {
      TakenKeeps(m, s, e, h, reports[0]);
      ReplayKeeps(m, s, e, Taken(h, s, reports[0]), reports[1..]);
    }
  }

  /** Whatever is reported on an accepted sequence, in whatever order: the successes taken are the phases in order, each
      with a start reported exactly when it has actions; the attempt ends reversible only if no report it took said that
      something was written, and after one that did, a failure owes a full reset with its buffers pinned. */
  lemma ReportsAreSafe(m: BootManifest, s: BootSequence, e: Policy.Expectations, reports: seq<Report>)
    requires Policy.SequenceAccepted(m, s, e)
    ensures var h := Replay(UNTOUCHED, s, reports);
      var a := h.attempt;
      && |h.done| == a.nextPhaseIndex <= 12 == |s.phases|
      && (forall k :: 0 <= k < |h.done| ==> h.done[k] == Success(k, s.phases[k].actions != []))
      && (a.state.Succeeded? <==> |h.done| == 12)
      && (a.state.FailedColdReversible? ==> !h.touched && a.recovery.Reversible())
      && (h.touched && !a.Runnable() && !a.state.Succeeded? ==> Reset(a.state) && a.recovery.Pinned())
  {
    hide Policy.PhaseAccepted, Replay;
    ReplayKeeps(m, s, e, UNTOUCHED, reports);
  }
}
