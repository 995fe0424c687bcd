/** The independent audit of a complete boot sequence. */
module BootSequencePolicy {
  import opened Words
  import opened Falcon
  import opened FalconPolicy
  import opened Gsp

  const WPR2_HI: u32 := 0x001F_A828
  const GSP_MAILBOX0: u32 := 0x0011_0040
  const GSP_MAILBOX1: u32 := 0x0011_0044
  const GSP_FALCON_OS: u32 := 0x0011_0080
  const SEC2_MAILBOX0: u32 := 0x0084_0040
  const GSP_RISCV_CPUCTL: u32 := 0x0011_1388
  const RISCV_ACTIVE_MASK: u32 := 0x80
  const STATUS_ENTRY_OFF_FIELD: u64 := 28
  const EXPECTED_ENTRY_OFF: u32 := 0x1000

  const EXPECTED_PHASES: seq<BootPhase> := [
    PrefillBootstrapRpcRecords, ResetGspForFrts, ExecuteFrtsFwsec, VerifyWpr2,
    ResetGspForRiscv, ProgramLibosMailbox, ResetSec2, ExecuteSec2Booter,
    VerifySec2Booter, ReleaseGspRiscv, VerifyGspRiscv, WaitStatusQueue]

  datatype Expectations = Expectations(libosInitArguments: u64, gspAppVersion: u32)

  datatype Failure =
    | NoFailure
    | InvalidManifest
    | InvalidSequence
    | InvalidExpectations
    | WrongPhaseCount
    | WrongPhaseOrder
    | FalconActionDenied
    | UnexpectedAction
    | MissingAction
    | UnexpectedCheck
    | MissingCheck

  function FullWrite(address: u32, value: u32): Action { Action(Write32, address, value, MAX32, 0) }

  function LowWord(x: u64): u32 { x % 0x1_0000_0000 }
  function HighWord(x: u64): u32 { x / 0x1_0000_0000 }

  /** The phases whose whole action list the audit pins down; the others only need an
      allow-listed, non-empty one. */
  function FixedActions(phase: BootPhase, e: Expectations): seq<Action>
    requires !phase.ResetGspForFrts? && !phase.ExecuteFrtsFwsec? && !phase.ResetGspForRiscv?
    requires !phase.ResetSec2? && !phase.ExecuteSec2Booter?
  {
    match phase
    case ProgramLibosMailbox =>
      [FullWrite(GSP_MAILBOX0, LowWord(e.libosInitArguments)),
       FullWrite(GSP_MAILBOX1, HighWord(e.libosInitArguments))]
    case ReleaseGspRiscv => [FullWrite(GSP_FALCON_OS, e.gspAppVersion)]
    case _ => []
  }

  predicate RunsFalcon(phase: BootPhase)
  {
    || phase.ResetGspForFrts? || phase.ExecuteFrtsFwsec? || phase.ResetGspForRiscv?
    || phase.ResetSec2? || phase.ExecuteSec2Booter?
  }

  function ShapeFailure(p: PhasePlan, e: Expectations): Failure
  {
    if RunsFalcon(p.phase) then (if p.actions == [] then MissingAction else NoFailure)
    else
      var fixed := FixedActions(p.phase, e);
      if |p.actions| < |fixed| then MissingAction
      else if p.actions != fixed then UnexpectedAction
      else NoFailure
  }

  /** The one check a verification phase must carry, none elsewhere. */
  function ExpectedChecks(m: BootManifest, phase: BootPhase): seq<Check>
    requires phase.WaitStatusQueue? ==> m.queues.statusQueueOffset <= MAX64 - STATUS_ENTRY_OFF_FIELD
  {
    match phase
    case VerifyWpr2 => [Check(MmioNonZero, WPR2_HI, MAX32, 0)]
    case VerifySec2Booter => [Check(MmioMaskEqual, SEC2_MAILBOX0, MAX32, 0)]
    case VerifyGspRiscv => [Check(MmioMaskEqual, GSP_RISCV_CPUCTL, RISCV_ACTIVE_MASK, RISCV_ACTIVE_MASK)]
    case WaitStatusQueue =>
      [Check(SharedMemoryU32Equal, m.queues.statusQueueOffset + STATUS_ENTRY_OFF_FIELD, MAX32, EXPECTED_ENTRY_OFF)]
    case _ => []
  }

  predicate ChecksOk(m: BootManifest, p: PhasePlan)
  {
    && (p.phase.WaitStatusQueue? ==> m.queues.statusQueueOffset <= MAX64 - STATUS_ENTRY_OFF_FIELD)
    && p.checks == ExpectedChecks(m, p.phase)
  }

  predicate PhaseAccepted(m: BootManifest, e: Expectations, p: PhasePlan, expected: BootPhase)
  {
    && p.phase == expected
    && ShapeFailure(p, e).NoFailure?
    && (p.actions != [] ==> Accepted(p.actions))
    && ChecksOk(m, p)
  }

  predicate SequenceAccepted(m: BootManifest, s: BootSequence, e: Expectations)
  {
    && m.valid
    && s.valid && s.executableWithCurrentCore
    && e.libosInitArguments != 0 && e.libosInitArguments % 0x1000 == 0
    && |s.phases| == |EXPECTED_PHASES|
    && forall i :: 0 <= i < |s.phases| ==> PhaseAccepted(m, e, s.phases[i], EXPECTED_PHASES[i])
  }

  datatype Report = Report(
    valid: bool,
    failure: Failure,
    phaseIndex: nat,
    actionIndex: nat,
    actionCount: nat,
    checkCount: nat)

  function TotalActions(phases: seq<PhasePlan>): nat
  {
    if phases == [] then 0 else TotalActions(phases[..|phases| - 1]) + |phases[|phases| - 1].actions|
  }

  function TotalChecks(phases: seq<PhasePlan>): nat
  {
    if phases == [] then 0 else TotalChecks(phases[..|phases| - 1]) + |phases[|phases| - 1].checks|
  }

  /** What is wrong before any phase is looked at. */
  function HeaderFailure(m: BootManifest, s: BootSequence, e: Expectations): Failure
  {
    if !m.valid then InvalidManifest
    else if !s.valid || !s.executableWithCurrentCore then InvalidSequence
    else if e.libosInitArguments == 0 || e.libosInitArguments % 0x1000 != 0 then InvalidExpectations
    else if |s.phases| != |EXPECTED_PHASES| then WrongPhaseCount
    else NoFailure
  }

  /** The first thing wrong with a phase: its place, the shape of its actions, a denied action, its checks. */
  function PhaseFailure(m: BootManifest, e: Expectations, p: PhasePlan, expected: BootPhase): Failure
  {
    if p.phase != expected then WrongPhaseOrder
    else if ShapeFailure(p, e) != NoFailure then ShapeFailure(p, e)
    else if p.actions != [] && !Accepted(p.actions) then FalconActionDenied
    else if !ChecksOk(m, p) then (if p.checks == [] then MissingCheck else UnexpectedCheck)
    else NoFailure
  }

  /** A failing phase's actions are counted once their shape is right, its checks once its actions pass. */
  function CountedActions(f: Failure, p: PhasePlan): nat
  {
    if f in {WrongPhaseOrder, MissingAction, UnexpectedAction} then 0 else |p.actions|
  }

  function CountedChecks(f: Failure, p: PhasePlan): nat
  {
    if f in {MissingCheck, UnexpectedCheck, NoFailure} then |p.checks| else 0
  }

  /** A report that stops at phase `k`: the phases before it pass, and this one fails as stated. */
  ghost predicate StopsAt(out: Report, m: BootManifest, s: BootSequence, e: Expectations, k: nat)
    requires |s.phases| == |EXPECTED_PHASES|
  {
    && k < |s.phases|
    && (forall j :: 0 <= j < k ==> PhaseAccepted(m, e, s.phases[j], EXPECTED_PHASES[j]))
    && var p, f := s.phases[k], PhaseFailure(m, e, s.phases[k], EXPECTED_PHASES[k]);
    && f != NoFailure && !out.valid && out.failure == f && out.phaseIndex == k
    && out.actionCount == TotalActions(s.phases[..k]) + CountedActions(f, p)
    && out.checkCount == TotalChecks(s.phases[..k]) + CountedChecks(f, p)
    && (if f.FalconActionDenied? then exists why :: FirstDenial(p.actions, out.actionIndex, why) else out.actionIndex == MAX64)
  }

  /** The audit of one phase, in the order the sequence audit asks its questions. */
  method AuditPhase(m: BootManifest, e: Expectations, phase: PhasePlan, expected: BootPhase)
    returns (failure: Failure, actionIndex: nat, actions: nat, checks: nat)
    ensures failure == PhaseFailure(m, e, phase, expected)
    ensures failure.NoFailure? <==> PhaseAccepted(m, e, phase, expected)
    ensures if failure.FalconActionDenied? then exists why :: FirstDenial(phase.actions, actionIndex, why) else actionIndex == MAX64
    ensures actions == CountedActions(failure, phase) && checks == CountedChecks(failure, phase)
  {
    actionIndex, actions, checks := MAX64, 0, 0;
    if phase.phase != expected {
      failure := WrongPhaseOrder;
      return;
    }
    failure := ShapeFailure(phase, e);
    if failure != NoFailure {
      return;
    }
    actions := |phase.actions|;
    if phase.actions != [] {
      var report := CheckPlanPolicy(Plan(true, phase.actions));
      if !report.valid {
        failure, actionIndex := FalconActionDenied, report.firstDeniedIndex;
        return;
      }
    }
    checks := |phase.checks|;
    if !ChecksOk(m, phase) {
      failure := if phase.checks == [] then MissingCheck else UnexpectedCheck;
    }
  }

  /** Audits a sequence; an invalid report stops at the first phase that fails. */
  method CheckSequence(m: BootManifest, s: BootSequence, e: Expectations) returns (out: Report)
    ensures out.valid <==> SequenceAccepted(m, s, e)
    ensures out.valid ==> out == Report(true, NoFailure, 12, MAX64, TotalActions(s.phases), 4)
    ensures HeaderFailure(m, s, e) != NoFailure ==> out == Report(false, HeaderFailure(m, s, e), 0, MAX64, 0, 0)
    ensures HeaderFailure(m, s, e) == NoFailure && !out.valid ==> StopsAt(out, m, s, e, out.phaseIndex)
  {
    hide PhaseAccepted, PhaseFailure;
    out := Report(false, NoFailure, 0, MAX64, 0, 0);
    if !m.valid {
      return out.(failure := InvalidManifest);
    }
    if !s.valid || !s.executableWithCurrentCore {
      return out.(failure := InvalidSequence);
    }
    if e.libosInitArguments == 0 || e.libosInitArguments % 0x1000 != 0 {
      return out.(failure := InvalidExpectations);
    }
    if |s.phases| != |EXPECTED_PHASES| {
      return out.(failure := WrongPhaseCount);
    }
    for i := 0 to |s.phases|
      invariant out == Report(false, NoFailure, out.phaseIndex, MAX64, TotalActions(s.phases[..i]), TotalChecks(s.phases[..i]))
      invariant forall j :: 0 <= j < i ==> PhaseAccepted(m, e, s.phases[j], EXPECTED_PHASES[j])
      invariant out.checkCount == ChecksBefore(i)
    {
      out := out.(phaseIndex := i);
      var phase := s.phases[i];
      var failure, actionIndex, actions, checks := AuditPhase(m, e, phase, EXPECTED_PHASES[i]);
      out := out.(actionCount := out.actionCount + actions, checkCount := out.checkCount + checks);
      if failure != NoFailure {
        return out.(failure := failure, actionIndex := actionIndex);
      }
      assert s.phases[..i + 1][..i] == s.phases[..i];
      ChecksStep(m, e, phase, i);
    }
    assert s.phases[..|s.phases|] == s.phases;
    out := out.(valid := true, phaseIndex := |s.phases|);
  }

  function ChecksBefore(i: nat): nat
  {
    if i <= 3 then 0 else if i <= 8 then 1 else if i <= 10 then 2 else if i <= 11 then 3 else 4
  }

  lemma ChecksStep(m: BootManifest, e: Expectations, p: PhasePlan, i: nat)
    requires i < |EXPECTED_PHASES| && PhaseAccepted(m, e, p, EXPECTED_PHASES[i])
    ensures ChecksBefore(i + 1) == ChecksBefore(i) + |p.checks|
  {
  }
}
