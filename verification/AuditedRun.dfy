/** What the audit alone guarantees of a run: any sequence whose run succeeds, whoever made it, was verified and told
    where its arguments lie. */
module AuditedRun {
  import opened Words
  import opened Falcon
  import opened FalconPolicy
  import opened FalconExec
  import opened FalconLog
  import opened Mmio
  import opened BootAttempts
  import opened BootPhaseExecutor
  import opened BootRun
  import opened BootTrace
  import G = Gsp
  import Policy = BootSequencePolicy

  /** Every call brings the same manifest, sequence and expectations. */
  predicate BringsAll(m: G.BootManifest, s: G.BootSequence, e: Policy.Expectations, inputs: seq<Input>)
  {
    forall i :: 0 <= i < |inputs| ==> inputs[i].Advance? ==>
      inputs[i].call.manifest == m && inputs[i].call.sequence == s && inputs[i].call.expectations == e
  }

  lemma {:induction false} RefusedNeverSucceeds(m: G.BootManifest, s: G.BootSequence, e: Policy.Expectations, bar: Bar, r: RunState,
                                                inputs: seq<Input>)
    requires BringsAll(m, s, e, inputs) && !Policy.SequenceAccepted(m, s, e) && !r.attempt.state.Succeeded?
    ensures !Play(bar, r, inputs).attempt.state.Succeeded?
    decreases |inputs|
  {
    hide Policy.SequenceAccepted, RunPhase, Recorded;
    if inputs != [] {
      assert inputs[0] == inputs[0];
      assert BringsAll(m, s, e, inputs[1..]) by { assert forall i :: 0 <= i < |inputs[1..]| ==> inputs[1..][i] == inputs[i + 1]; }
      RefusedNeverSucceeds(m, s, e, bar, After(bar, r, inputs[0]), inputs[1..]);
    }
  }

  lemma SuccessIsAudited(m: G.BootManifest, s: G.BootSequence, e: Policy.Expectations, bar: Bar, inputs: seq<Input>)
    requires BringsAll(m, s, e, inputs) && Play(bar, RunState(FRESH, [], [], 0), inputs).attempt.state.Succeeded?
    ensures Policy.SequenceAccepted(m, s, e)
  {
    hide Policy.SequenceAccepted, Play;
    if !Policy.SequenceAccepted(m, s, e) { RefusedNeverSucceeds(m, s, e, bar, RunState(FRESH, [], [], 0), inputs); }
  }

  /** What the audit fixes of phase `i`, by register number. */
  ghost predicate FixesPhase(p: G.PhasePlan, i: nat, queue: nat, libos: u64, version: u32)
  {
    match i
    case 0 => p.actions == [] && p.checks == []
    case 3 => p.actions == [] && p.checks == [G.Check(G.MmioNonZero, 0x1F_A828, MAX32, 0)]
    case 5 =>
      && p.actions == [Action(Write32, 0x11_0040, libos % 0x1_0000_0000, MAX32, 0),
                       Action(Write32, 0x11_0044, libos / 0x1_0000_0000, MAX32, 0)]
      && p.checks == []
    case 8 => p.actions == [] && p.checks == [G.Check(G.MmioMaskEqual, 0x84_0040, MAX32, 0)]
    case 9 => p.actions == [Action(Write32, 0x11_0080, version, MAX32, 0)] && p.checks == []
    case 10 => p.actions == [] && p.checks == [G.Check(G.MmioMaskEqual, 0x11_1388, 0x80, 0x80)]
    case 11 => p.actions == [] && queue + 28 <= MAX64 && p.checks == [G.Check(G.SharedMemoryU32Equal, queue + 28, MAX32, 0x1000)]
    case _ => p.actions != [] && Accepted(p.actions) && p.checks == []
  }

  ghost predicate Fixes(s: G.BootSequence, queue: nat, libos: u64, version: u32)
  {
    |s.phases| == 12 && forall i :: 0 <= i < 12 ==> FixesPhase(s.phases[i], i, queue, libos, version)
  }

  lemma AcceptedPhase(m: G.BootManifest, e: Policy.Expectations, p: G.PhasePlan, i: nat)
    requires i < 12 && Policy.PhaseAccepted(m, e, p, Policy.EXPECTED_PHASES[i])
    ensures FixesPhase(p, i, m.queues.statusQueueOffset, e.libosInitArguments, e.gspAppVersion)
  {
    hide Accepted;
  }

  lemma AcceptedFixes(m: G.BootManifest, s: G.BootSequence, e: Policy.Expectations)
    requires Policy.SequenceAccepted(m, s, e)
    ensures |s.phases| == 12 && Fixes(s, m.queues.statusQueueOffset, e.libosInitArguments, e.gspAppVersion)
    ensures m.valid && s.valid && s.executableWithCurrentCore && e.libosInitArguments != 0 && e.libosInitArguments % 0x1000 == 0
  {
    hide Policy.PhaseAccepted, FixesPhase;
    forall i | 0 <= i < 12 ensures FixesPhase(s.phases[i], i, m.queues.statusQueueOffset, e.libosInitArguments, e.gspAppVersion) {
      AcceptedPhase(m, e, s.phases[i], i);
    }
  }

  /** What a succeeded run's log shows, in this order: WPR2 set, the libOS arguments' address in GSP's mailbox, the
      booter's result zero, the version written, the core active, the status queue laid out. */
  ghost predicate Shows(log: Log, queue: nat, libos: u64, version: u32, w: nat, p: nat, x: nat, v: nat, y: nat, z: nat)
  {
    && w < p && p + 2 < x < v < y < z < |log|
    && ReadOf(log[w], 0x1F_A828) && log[w].value != 0
    && log[p].Write? && log[p].address == 0x11_0040 && log[p + 2].Write? && log[p + 2].address == 0x11_0044
    && log[p].value + 0x1_0000_0000 * log[p + 2].value == libos
    && log[x] == Read(0x84_0040, 0)
    && log[v] == Write(0x11_0080, version, false)
    && ReadOf(log[y], 0x11_1388) && log[y].value / 128 % 2 == 1
    && log[z] == SharedRead(queue + 28, 0x1000)
  }

  /** No run of a sequence the audit refuses succeeds; and a run of one it accepts, whatever its Falcon phases do,
      succeeds only after the four verifications and with the arguments' address and the version given. */
  lemma AuditedRunShows(m: G.BootManifest, s: G.BootSequence, e: Policy.Expectations, bar: Bar, inputs: seq<Input>)
    returns (w: nat, p: nat, x: nat, v: nat, y: nat, z: nat)
    requires BringsAll(m, s, e, inputs) && Play(bar, RunState(FRESH, [], [], 0), inputs).attempt.state.Succeeded?
    ensures m.valid && s.valid && s.executableWithCurrentCore && e.libosInitArguments != 0 && e.libosInitArguments % 0x1000 == 0
    ensures Fixes(s, m.queues.statusQueueOffset, e.libosInitArguments, e.gspAppVersion)
    ensures Shows(Play(bar, RunState(FRESH, [], [], 0), inputs).log, m.queues.statusQueueOffset, e.libosInitArguments, e.gspAppVersion,
                  w, p, x, v, y, z)
  {
    hide Play, PhaseLeaves, PhasesLeave, Policy.SequenceAccepted, Fixes, Shows, Laid;
    SuccessIsAudited(m, s, e, bar, inputs);
    AcceptedFixes(m, s, e);
    assert Brings(s, inputs);
    BootRunLeaves(s, bar, inputs);
    var log := Play(bar, RunState(FRESH, [], [], 0), inputs).log;
    var lo, hi := LayOut(s.phases, 12, log);
    w, p, x, v, y, z := ShownLaid(s, m.queues.statusQueueOffset, e.libosInitArguments, e.gspAppVersion, log, lo, hi);
  }

  lemma CheckShown(phase: G.PhasePlan, c: G.Check, log: Log, lo: nat, hi: nat)
    requires phase.actions == [] && phase.checks == [c] && lo <= hi <= |log| && PhaseLeaves(phase, log[lo..hi])
    ensures lo < hi && SampleOf(c, log[hi - 1]) && Demanded(c, log[hi - 1].value)
  {
    hide PhaseLeaves, Demanded, SampleOf;
    VerifyEnds(phase, c, log[lo..hi]);
    assert log[lo..hi][|log[lo..hi]| - 1] == log[hi - 1];
    SampleHasValue(c, log[hi - 1]);
  }

  lemma ShownLaid(s: G.BootSequence, queue: nat, libos: u64, version: u32, log: Log, lo: seq<nat>, hi: seq<nat>)
    returns (w: nat, p: nat, x: nat, v: nat, y: nat, z: nat)
    requires Fixes(s, queue, libos, version) && Laid(s.phases, 12, log, lo, hi)
    ensures Shows(log, queue, libos, version, w, p, x, v, y, z)
  {
    hide PhaseLeaves, ProgLeaves, Parse, Matches, Bit, Accepted;
    assert forall i :: 0 <= i < 12 ==> FixesPhase(s.phases[i], i, queue, libos, version);
    CheckShown(s.phases[3], s.phases[3].checks[0], log, lo[3], hi[3]);
    CheckShown(s.phases[8], s.phases[8].checks[0], log, lo[8], hi[8]);
    CheckShown(s.phases[10], s.phases[10].checks[0], log, lo[10], hi[10]);
    CheckShown(s.phases[11], s.phases[11].checks[0], log, lo[11], hi[11]);
    w, p, x, v, y, z := hi[3] - 1, lo[5], hi[8] - 1, lo[9], hi[10] - 1, hi[11] - 1;
    NonZero(log[w].value);
    FullMatch(log[x].value, 0);
    BitSevenSeen(log[y].value);
    FullMatch(log[z].value, 0x1000);
    var five, nine := log[lo[5]..hi[5]], log[lo[9]..hi[9]];
    ActsOnly(s.phases[5], five);
    MailboxLeaves(libos, five);
    assert log[p] == five[0] && log[p + 2] == five[2];
    ActsOnly(s.phases[9], nine);
    ReleaseLeaves(version, nine);
    assert log[v] == nine[0];
  }
}
