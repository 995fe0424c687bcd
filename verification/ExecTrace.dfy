/** What executing leaves in the device log, for every device: a successful run of an accepted list leaves exactly
    the trace of the program the list flattens, and a wait ends only as it may. */
module ExecTrace {
  import opened Words
  import opened Falcon
  import opened FalconPolicy
  import opened FalconExec
  import opened FalconLog
  import opened Mmio

  lemma SinceSplits(a: State, b: State, c: State)
    requires a.log <= b.log <= c.log
    ensures var k := |b.log| - |a.log|;
      Since(a, c)[..k] == Since(a, b) && Since(a, c)[k..] == Since(b, c)
  {
  }

  lemma {:induction false} BodyLeaves(bar: Bar, budget: nat, st: State, body: seq<Action>)
    requires forall a <- body :: !IsMarker(a)
    requires RunBody(Executor(bar, budget), st, body).status == Success
    ensures var r := RunBody(Executor(bar, budget), st, body);
      st.log <= r.state.log && ListLeaves(body, Since(st, r.state))
    decreases |body|
  {
    hide RunAction, Leaves;
    var r := RunBody(Executor(bar, budget), st, body);
    if body != [] {
      assert body[0] in body;
      ActionLeaves(bar, budget, st, body[0]);
      var one := RunAction(bar, budget, st, body[0]).state;
      BodyLeaves(bar, budget, one.(pc := one.pc + 1), body[1..]);
      var log, k := Since(st, r.state), |one.log| - |st.log|;
      SinceSplits(st, one, r.state);
    }
  }

  lemma DoTrace(a: Action, rest: Prog, log: Log, k: nat)
    requires k <= |log| && Leaves(a, log[..k]) && ProgLeaves(rest, log[k..])
    ensures ProgLeaves(Do(a, rest), log)
  {
    hide Leaves;
  }

  lemma BlockTrace(test: Action, body: seq<Action>, rest: Prog, log: Log, k: nat)
    requires 1 <= k <= |log| && ReadOf(log[0], test.address) && Matches(log[0].value, test.mask, test.value)
    requires ListLeaves(body, log[1..k]) && ProgLeaves(rest, log[k..])
    ensures ProgLeaves(Cond(test, body, rest), log)
  {
    hide Matches, ListLeaves;
  }

  /** A successful run of a structured program leaves its trace. */
  lemma {:induction false} RunLeaves(bar: Bar, budget: nat, st: State, p: Prog)
    requires p.WellFormed() && RunProg(Executor(bar, budget), st, p).status == Success
    ensures var r := RunProg(Executor(bar, budget), st, p);
      st.log <= r.state.log && ProgLeaves(p, Since(st, r.state))
    decreases p
  {
    hide RunAction, RunBody, Leaves, ListLeaves, Matches, And32, ProgLeaves;
    var m := Executor(bar, budget);
    var r := RunProg(m, st, p);
    match p
    case Halt =>
      HaltTrace();
      assert Since(st, st) == [];
    case Do(a, rest) =>
      ActionLeaves(bar, budget, st, a);
      var one := RunAction(bar, budget, st, a).state;
      RunLeaves(bar, budget, one.(pc := one.pc + 1), rest);
      var log, k := Since(st, r.state), |one.log| - |st.log|;
      SinceSplits(st, one, r.state);
      DoTrace(a, rest, log, k);
    case Cond(test, body, rest) =>
      var read := ReadRegister(bar, st.log, test.address);
      var seen := st.(log := read.log);
      MatchesIs(read.value, test.mask, test.value);
      if And32(read.value, test.mask) == test.value {
        var entered := seen.(pc := seen.pc + 1);
        BodyLeaves(bar, budget, entered, body);
        var b := RunBody(m, entered, body).state;
        RunLeaves(bar, budget, b.(pc := b.pc + 1), rest);
        var log, k := Since(st, r.state), |b.log| - |st.log|;
        SinceSplits(st, b, r.state);
        SinceSplits(st, entered, b);
        assert log[1..k] == log[..k][1..];
        BlockTrace(test, body, rest, log, k);
      } else {
        RunLeaves(bar, budget, seen.(pc := seen.pc + |body| + 2), rest);
        var log := Since(st, r.state);
        SinceSplits(st, seen, r.state);
        SkipTrace(test, body, rest, log);
      }
  }

  lemma HaltTrace()
    ensures ProgLeaves(Halt, [])
  {
  }

  lemma SkipTrace(test: Action, body: seq<Action>, rest: Prog, log: Log)
    requires |log| > 0 && ReadOf(log[0], test.address) && !Matches(log[0].value, test.mask, test.value)
    requires ProgLeaves(rest, log[1..])
    ensures ProgLeaves(Cond(test, body, rest), log)
  {
    hide Matches;
  }

  /** Every successful run of an accepted list: the log since its start is the trace of the program the list
      flattens. */
  lemma AcceptedRunLeaves(bar: Bar, log: Log, budget: nat, actions: seq<Action>)
    requires Accepted(actions) && FalconExec.Run(bar, log, budget, actions).status == Success
    ensures var r := FalconExec.Run(bar, log, budget, actions);
      log <= r.state.log && ProgLeaves(Parse(actions), r.state.log[|log|..])
  {
    hide ProgLeaves, RunProg, Accepted;
    AcceptedIsStructured(actions);
    RunLeaves(bar, budget, State(log, 0, false, 0), Parse(actions));
  }
}
