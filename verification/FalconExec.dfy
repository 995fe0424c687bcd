/** Runs an audited Falcon action list against the device. */
module FalconExec {
  import opened Words
  import opened Falcon
  import opened FalconPolicy
  import opened FalconLog
  import opened Mmio

  /** Progress through a list: what was logged, how long it slept, whether a register was
      written, and how many actions are behind it. */
  datatype State = State(log: Log, wait: nat, started: bool, pc: nat)

  datatype Step = Step(status: Status, state: State)

  /** What a state has logged since another. */
  function Since(a: State, b: State): Log
    requires a.log <= b.log
  {
    b.log[|a.log|..]
  }

  predicate CanConsumeWait(total: nat, addition: nat, maximum: nat)
  {
    addition <= maximum && total <= maximum - addition
  }

  function Merge(old_: u32, a: Action): u32
  {
    Or32(AndNot32(old_, a.mask), And32(a.value, a.mask))
  }

  /** One concrete write, its read-modify part if masked, and the ordering read that follows it. */
  function ConcreteWrite(bar: Bar, st: State, a: Action): Step
  {
    if !Decide(a).Allowed? || !(a.kind.Write32? || a.kind.MaskedWrite?) then Step(NotPermitted, st)
    else
      var status := MapStatus(bar, st.log, a.address);
      if status != Success then Step(status, st.(log := st.log + [Refused(a.address)]))
      else
        var before := bar.env.value(st.log, a.address);
        var put :=
          if a.kind.Write32? then st.log + [Write(a.address, a.value, false)]
          else st.log + [Read(a.address, before)] + [Write(a.address, Merge(before, a), true)];
        Step(Success, st.(log := put + [Read(a.address, bar.env.value(put, a.address))], started := true))
  }

  function Poll(bar: Bar, budget: nat, st: State, a: Action, waited: nat): Step
    requires waited <= a.timeoutMs
    decreases a.timeoutMs - waited
  {
    var r := ReadRegister(bar, st.log, a.address);
    var seen := st.(log := r.log);
    if r.status != Success then Step(r.status, seen)
    else if And32(r.value, a.mask) == a.value then Step(Success, seen)
    else if waited >= a.timeoutMs || !CanConsumeWait(st.wait, 1, budget) then Step(Timeout, seen)
    else Poll(bar, budget, seen.(log := seen.log + [Sleep(1)], wait := st.wait + 1), a, waited + 1)
  }

  function StartCpu(bar: Bar, st: State, a: Action): Step
  {
    var r := ReadRegister(bar, st.log, a.address);
    var seen := st.(log := r.log);
    if r.status != Success then Step(r.status, seen)
    else
      var resolved := ResolveStartCpu(a, r.value);
      if !resolved.valid then Step(NotPermitted, seen) else ConcreteWrite(bar, seen, resolved.action)
  }

  /** One action; block markers are the interpreter's business and do nothing here. */
  function RunAction(bar: Bar, budget: nat, st: State, a: Action): Step
  {
    match a.kind
    case Write32 => ConcreteWrite(bar, st, a)
    case MaskedWrite => ConcreteWrite(bar, st, a)
    case PollMaskEqual => Poll(bar, budget, st, a, 0)
    case StartCpuRespectAlias => StartCpu(bar, st, a)
    case DelayMilliseconds =>
      if !CanConsumeWait(st.wait, a.value, budget) then Step(Timeout, st)
      else Step(Success, st.(log := st.log + [Sleep(a.value)], wait := st.wait + a.value))
    case IfMaskEqualBegin => Step(Success, st)
    case EndIf => Step(Success, st)
  }

  /** An action interpreter over a device. What follows about whole lists holds for any of them. */
  datatype Machine = Machine(bar: Bar, act: (State, Action) -> Step)

  function Executor(bar: Bar, budget: nat): Machine
  {
    Machine(bar, (st: State, a: Action) => RunAction(bar, budget, st, a))
  }

  // ---- Structured meaning ----

  function RunBody(m: Machine, st: State, body: seq<Action>): Step
    requires forall a <- body :: !IsMarker(a)
    decreases |body|
  {
    if body == [] then Step(Success, st)
    else
      assert body[0] in body;
      var r := m.act(st, body[0]);
      if r.status != Success then r
      else RunBody(m, r.state.(pc := r.state.pc + 1), body[1..])
  }

  /** A program's meaning: a conditional reads its register once and runs or skips its block. */
  function RunProg(m: Machine, st: State, p: Prog): Step
    requires p.WellFormed()
    decreases p
  {
    match p
    case Halt => Step(Success, st)
    case Do(a, rest) =>
      var r := m.act(st, a);
      if r.status != Success then r
      else RunProg(m, r.state.(pc := r.state.pc + 1), rest)
    case Cond(test, body, rest) =>
      var r := ReadRegister(m.bar, st.log, test.address);
      var seen := st.(log := r.log);
      if r.status != Success then Step(r.status, seen)
      else if And32(r.value, test.mask) == test.value then
        var b := RunBody(m, seen.(pc := seen.pc + 1), body);
        if b.status != Success then b
        else RunProg(m, b.state.(pc := b.state.pc + 1), rest)
      else RunProg(m, seen.(pc := seen.pc + |body| + 2), rest)
  }

  // ---- The flat interpreter ----

  function Flat(m: Machine, st: State, skipping: bool, actions: seq<Action>): Step
    decreases |actions|
  {
    if actions == [] then Step(Success, st)
    else
      var a, tail := actions[0], actions[1..];
      if a.kind.EndIf? then Flat(m, st.(pc := st.pc + 1), false, tail)
      else if skipping then Flat(m, st.(pc := st.pc + 1), true, tail)
      else if a.kind.IfMaskEqualBegin? then
        var r := ReadRegister(m.bar, st.log, a.address);
        var seen := st.(log := r.log);
        if r.status != Success then Step(r.status, seen)
        else Flat(m, seen.(pc := seen.pc + 1), And32(r.value, a.mask) != a.value, tail)
      else
        var r := m.act(st, a);
        if r.status != Success then r
        else Flat(m, r.state.(pc := r.state.pc + 1), false, tail)
  }

  lemma {:induction false} FlatBody(m: Machine, st: State, body: seq<Action>, tail: seq<Action>)
    requires forall a <- body :: !IsMarker(a)
    ensures var b := RunBody(m, st, body);
      Flat(m, st, false, body + tail) ==
      if b.status != Success then b else Flat(m, b.state, false, tail)
    decreases |body|
  {
    if body == [] {
      assert body + tail == tail;
    } else {
      assert body[0] in body;
      assert (body + tail)[0] == body[0] && (body + tail)[1..] == body[1..] + tail;
      var r := m.act(st, body[0]);
      if r.status == Success {
        FlatBody(m, r.state.(pc := r.state.pc + 1), body[1..], tail);
      }
    }
  }

  lemma {:induction false} FlatSkip(m: Machine, st: State, body: seq<Action>, tail: seq<Action>)
    requires forall a <- body :: !IsMarker(a)
    ensures Flat(m, st, true, body + tail) ==
            Flat(m, st.(pc := st.pc + |body|), true, tail)
    decreases |body|
  {
    if body == [] {
      assert body + tail == tail;
    } else {
      assert body[0] in body;
      assert (body + tail)[0] == body[0] && (body + tail)[1..] == body[1..] + tail;
      FlatSkip(m, st.(pc := st.pc + 1), body[1..], tail);
    }
  }

  lemma FlatClose(m: Machine, st: State, skipping: bool, tail: seq<Action>)
    ensures Flat(m, st, skipping, [CLOSE] + tail) ==
            Flat(m, st.(pc := st.pc + 1), false, tail)
  {
    assert ([CLOSE] + tail)[0] == CLOSE && ([CLOSE] + tail)[1..] == tail;
  }

  /** One block of a flat list: its test is read once, and its body runs or is stepped over. */
  lemma FlatBlock(m: Machine, st: State, test: Action, body: seq<Action>, tail: seq<Action>)
    requires test.kind.IfMaskEqualBegin?
    requires forall a <- body :: !IsMarker(a)
    ensures var r := ReadRegister(m.bar, st.log, test.address);
      var entered := st.(log := r.log, pc := st.pc + 1);
      var b := RunBody(m, entered, body);
      Flat(m, st, false, [test] + body + [CLOSE] + tail) ==
      if r.status != Success then Step(r.status, st.(log := r.log))
      else if And32(r.value, test.mask) != test.value then
        Flat(m, entered.(pc := st.pc + |body| + 2), false, tail)
      else if b.status != Success then b
      else Flat(m, b.state.(pc := b.state.pc + 1), false, tail)
  {
    hide And32, ReadRegister, RunBody;
    var all := [test] + body + [CLOSE] + tail;
    assert all[0] == test && all[1..] == body + ([CLOSE] + tail);
    var r := ReadRegister(m.bar, st.log, test.address);
    var entered := st.(log := r.log, pc := st.pc + 1);
    if r.status == Success {
      if And32(r.value, test.mask) == test.value {
        FlatBody(m, entered, body, [CLOSE] + tail);
        FlatClose(m, RunBody(m, entered, body).state, false, tail);
      } else {
        FlatSkip(m, entered, body, [CLOSE] + tail);
        FlatClose(m, entered.(pc := entered.pc + |body|), true, tail);
      }
    }
  }

  /** The skip flag implements blocks: interpreting a flattened program is running the program. */
  lemma {:induction false} FlatRefinesProg(m: Machine, st: State, p: Prog)
    requires p.WellFormed()
    ensures Flat(m, st, false, p.Flatten()) == RunProg(m, st, p)
    decreases p
  {
    hide And32, RunBody;
    match p
    case Halt =>
    case Do(a, rest) =>
      assert p.Flatten()[0] == a && p.Flatten()[1..] == rest.Flatten();
      var r := m.act(st, a);
      if r.status == Success {
        FlatRefinesProg(m, r.state.(pc := r.state.pc + 1), rest);
      }
    case Cond(test, body, rest) =>
      FlatBlock(m, st, test, body, rest.Flatten());
      var r := ReadRegister(m.bar, st.log, test.address);
      var entered := st.(log := r.log, pc := st.pc + 1);
      if And32(r.value, test.mask) == test.value {
        var b := RunBody(m, entered, body);
        FlatRefinesProg(m, b.state.(pc := b.state.pc + 1), rest);
      } else {
        FlatRefinesProg(m, entered.(pc := st.pc + |body| + 2), rest);
      }
  }

  // ---- What every run keeps ----

  /** A logged write is legal when its register is on the allow-list and, a full one, carries no bit
      outside the register's writable mask; a merged one changes none relative to the read just before it. */
  predicate LegalWriteAt(log: Log, i: nat)
    requires i < |log|
  {
    log[i].Write? ==>
      && 0 <= log[i].address < 0x1_0000_0000
      && WritableBits(log[i].address).Some?
      && var bits := WritableBits(log[i].address).value;
      if log[i].merged then
        && i > 0 && log[i - 1].Read? && log[i - 1].address == log[i].address
        && AndNot32(log[i].value, bits) == AndNot32(log[i - 1].value, bits)
      else AndNot32(log[i].value, bits) == 0
  }

  predicate Legal(log: Log)
  {
    forall i :: 0 <= i < |log| ==> LegalWriteAt(log, i)
  }

  lemma LegalSnoc(log: Log, e: Event)
    requires Legal(log) && LegalWriteAt(log + [e], |log|)
    ensures Legal(log + [e])
  {
    forall i | 0 <= i < |log| ensures LegalWriteAt(log + [e], i) {
      assert LegalWriteAt(log, i);
    }
  }

  /** What one stretch of execution keeps: the log only grows, logged sleeps are exactly the time
      charged, the budget is respected, the started flag says whether anything was written, and
      every write is legal. */
  predicate Keeps(budget: nat, a: State, b: State)
  {
    && a.log <= b.log
    && SleepTotal(b.log) - SleepTotal(a.log) == b.wait - a.wait
    && a.wait <= b.wait
    && (a.wait <= budget ==> b.wait <= budget)
    && Writes(a.log) <= Writes(b.log)
    && (b.started <==> a.started || Writes(a.log) < Writes(b.log))
    && (Legal(a.log) ==> Legal(b.log))
  }

  lemma QuietStep(budget: nat, a: State, e: Event)
    requires e.Read? || e.Refused?
    ensures Keeps(budget, a, a.(log := a.log + [e]))
  {
    Snoc(a.log, e);
    if Legal(a.log) { LegalSnoc(a.log, e); }
  }

  lemma LegalWriteKeeps(budget: nat, st: State, e: Event)
    requires e.Write? && LegalWriteAt(st.log + [e], |st.log|)
    ensures Keeps(budget, st, st.(log := st.log + [e], started := true))
  {
    hide LegalWriteAt;
    Snoc(st.log, e);
    if Legal(st.log) { LegalSnoc(st.log, e); }
  }

  lemma ConcreteWriteKeeps(bar: Bar, budget: nat, st: State, a: Action)
    ensures Keeps(budget, st, ConcreteWrite(bar, st, a).state)
  {
    hide And32, AndNot32, Or32, WritableBits, Legal, Writes, SleepTotal;
    if Decide(a).Allowed? && (a.kind.Write32? || a.kind.MaskedWrite?) {
      AllowedWriteFits(a);
      if MapStatus(bar, st.log, a.address) != Success {
        QuietStep(budget, st, Refused(a.address));
      } else {
        var before := bar.env.value(st.log, a.address);
        MergePreservesOutside(before, a.value, a.mask, WritableBits(a.address).value);
        var seen := if a.kind.Write32? then st else st.(log := st.log + [Read(a.address, before)]);
        QuietStep(budget, st, Read(a.address, before));
        var e := Write(a.address, if a.kind.Write32? then a.value else Merge(before, a), a.kind.MaskedWrite?);
        LegalWriteKeeps(budget, seen, e);
        var put := seen.(log := seen.log + [e], started := true);
        QuietStep(budget, put, Read(a.address, bar.env.value(put.log, a.address)));
      }
    }
  }

  /** What an executed write does to the bits its own mask leaves out: they survive exactly in a merged
      write, or in a register that held none of them. */
  lemma BitsOutsideMask(bar: Bar, st: State, a: Action)
    requires ConcreteWrite(bar, st, a).status == Success
    ensures var log, at := ConcreteWrite(bar, st, a).state.log, |st.log| + if a.kind.MaskedWrite? then 1 else 0;
      var before := bar.env.value(st.log, a.address);
      && at < |log| && log[at].Write? && log[at].address == a.address
      && (AndNot32(log[at].value, a.mask) == AndNot32(before, a.mask) <==>
          a.kind.MaskedWrite? || AndNot32(before, a.mask) == 0)
  {
    hide And32, Or32, WritableBits;
    var before := bar.env.value(st.log, a.address);
    SubmaskRefl(a.mask);
    Submask32(a.mask, a.mask);
    MergePreservesOutside(before, a.value, a.mask, a.mask);
  }

  /** A device whose registers all read as all ones. */
  function OnesBar(): Bar
  {
    Bar(Env((log, address) => Success, (log, address) => MAX32, (log, offset) => SharedValue(MAX32)), 0x100_0000)
  }

  /** A permitted full write of a register's low bit that clears the 31 bits its mask leaves out. */
  lemma FullWriteIgnoresMask()
    ensures var a := Action(Write32, GSP_BASE + 0x40, 1, 1, 0);
      var log := ConcreteWrite(OnesBar(), State([], 0, false, 0), a).state.log;
      && Decide(a).Allowed? && |log| > 0 && log[0] == Write(a.address, 1, false)
      && AndNot32(log[0].value, a.mask) == 0 != AndNot32(MAX32, a.mask)
  {
    assert Submask(1, MAX32) && Submask(1, 1);
    Submask32(1, MAX32);
    Submask32(1, 1);
    assert Bit(MAX32, 1) && !Bit(1, 1);
    assert !BitsWithin(MAX32, 1);
    SubsetOfMask(MAX32, 1);
  }

  lemma SleepKeeps(budget: nat, st: State, ms: nat)
    requires CanConsumeWait(st.wait, ms, budget)
    ensures Keeps(budget, st, st.(log := st.log + [Sleep(ms)], wait := st.wait + ms))
  {
    Snoc(st.log, Sleep(ms));
    if Legal(st.log) { LegalSnoc(st.log, Sleep(ms)); }
  }

  lemma {:induction false} PollKeeps(bar: Bar, budget: nat, st: State, a: Action, waited: nat)
    requires waited <= a.timeoutMs
    ensures Keeps(budget, st, Poll(bar, budget, st, a, waited).state)
    decreases a.timeoutMs - waited
  {
    hide Legal, And32, Writes, SleepTotal;
    var r := ReadRegister(bar, st.log, a.address);
    var seen := st.(log := r.log);
    QuietStep(budget, st, r.log[|st.log|]);
    if r.status == Success && And32(r.value, a.mask) != a.value &&
       waited < a.timeoutMs && CanConsumeWait(st.wait, 1, budget) {
      SleepKeeps(budget, seen, 1);
      PollKeeps(bar, budget, seen.(log := seen.log + [Sleep(1)], wait := st.wait + 1), a, waited + 1);
    }
  }

  lemma ActionKeeps(bar: Bar, budget: nat, st: State, a: Action)
    ensures Keeps(budget, st, RunAction(bar, budget, st, a).state)
  {
    match a.kind
    case Write32 => ConcreteWriteKeeps(bar, budget, st, a);
    case MaskedWrite => ConcreteWriteKeeps(bar, budget, st, a);
    case PollMaskEqual => PollKeeps(bar, budget, st, a, 0);
    case DelayMilliseconds =>
      if CanConsumeWait(st.wait, a.value, budget) { SleepKeeps(budget, st, a.value); }
    case StartCpuRespectAlias =>
      var r := ReadRegister(bar, st.log, a.address);
      QuietStep(budget, st, r.log[|st.log|]);
      if r.status == Success && ResolveStartCpu(a, r.value).valid {
        ConcreteWriteKeeps(bar, budget, st.(log := r.log), ResolveStartCpu(a, r.value).action);
      }
    case IfMaskEqualBegin =>
    case EndIf =>
  }

  ghost predicate Sound(m: Machine, budget: nat)
  {
    forall st: State, a: Action :: Keeps(budget, st, m.act(st, a).state)
  }

  lemma {:induction false} BodyKeeps(m: Machine, budget: nat, st: State, body: seq<Action>)
    requires Sound(m, budget)
    requires forall a <- body :: !IsMarker(a)
    ensures Keeps(budget, st, RunBody(m, st, body).state)
    decreases |body|
  {
    hide Legal, Writes, SleepTotal;
    if body != [] {
      assert body[0] in body;
      var r := m.act(st, body[0]);
      assert Keeps(budget, st, r.state);
      if r.status == Success {
        var next := r.state.(pc := r.state.pc + 1);
        BodyKeeps(m, budget, next, body[1..]);
        KeepsTrans(budget, st, next, RunBody(m, next, body[1..]).state);
      }
    }
  }

  lemma KeepsTrans(budget: nat, a: State, b: State, c: State)
    requires Keeps(budget, a, b) && Keeps(budget, b, c)
    ensures Keeps(budget, a, c)
  {
  }

  /** The position in the list is no part of what is kept. */
  lemma PcIsFree(budget: nat, a: State, b: State, pc: nat)
    requires Keeps(budget, a, b)
    ensures Keeps(budget, a, b.(pc := pc))
  {
  }

  lemma {:induction false} ProgKeeps(m: Machine, budget: nat, st: State, p: Prog)
    requires Sound(m, budget) && p.WellFormed()
    ensures Keeps(budget, st, RunProg(m, st, p).state)
    decreases p
  {
    hide Keeps, And32;
    match p
    case Halt => NothingKeeps(budget, st);
    case Do(a, rest) =>
      var r := m.act(st, a);
      assert Keeps(budget, st, r.state);
      if r.status == Success {
        var next := r.state.(pc := r.state.pc + 1);
        PcIsFree(budget, st, r.state, next.pc);
        ProgKeeps(m, budget, next, rest);
        KeepsTrans(budget, st, next, RunProg(m, next, rest).state);
      }
    case Cond(test, body, rest) =>
      var r := ReadRegister(m.bar, st.log, test.address);
      var seen := st.(log := r.log);
      TestKeeps(m.bar, budget, st, test.address);
      if r.status == Success {
        if And32(r.value, test.mask) == test.value {
          var entered := seen.(pc := seen.pc + 1);
          PcIsFree(budget, st, seen, entered.pc);
          BodyKeeps(m, budget, entered, body);
          var b := RunBody(m, entered, body);
          KeepsTrans(budget, st, entered, b.state);
          if b.status == Success {
            var next := b.state.(pc := b.state.pc + 1);
            PcIsFree(budget, st, b.state, next.pc);
            ProgKeeps(m, budget, next, rest);
            KeepsTrans(budget, st, next, RunProg(m, next, rest).state);
          }
        } else {
          var next := seen.(pc := seen.pc + |body| + 2);
          PcIsFree(budget, st, seen, next.pc);
          ProgKeeps(m, budget, next, rest);
          KeepsTrans(budget, st, next, RunProg(m, next, rest).state);
        }
      }
  }

  lemma NothingKeeps(budget: nat, st: State)
    ensures Keeps(budget, st, st)
  {
  }

  lemma TestKeeps(bar: Bar, budget: nat, st: State, address: nat)
    ensures Keeps(budget, st, st.(log := ReadRegister(bar, st.log, address).log))
  {
    hide Legal, Writes, SleepTotal;
    QuietStep(budget, st, ReadRegister(bar, st.log, address).log[|st.log|]);
  }

  // ---- What one action leaves in the log ----

  /** Bit by bit, a merged word is the value under the mask and the old word elsewhere. */
  lemma MergeBits(before: u32, a: Action)
    ensures Merges(Merge(before, a), before, a.mask, a.value)
  {
    var kept, put := AndNot32(before, a.mask), And32(a.value, a.mask);
    Bits32(AndNot, before, a.mask);
    Bits32(And, a.value, a.mask);
    Bits32(Or, kept, put);
  }

  /** Every successful concrete write, bit by bit. */
  lemma ConcreteLeaves(bar: Bar, st: State, a: Action)
    requires ConcreteWrite(bar, st, a).status == Success
    ensures var r := ConcreteWrite(bar, st, a);
      && st.log <= r.state.log
      && (if a.kind.Write32? then PutLeaves(a.address, a.value, Since(st, r.state))
          else a.kind.MaskedWrite? && ChangeLeaves(a.address, a.mask, a.value, Since(st, r.state)))
  {
    hide Decide, Merge;
    MergeBits(bar.env.value(st.log, a.address), a);
  }

  /** How a poll may end within `limit` sleeps: matched, given up after them or on the budget, or refused by
      the device. */
  ghost predicate PollEnds(budget: nat, st: State, a: Action, limit: nat, r: Step)
  {
    && st.log <= r.state.log
    && var log := Since(st, r.state);
    var n := |log| / 2;
    && |log| % 2 == 1 && n <= limit && Missed(a.address, a.mask, a.value, log, n)
    && r.state.wait == st.wait + n
    && EndsWith(a, log[|log| - 1], r.status, n == limit || r.state.wait >= budget)
  }

  ghost predicate EndsWith(a: Action, last: Event, status: Status, spent: bool)
  {
    if status == Success then ReadOf(last, a.address) && Matches(last.value, a.mask, a.value)
    else if last.Read? then status == Timeout && spent && last.address == a.address && !Matches(last.value, a.mask, a.value)
    else last == Refused(a.address)
  }

  lemma {:induction false} PollTrace(bar: Bar, budget: nat, st: State, a: Action, waited: nat)
    requires waited <= a.timeoutMs
    ensures PollEnds(budget, st, a, a.timeoutMs - waited, Poll(bar, budget, st, a, waited))
    decreases a.timeoutMs - waited
  {
    hide And32, Matches, PollEnds;
    var read := ReadRegister(bar, st.log, a.address);
    var seen := st.(log := read.log);
    MatchesIs(read.value, a.mask, a.value);
    var r := Poll(bar, budget, st, a, waited);
    if read.status == Success && And32(read.value, a.mask) != a.value && waited < a.timeoutMs && CanConsumeWait(st.wait, 1, budget) {
      var slept := seen.(log := seen.log + [Sleep(1)], wait := st.wait + 1);
      PollTrace(bar, budget, slept, a, waited + 1);
      PollLater(budget, st, slept, a, read.value, a.timeoutMs - waited, r);
    } else {
      PollNow(budget, st, a, a.timeoutMs - waited, r, read.log[|st.log|]);
    }
  }

  lemma PollNow(budget: nat, st: State, a: Action, limit: nat, r: Step, e: Event)
    requires r.state.log == st.log + [e] && r.state.wait == st.wait
    requires EndsWith(a, e, r.status, limit == 0 || st.wait >= budget)
    ensures PollEnds(budget, st, a, limit, r)
  {
    hide Matches;
  }

  lemma PollLater(budget: nat, st: State, slept: State, a: Action, seen: u32, limit: nat, r: Step)
    requires slept.log == st.log + [Read(a.address, seen), Sleep(1)] && slept.wait == st.wait + 1
    requires !Matches(seen, a.mask, a.value) && limit > 0 && PollEnds(budget, slept, a, limit - 1, r)
    ensures PollEnds(budget, st, a, limit, r)
  {
    hide Matches, Missed, EndsWith;
    var log, rest := Since(st, r.state), Since(slept, r.state);
    assert log == [Read(a.address, seen), Sleep(1)] + rest;
    MissedOnce(a.address, a.mask, a.value, seen, rest, |rest| / 2);
  }

  lemma MissedOnce(address: u32, mask: u32, value: u32, seen: u32, rest: Log, n: nat)
    requires !Matches(seen, mask, value) && Missed(address, mask, value, rest, n)
    ensures Missed(address, mask, value, [Read(address, seen), Sleep(1)] + rest, n + 1)
  {
    hide Matches;
    var log := [Read(address, seen), Sleep(1)] + rest;
    forall j | 0 <= j < n + 1
      ensures ReadOf(log[2 * j], address) && !Matches(log[2 * j].value, mask, value) && log[2 * j + 1] == Sleep(1)
    {
      if j > 0 { assert log[2 * j] == rest[2 * (j - 1)] && log[2 * j + 1] == rest[2 * (j - 1) + 1]; }
    }
  }

  lemma BitSix(x: u32)
    ensures Bit(x, 6) <==> x / 64 % 2 == 1
  {
    BitIs(x, 6);
  }

  lemma StartTrace(bar: Bar, st: State, a: Action)
    requires StartCpu(bar, st, a).status == Success
    ensures var r := StartCpu(bar, st, a);
      st.log <= r.state.log && StartLeaves(a.address, Since(st, r.state))
  {
    hide ConcreteWrite, Decide, Merges, ResolveStartCpu, Bit;
    var read := ReadRegister(bar, st.log, a.address);
    var seen := st.(log := read.log);
    var c := ResolveStartCpu(a, read.value).action;
    var r := ConcreteWrite(bar, seen, c);
    BitSix(read.value);
    ResolvedIs(a, read.value);
    ConcreteLeaves(bar, seen, c);
    assert Since(st, r.state)[1..] == Since(seen, r.state);
  }

  lemma ResolvedIs(a: Action, cpuCtl: u32)
    requires ResolveStartCpu(a, cpuCtl).valid
    ensures a.address + 0x30 <= MAX32
    ensures ResolveStartCpu(a, cpuCtl).action ==
            if Bit(cpuCtl, 6) then Action(Write32, a.address + 0x30, 2, 2, 0) else Action(MaskedWrite, a.address, 2, 2, 0)
  {
    hide Bit;
  }

  /** One successful action. */
  lemma ActionLeaves(bar: Bar, budget: nat, st: State, a: Action)
    requires RunAction(bar, budget, st, a).status == Success
    ensures var r := RunAction(bar, budget, st, a);
      st.log <= r.state.log && Leaves(a, Since(st, r.state))
  {
    hide ConcreteWrite, Poll, StartCpu, Merges, Matches, StartLeaves, Missed;
    match a.kind
    case Write32 => ConcreteLeaves(bar, st, a);
    case MaskedWrite => ConcreteLeaves(bar, st, a);
    case PollMaskEqual => PollTrace(bar, budget, st, a, 0);
    case StartCpuRespectAlias => StartTrace(bar, st, a);
    case _ =>
  }

  // ---- The executor ----

  datatype ExecutionResult = ExecutionResult(
    status: Status,
    actionIndex: nat,
    actionsCompleted: nat,
    totalWaitMilliseconds: nat,
    hardwareActionsStarted: bool)

  function Report(s: Step): ExecutionResult
  {
    ExecutionResult(s.status, s.state.pc, s.state.pc, s.state.wait, s.state.started)
  }

  function Run(bar: Bar, log: Log, budget: nat, actions: seq<Action>): Step
    requires Accepted(actions)
  {
    AcceptedIsStructured(actions);
    RunProg(Executor(bar, budget), State(log, 0, false, 0), Parse(actions))
  }

  /** The executor of a whole list, for every environment. */
  lemma RunIsSafe(bar: Bar, log: Log, budget: nat, actions: seq<Action>)
    requires Accepted(actions)
    ensures var r := Run(bar, log, budget, actions);
      && log <= r.state.log
      && r.state.wait == SleepTotal(r.state.log) - SleepTotal(log) <= budget
      && (r.state.started <==> Writes(log) < Writes(r.state.log))
      && Writes(log) <= Writes(r.state.log)
      && (Legal(log) ==> Legal(r.state.log))
  {
    AcceptedIsStructured(actions);
    forall st: State, a: Action ensures Keeps(budget, st, Executor(bar, budget).act(st, a).state) {
      ActionKeeps(bar, budget, st, a);
    }
    ProgKeeps(Executor(bar, budget), budget, State(log, 0, false, 0), Parse(actions));
  }

  method ExecuteConcreteWrite(gpu: Gpu, a: Action, ghost st: State) returns (status: Status)
    requires st.log == gpu.log
    modifies gpu`log
    ensures var r := ConcreteWrite(gpu.bar, st, a);
      && status == r.status
      && gpu.log == r.state.log
      && r.state == st.(log := gpu.log, started := st.started || status == Success)
    ensures old(gpu.log) <= gpu.log
    ensures status == Success ==> Leaves(a, gpu.log[|old(gpu.log)|..])
  {
    if ConcreteWrite(gpu.bar, st, a).status == Success { ConcreteLeaves(gpu.bar, st, a); }
    if !Decide(a).Allowed? || !(a.kind.Write32? || a.kind.MaskedWrite?) {
      return NotPermitted;
    }
    status := gpu.Map(a.address);
    if status == Success {
      if a.kind.Write32? {
        gpu.Store(a.address, a.value, false);
      } else {
        var before := gpu.Load(a.address);
        gpu.Store(a.address, Merge(before, a), true);
      }
      var _ := gpu.Load(a.address);
    }
  }

  method ExecutePoll(gpu: Gpu, a: Action, total: nat, budget: nat, ghost st: State)
    returns (status: Status, waitedTotal: nat)
    requires st.log == gpu.log && st.wait == total
    modifies gpu`log
    ensures Poll(gpu.bar, budget, st, a, 0) == Step(status, st.(log := gpu.log, wait := waitedTotal))
    ensures PollEnds(budget, st, a, a.timeoutMs, Step(status, st.(log := gpu.log, wait := waitedTotal)))
  {
    hide PollEnds, And32;
    PollTrace(gpu.bar, budget, st, a, 0);
    waitedTotal := total;
    var waited := 0;
    while true
      invariant waited <= a.timeoutMs
      invariant Poll(gpu.bar, budget, st, a, 0) ==
                Poll(gpu.bar, budget, st.(log := gpu.log, wait := waitedTotal), a, waited)
      decreases a.timeoutMs - waited
    {
      var value;
      status, value := gpu.Fetch(a.address);
      if status != Success {
        return;
      }
      if And32(value, a.mask) == a.value {
        return;
      }
      if waited >= a.timeoutMs || !CanConsumeWait(waitedTotal, 1, budget) {
        status := Timeout;
        return;
      }
      gpu.Pause(1);
      waited := waited + 1;
      waitedTotal := waitedTotal + 1;
    }
  }

  method ExecuteStart(gpu: Gpu, a: Action, ghost st: State) returns (status: Status)
    requires st.log == gpu.log
    modifies gpu`log
    ensures StartCpu(gpu.bar, st, a) ==
            Step(status, st.(log := gpu.log, started := st.started || status == Success))
    ensures old(gpu.log) <= gpu.log
    ensures status == Success ==> StartLeaves(a.address, gpu.log[|old(gpu.log)|..])
  {
    if StartCpu(gpu.bar, st, a).status == Success { StartTrace(gpu.bar, st, a); }
    var cpuCtl;
    status, cpuCtl := gpu.Fetch(a.address);
    if status == Success {
      var resolved := ResolveStartCpu(a, cpuCtl);
      if !resolved.valid {
        status := NotPermitted;
      } else {
        status := ExecuteConcreteWrite(gpu, resolved.action, st.(log := gpu.log));
      }
    }
  }

  method ExecuteAction(gpu: Gpu, a: Action, total: nat, budget: nat, ghost st: State)
    returns (status: Status, wait: nat, wrote: bool)
    requires !IsMarker(a)
    requires st.log == gpu.log && st.wait == total
    modifies gpu`log
    ensures RunAction(gpu.bar, budget, st, a) ==
            Step(status, st.(log := gpu.log, wait := wait, started := st.started || wrote))
    ensures a.kind.DelayMilliseconds? ==>
              if total + a.value <= budget then status == Success && wait == total + a.value && gpu.log == old(gpu.log) + [Sleep(a.value)]
              else status == Timeout && wait == total && gpu.log == old(gpu.log)
    ensures old(gpu.log) <= gpu.log
    ensures status == Success ==> Leaves(a, gpu.log[|old(gpu.log)|..])
  {
    hide Leaves, PollEnds, StartLeaves, ConcreteWrite, Poll, StartCpu, Legal, Writes, SleepTotal;
    ActionKeeps(gpu.bar, budget, st, a);
    if RunAction(gpu.bar, budget, st, a).status == Success { ActionLeaves(gpu.bar, budget, st, a); }
    status, wait, wrote := Success, total, false;
    match a.kind {
      case Write32 =>
        status := ExecuteConcreteWrite(gpu, a, st);
        wrote := status == Success;
      case MaskedWrite =>
        status := ExecuteConcreteWrite(gpu, a, st);
        wrote := status == Success;
      case PollMaskEqual =>
        status, wait := ExecutePoll(gpu, a, total, budget, st);
      case DelayMilliseconds =>
        if !CanConsumeWait(total, a.value, budget) {
          status := Timeout;
        } else {
          gpu.Pause(a.value);
          wait := total + a.value;
        }
      case StartCpuRespectAlias =>
        status := ExecuteStart(gpu, a, st);
        wrote := status == Success;
    }
  }

  /** What one action of a flat list leads to. */
  datatype Dispatched = Dispatched(status: Status, state: State, skipping: bool)

  function Dispatch(m: Machine, st: State, skipping: bool, a: Action): Dispatched
  {
    var next := st.(pc := st.pc + 1);
    if a.kind.EndIf? then Dispatched(Success, next, false)
    else if skipping then Dispatched(Success, next, true)
    else if a.kind.IfMaskEqualBegin? then
      var r := ReadRegister(m.bar, st.log, a.address);
      if r.status != Success then Dispatched(r.status, st.(log := r.log), true)
      else Dispatched(Success, next.(log := r.log), And32(r.value, a.mask) != a.value)
    else
      var r := m.act(st, a);
      if r.status != Success then Dispatched(r.status, r.state, false)
      else Dispatched(Success, r.state.(pc := r.state.pc + 1), false)
  }

  lemma FlatAt(m: Machine, st: State, skipping: bool, actions: seq<Action>, i: nat)
    requires i < |actions|
    ensures var d := Dispatch(m, st, skipping, actions[i]);
      Flat(m, st, skipping, actions[i..]) ==
      if d.status != Success then Step(d.status, d.state) else Flat(m, d.state, d.skipping, actions[i + 1..])
  {
    hide And32, ReadRegister;
    assert actions[i..][0] == actions[i] && actions[i..][1..] == actions[i + 1..];
  }

  lemma FlatEnd(m: Machine, st: State, skipping: bool)
    ensures Flat(m, st, skipping, []) == Step(Success, st)
  {
  }

  /** One turn of the interpreter: markers steer, skipped actions pass, the others act. */
  method DispatchAction(gpu: Gpu, a: Action, skipping: bool, wait: nat, started: bool, budget: nat, ghost st: State)
    returns (status: Status, skipping': bool, wait': nat, started': bool)
    requires st == State(gpu.log, wait, started, st.pc)
    modifies gpu`log
    ensures var d := Dispatch(Executor(gpu.bar, budget), st, skipping, a);
      && status == d.status
      && d.state == State(gpu.log, wait', started', if status == Success then st.pc + 1 else st.pc)
      && (status == Success ==> skipping' == d.skipping)
  {
    hide RunAction, And32, ReadRegister;
    status, skipping', wait', started' := Success, skipping, wait, started;
    if skipping && !a.kind.EndIf? {
    } else if a.kind.EndIf? {
      skipping' := false;
    } else if a.kind.IfMaskEqualBegin? {
      var value;
      status, value := gpu.Fetch(a.address);
      skipping' := And32(value, a.mask) != a.value;
    } else {
      var wrote;
      status, wait', wrote := ExecuteAction(gpu, a, wait, budget, st);
      started' := started || wrote;
    }
  }

  /** The interpreter loop over an accepted list. */
  method Interpret(gpu: Gpu, actions: seq<Action>, budget: nat) returns (out: ExecutionResult)
    requires Accepted(actions)
    modifies gpu`log
    ensures var r := Run(gpu.bar, old(gpu.log), budget, actions);
      out == Report(r) && gpu.log == r.state.log
  {
    hide RunAction, RunProg, And32, Accepted, Flat, ReadRegister, Dispatch, Executor;
    ghost var m := Executor(gpu.bar, budget);
    ghost var st := State(gpu.log, 0, false, 0);
    AcceptedIsStructured(actions);
    FlatRefinesProg(m, st, Parse(actions));
    ghost var whole := Flat(m, st, false, actions);

    var skipping, started, i := false, false, 0;
    var wait: nat := 0;
    assert actions[0..] == actions;
    while i < |actions|
      invariant 0 <= i <= |actions|
      invariant st == State(gpu.log, wait, started, i)
      invariant whole == Flat(m, st, skipping, actions[i..])
    {
      FlatAt(m, st, skipping, actions, i);
      var status;
      status, skipping, wait, started := DispatchAction(gpu, actions[i], skipping, wait, started, budget, st);
      if status != Success {
        return ExecutionResult(status, i, i, wait, started);
      }
      i := i + 1;
      st := State(gpu.log, wait, started, i);
    }
    FlatEnd(m, st, skipping);
    assert actions[i..] == [];
    out := ExecutionResult(Success, i, i, wait, started);
  }

  /** Executes a plan after auditing it. On an accepted plan the log and the report are those of
      the structured program the plan flattens; nothing is touched in any other case. */
  method ExecuteFalconPlan(gpu: Gpu?, plan: Plan, writesEnabled: bool, budget: nat)
    returns (out: ExecutionResult)
    modifies if gpu == null then {} else {gpu}
    ensures gpu != null && (!writesEnabled || gpu.bar.size == 0 || budget == 0 || !plan.valid || !Accepted(plan.actions)) ==>
              gpu.log == old(gpu.log)
    ensures !writesEnabled ==> out == ExecutionResult(NotPermitted, 0, 0, 0, false)
    ensures writesEnabled && (gpu == null || gpu.bar.size == 0 || budget == 0) ==>
              out == ExecutionResult(BadArgument, 0, 0, 0, false)
    ensures writesEnabled && gpu != null && gpu.bar.size != 0 && budget != 0 ==>
              if plan.valid && Accepted(plan.actions) then
                var r := Run(gpu.bar, old(gpu.log), budget, plan.actions);
                out == Report(r) && gpu.log == r.state.log
              else
                && out == ExecutionResult(NotPermitted, out.actionIndex, 0, 0, false)
                && (plan.valid ==> exists why :: FirstDenial(plan.actions, out.actionIndex, why))
  {
    if !writesEnabled {
      return ExecutionResult(NotPermitted, 0, 0, 0, false);
    }
    if gpu == null || gpu.bar.size == 0 || budget == 0 {
      return ExecutionResult(BadArgument, 0, 0, 0, false);
    }
    var report := CheckPlanPolicy(plan);
    if !report.valid {
      return ExecutionResult(NotPermitted, report.firstDeniedIndex, 0, 0, false);
    }
    out := Interpret(gpu, plan.actions, budget);
  }
}
