/** What a device log says, read without the executor: the events that each action of a plan leaves when it
    succeeds, bit by bit, and the registers' last values. */
module FalconLog {
  import opened Words
  import opened Wrappers
  import opened Falcon
  import opened Mmio

  /** The bits under `mask` read as `value`, which has none elsewhere. */
  ghost predicate Matches(seen: u32, mask: u32, value: u32)
  {
    forall i :: 0 <= i < 32 ==> (Bit(seen, i) && Bit(mask, i)) == Bit(value, i)
  }

  /** `stored` takes its bits from `value` under `mask` and from `before` elsewhere. */
  ghost predicate Merges(stored: u32, before: u32, mask: u32, value: u32)
  {
    forall i :: 0 <= i < 32 ==> Bit(stored, i) == if Bit(mask, i) then Bit(value, i) else Bit(before, i)
  }

  predicate ReadOf(e: Event, address: nat) { e.Read? && e.address == address }

  /** A full write and the read that orders it. */
  predicate PutLeaves(address: u32, value: u32, log: Log)
  {
    |log| == 2 && log[0] == Write(address, value, false) && ReadOf(log[1], address)
  }

  /** A read, the merged write, and the read that orders it. */
  ghost predicate ChangeLeaves(address: u32, mask: u32, value: u32, log: Log)
  {
    && |log| == 3 && ReadOf(log[0], address) && ReadOf(log[2], address)
    && log[1].Write? && log[1].address == address && log[1].merged
    && Merges(log[1].value, log[0].value, mask, value)
  }

  /** The misses of a bounded wait: `n` readings that do not match, each followed by a millisecond's sleep. */
  ghost predicate Missed(address: u32, mask: u32, value: u32, log: Log, n: nat)
  {
    && |log| >= 2 * n
    && forall j :: 0 <= j < n ==>
         ReadOf(log[2 * j], address) && !Matches(log[2 * j].value, mask, value) && log[2 * j + 1] == Sleep(1)
  }

  /** A poll that ended well: misses within the time limit, then a reading that matches. */
  ghost predicate PollLeaves(address: u32, mask: u32, value: u32, timeout: nat, log: Log)
  {
    && |log| % 2 == 1 && |log| / 2 <= timeout
    && Missed(address, mask, value, log, |log| / 2)
    && ReadOf(log[|log| - 1], address) && Matches(log[|log| - 1].value, mask, value)
  }

  /** The CPU start: where bit 6 of CPUCTL is set the alias register gets bit 1 alone, otherwise bit 1 is
      merged into CPUCTL. */
  ghost predicate StartLeaves(address: u32, log: Log)
  {
    && |log| > 0 && ReadOf(log[0], address)
    && if log[0].value / 64 % 2 == 1 then address + 0x30 <= MAX32 && PutLeaves(address + 0x30, 2, log[1..])
       else ChangeLeaves(address, 2, 2, log[1..])
  }

  /** The events a successful action leaves. */
  ghost predicate Leaves(a: Action, log: Log)
  {
    match a.kind
    case Write32 => PutLeaves(a.address, a.value, log)
    case MaskedWrite => ChangeLeaves(a.address, a.mask, a.value, log)
    case PollMaskEqual => PollLeaves(a.address, a.mask, a.value, a.timeoutMs, log)
    case DelayMilliseconds => log == [Sleep(a.value)]
    case StartCpuRespectAlias => StartLeaves(a.address, log)
    case IfMaskEqualBegin => log == []
    case EndIf => log == []
  }

  /** Actions one after the other. */
  ghost predicate ListLeaves(actions: seq<Action>, log: Log)
    decreases |actions|
  {
    if actions == [] then log == []
    else exists k :: 0 <= k <= |log| && Leaves(actions[0], log[..k]) && ListLeaves(actions[1..], log[k..])
  }

  /** A program: a block's test is one reading, and its body is there exactly when that reading matches. */
  ghost predicate ProgLeaves(p: Prog, log: Log)
    decreases p
  {
    match p
    case Halt => log == []
    case Do(a, rest) => exists k :: 0 <= k <= |log| && Leaves(a, log[..k]) && ProgLeaves(rest, log[k..])
    case Cond(test, body, rest) =>
      && |log| > 0 && ReadOf(log[0], test.address)
      && if Matches(log[0].value, test.mask, test.value) then
           exists k :: 1 <= k <= |log| && ListLeaves(body, log[1..k]) && ProgLeaves(rest, log[k..])
         else ProgLeaves(rest, log[1..])
  }

  // ---- Bits ----

  /** The executor's test is the bitwise one. */
  lemma MatchesIs(seen: u32, mask: u32, value: u32)
    ensures And32(seen, mask) == value <==> Matches(seen, mask, value)
  {
    Bits32(And, seen, mask);
    if Matches(seen, mask, value) {
      Equal32(And32(seen, mask), value);
    }
  }

  /** A match under the full mask is equality. */
  lemma FullMatch(seen: u32, value: u32)
    requires Matches(seen, MAX32, value)
    ensures seen == value
  {
    forall i | 0 <= i < 32 ensures Bit(seen, i) == Bit(value, i) { FullBits(i); }
    Equal32(seen, value);
  }

  // ---- Lists ----

  lemma {:induction false} ListSplit(xs: seq<Action>, ys: seq<Action>, log: Log) returns (k: nat)
    requires ListLeaves(xs + ys, log)
    ensures k <= |log| && ListLeaves(xs, log[..k]) && ListLeaves(ys, log[k..])
    decreases |xs|
  {
    hide Leaves;
    if xs == [] {
      k := 0;
      assert xs + ys == ys && log[0..] == log;
    } else {
      assert (xs + ys)[0] == xs[0] && (xs + ys)[1..] == xs[1..] + ys;
      var i :| 0 <= i <= |log| && Leaves(xs[0], log[..i]) && ListLeaves(xs[1..] + ys, log[i..]);
      var j := ListSplit(xs[1..], ys, log[i..]);
      k := i + j;
      assert log[i..][..j] == log[..k][i..] && log[i..][j..] == log[k..] && log[..k][..i] == log[..i];
    }
  }

  lemma Peel(actions: seq<Action>, log: Log) returns (k: nat)
    requires actions != [] && ListLeaves(actions, log)
    ensures k <= |log| && Leaves(actions[0], log[..k]) && ListLeaves(actions[1..], log[k..])
  {
    hide Leaves;
    k :| 0 <= k <= |log| && Leaves(actions[0], log[..k]) && ListLeaves(actions[1..], log[k..]);
  }

  lemma {:induction false} PlainProg(actions: seq<Action>, log: Log)
    requires forall a <- actions :: !IsMarker(a)
    requires ProgLeaves(Parse(actions), log)
    ensures ListLeaves(actions, log)
    decreases |actions|
  {
    hide Leaves;
    if actions != [] {
      assert actions[0] in actions;
      var k :| 0 <= k <= |log| && Leaves(actions[0], log[..k]) && ProgLeaves(Parse(actions[1..]), log[k..]);
      PlainProg(actions[1..], log[k..]);
    }
  }

  // ---- The writes of a log ----

  /** No write. */
  predicate Quiet(log: Log) { forall i :: 0 <= i < |log| ==> !log[i].Write? }

  /** The last value written to an address. */
  function Last(log: Log, address: nat): Option<u32>
    decreases |log|
  {
    if log == [] then None
    else
      var e := log[|log| - 1];
      if e.Write? && e.address == address then Some(e.value) else Last(log[..|log| - 1], address)
  }

  /** No write to an address. */
  predicate Spares(log: Log, address: nat) { forall i :: 0 <= i < |log| && log[i].Write? ==> log[i].address != address }

  lemma {:induction false} LastJoin(xs: Log, ys: Log, address: nat)
    ensures Last(xs + ys, address) == if Last(ys, address).Some? then Last(ys, address) else Last(xs, address)
    decreases |ys|
  {
    if ys == [] {
      assert xs + ys == xs;
    } else {
      assert (xs + ys)[..|xs + ys| - 1] == xs + ys[..|ys| - 1];
      LastJoin(xs, ys[..|ys| - 1], address);
    }
  }

  lemma {:induction false} SparesLast(log: Log, address: nat)
    requires Spares(log, address)
    ensures Last(log, address) == None
    decreases |log|
  {
    if log != [] {
      var init := log[..|log| - 1];
      assert Spares(init, address) by { assert forall i :: 0 <= i < |init| ==> init[i] == log[i]; }
      SparesLast(init, address);
    }
  }

  /** The addresses an action may write. */
  function Targets(a: Action): set<nat>
  {
    match a.kind
    case Write32 => {a.address}
    case MaskedWrite => {a.address}
    case StartCpuRespectAlias => {a.address, a.address + 0x30}
    case _ => {}
  }

  predicate AllTarget(actions: seq<Action>, region: iset<nat>)
  {
    forall a <- actions :: forall x <- Targets(a) :: x in region
  }

  /** Every write of a log goes into a region. */
  predicate WritesIn(log: Log, region: iset<nat>)
  {
    forall i :: 0 <= i < |log| && log[i].Write? ==> log[i].address in region
  }

  lemma WritesInJoin(log: Log, k: nat, region: iset<nat>)
    requires k <= |log| && WritesIn(log[..k], region) && WritesIn(log[k..], region)
    ensures WritesIn(log, region)
  {
    forall i | 0 <= i < |log| && log[i].Write? ensures log[i].address in region {
      assert log[i] == if i < k then log[..k][i] else log[k..][i - k];
    }
  }

  lemma ActionTargets(a: Action, log: Log, region: iset<nat>)
    requires Leaves(a, log) && forall x <- Targets(a) :: x in region
    ensures WritesIn(log, region)
  {
    hide Matches, Merges;
    if a.kind.PollMaskEqual? {
      forall i | 0 <= i < |log| ensures !log[i].Write? {
        if i < |log| - 1 {
          var j := i / 2;
          assert ReadOf(log[2 * j], a.address) && log[2 * j + 1] == Sleep(1);
        }
      }
    }
  }

  lemma {:induction false} ListTargets(actions: seq<Action>, log: Log, region: iset<nat>)
    requires ListLeaves(actions, log) && AllTarget(actions, region)
    ensures WritesIn(log, region)
    decreases |actions|
  {
    hide Leaves, Targets;
    if actions != [] {
      var k := Peel(actions, log);
      assert actions[0] in actions;
      ActionTargets(actions[0], log[..k], region);
      ListTargets(actions[1..], log[k..], region);
      WritesInJoin(log, k, region);
    }
  }

  /** What a program writes, its actions may write. */
  lemma {:induction false} ProgTargets(p: Prog, log: Log, region: iset<nat>)
    requires p.WellFormed() && ProgLeaves(p, log) && AllTarget(p.Flatten(), region)
    ensures WritesIn(log, region)
    decreases p
  {
    hide Leaves, ListLeaves, Targets, Matches;
    match p
    case Halt =>
    case Do(a, rest) =>
      assert a in p.Flatten();
      var k :| 0 <= k <= |log| && Leaves(a, log[..k]) && ProgLeaves(rest, log[k..]);
      ActionTargets(a, log[..k], region);
      ProgTargets(rest, log[k..], region);
      WritesInJoin(log, k, region);
    case Cond(test, body, rest) =>
      assert forall a <- body :: a in p.Flatten();
      assert forall a <- rest.Flatten() :: a in p.Flatten();
      if Matches(log[0].value, test.mask, test.value) {
        var k :| 1 <= k <= |log| && ListLeaves(body, log[1..k]) && ProgLeaves(rest, log[k..]);
        ListTargets(body, log[1..k], region);
        ProgTargets(rest, log[k..], region);
        assert log[..k] == [log[0]] + log[1..k];
        WritesInJoin(log, k, region);
      } else {
        ProgTargets(rest, log[1..], region);
      }
  }

  /** The last write to an address, found. */
  lemma {:induction false} LastAt(log: Log, i: nat, address: nat)
    requires i < |log| && log[i].Write? && log[i].address == address && Spares(log[i + 1..], address)
    ensures Last(log, address) == Some(log[i].value)
  {
    LastJoin(log[..i + 1], log[i + 1..], address);
    assert log == log[..i + 1] + log[i + 1..];
    SparesLast(log[i + 1..], address);
  }
}
