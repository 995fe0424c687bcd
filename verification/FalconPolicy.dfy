/** The static register allow-list for Falcon actions, and the plan audit built on it. */
module FalconPolicy {
  import opened Words
  import opened Wrappers
  import opened Falcon

  const GSP_BASE: u32 := 0x0011_0000
  const SEC2_BASE: u32 := 0x0084_0000
  const CPUCTL: u32 := 0x100
  const CPUCTL_ALIAS: u32 := 0x130
  const START_MASK: u32 := 0x2
  const ALIAS_ENABLE_BIT: nat := 6

  datatype Decision =
    | Allowed
    | RequiresStartCpuAliasSupport
    | DeniedUnknownAddress
    | DeniedMask
    | DeniedValue
    | DeniedTimeout
    | DeniedControlFlow
  {
    predicate Permits() { Allowed? || RequiresStartCpuAliasSupport? }
  }

  /** Writable bits of a register, by offset from its engine. */
  function WriteMask(relative: u32): Option<u32>
  {
    match relative
    case 0x03C0 => Some(0x1)
    case 0x1668 => Some(0x111)
    case 0x0080 => Some(MAX32)
    case 0x0084 => Some(MAX32)
    case 0x0624 => Some(0x80)
    case 0x010C => Some(0x7)
    case 0x0600 => Some(0x7)
    case 0x0110 => Some(MAX32)
    case 0x0128 => Some(0x1FF)
    case 0x0114 => Some(0x00FF_FFFF)
    case 0x011C => Some(MAX32)
    case 0x0118 => Some(0x0001_773F)
    case 0x1210 => Some(MAX32)
    case 0x119C => Some(MAX32)
    case 0x1198 => Some(0xFF)
    case 0x1180 => Some(0xFF)
    case 0x0104 => Some(MAX32)
    case 0x0040 => Some(MAX32)
    case 0x0044 => Some(MAX32)
    case 0x0100 => Some(START_MASK)
    case 0x0130 => Some(START_MASK)
    case _ => None
  }

  /** Bits of a register that a poll or a condition may test. */
  function ReadMask(relative: u32): Option<u32>
  {
    match relative
    case 0x00F4 => Some(0x1400)
    case 0x0118 => Some(0x3)
    case 0x1668 => Some(0x111)
    case 0x0100 => Some(MAX32)
    case _ => None
  }

  function DecodeEngineAddress(address: u32): Option<u32>
  {
    if GSP_BASE <= address < GSP_BASE + 0x2000 then Some(address - GSP_BASE)
    else if SEC2_BASE <= address < SEC2_BASE + 0x2000 then Some(address - SEC2_BASE)
    else None
  }

  /** The bits any write to this register may carry, or None off the allow-list. */
  function WritableBits(address: u32): Option<u32>
  {
    match DecodeEngineAddress(address)
    case None => None
    case Some(relative) => WriteMask(relative)
  }

  function TestableBits(address: u32): Option<u32>
  {
    match DecodeEngineAddress(address)
    case None => None
    case Some(relative) => ReadMask(relative)
  }

  predicate FitsMask(a: Action) { AndNot32(a.value, a.mask) == 0 }

  function Decide(a: Action): Decision
  {
    match a.kind
    case Write32 => DecideWrite(a)
    case MaskedWrite => DecideWrite(a)
    case PollMaskEqual => DecideTest(a)
    case IfMaskEqualBegin => DecideTest(a)
    case DelayMilliseconds =>
      if a.address != 0 || a.mask != 0 || a.timeoutMs != 0 || a.value == 0 || a.value > 10000
      then DeniedTimeout else Allowed
    case StartCpuRespectAlias =>
      if DecodeEngineAddress(a.address) != Some(CPUCTL) || a.value != 0 || a.mask != 0 || a.timeoutMs != 0
      then DeniedUnknownAddress else RequiresStartCpuAliasSupport
    case EndIf =>
      if a.address == 0 && a.value == 0 && a.mask == 0 && a.timeoutMs == 0 then Allowed else DeniedControlFlow
  }

  function DecideWrite(a: Action): Decision
  {
    match WritableBits(a.address)
    case None => DeniedUnknownAddress
    case Some(bits) =>
      if a.mask == 0 || AndNot32(a.mask, bits) != 0 then DeniedMask
      else if !FitsMask(a) then DeniedValue
      else if a.timeoutMs != 0 then DeniedTimeout
      else Allowed
  }

  function DecideTest(a: Action): Decision
  {
    match TestableBits(a.address)
    case None => DeniedUnknownAddress
    case Some(bits) =>
      if a.mask == 0 || AndNot32(a.mask, bits) != 0 then DeniedMask
      else if !FitsMask(a) then DeniedValue
      else if a.kind.PollMaskEqual? then
        (if a.timeoutMs == 0 || a.timeoutMs > 60000 then DeniedTimeout else Allowed)
      else if a.timeoutMs != 0 then DeniedTimeout
      else Allowed
  }

  datatype ResolvedStart = ResolvedStart(valid: bool, usedAlias: bool, action: Action)

  /** The concrete start write for a live CPUCTL value. */
  function ResolveStartCpu(a: Action, cpuCtl: u32): ResolvedStart
  {
    if !Decide(a).RequiresStartCpuAliasSupport? then
      ResolvedStart(false, false, Action(Write32, 0, 0, 0, 0))
    else
      var alias := Bit(cpuCtl, ALIAS_ENABLE_BIT);
      var base := a.address - CPUCTL;
      var concrete :=
        if alias then Action(Write32, base + CPUCTL_ALIAS, START_MASK, START_MASK, 0)
        else Action(MaskedWrite, base + CPUCTL, START_MASK, START_MASK, 0);
      ResolvedStart(Decide(concrete).Allowed?, alias, concrete)
  }

  lemma AliasBit(cpuCtl: u32)
    ensures Bit(cpuCtl, ALIAS_ENABLE_BIT) <==> cpuCtl / 64 % 2 == 1
  {
    BitIs(cpuCtl, 6);
  }

  /** Resolving a permitted start never fails: the write it yields is itself on the allow-list. */
  lemma StartCpuResolves(a: Action, cpuCtl: u32)
    requires Decide(a).RequiresStartCpuAliasSupport?
    ensures var r := ResolveStartCpu(a, cpuCtl);
      && r.valid
      && Decide(r.action).Allowed?
      && (r.action.kind.Write32? || r.action.kind.MaskedWrite?)
      && WritableBits(r.action.address) == Some(START_MASK)
      && r.usedAlias == (r.action.address == a.address + 0x30)
      && r.usedAlias == (cpuCtl / 64 % 2 == 1)
  {
    hide Bit;
    AliasBit(cpuCtl);
    SubmaskRefl(START_MASK);
    Submask32(START_MASK, START_MASK);
  }

  /** A permitted write stays within the register's writable bits. */
  lemma AllowedWriteFits(a: Action)
    requires Decide(a).Allowed? && (a.kind.Write32? || a.kind.MaskedWrite?)
    ensures WritableBits(a.address).Some?
    ensures AndNot32(a.mask, WritableBits(a.address).value) == 0
    ensures AndNot32(a.value, WritableBits(a.address).value) == 0
  {
    SubsetTrans(a.value, a.mask, WritableBits(a.address).value);
  }

  // ---- Whole plans ----

  /** Where a scan stands after some actions: outside or inside a block, or stopped by a denial. */
  datatype Nest = Outside | Inside | Denied(why: Decision)

  function Advance(nest: Nest, a: Action): Nest
  {
    if nest.Denied? then nest
    else if !Decide(a).Permits() then Denied(Decide(a))
    else if a.kind.IfMaskEqualBegin? then (if nest.Inside? then Denied(DeniedControlFlow) else Inside)
    else if a.kind.EndIf? then (if nest.Outside? then Denied(DeniedControlFlow) else Outside)
    else nest
  }

  function Scan(nest: Nest, actions: seq<Action>): Nest
    decreases |actions|
  {
    if actions == [] then nest else Scan(Advance(nest, actions[0]), actions[1..])
  }

  lemma {:induction false} ScanAppend(nest: Nest, xs: seq<Action>, ys: seq<Action>)
    ensures Scan(nest, xs + ys) == Scan(Scan(nest, xs), ys)
    decreases |xs|
  {
    if xs == [] {
      assert xs + ys == ys;
    } else {
      assert (xs + ys)[1..] == xs[1..] + ys;
      ScanAppend(Advance(nest, xs[0]), xs[1..], ys);
    }
  }

  lemma {:induction false} DeniedStays(nest: Nest, actions: seq<Action>)
    requires nest.Denied?
    ensures Scan(nest, actions) == nest
  {
    if actions != [] { DeniedStays(nest, actions[1..]); }
  }

  predicate Accepted(actions: seq<Action>) { Scan(Outside, actions).Outside? }

  /** Every action of a program is individually permitted. */
  predicate Permitted(p: Prog)
  {
    match p
    case Halt => true
    case Do(a, rest) => Decide(a).Permits() && Permitted(rest)
    case Cond(test, body, rest) =>
      Decide(test).Permits() && (forall a <- body :: Decide(a).Permits()) && Permitted(rest)
  }

  lemma {:induction false} ScanPlain(nest: Nest, body: seq<Action>)
    requires !nest.Denied?
    requires forall a <- body :: !IsMarker(a) && Decide(a).Permits()
    ensures Scan(nest, body) == nest
  {
    if body != [] {
      assert body[0] in body;
      forall a | a in body[1..] ensures !IsMarker(a) && Decide(a).Permits() { assert a in body; }
      ScanPlain(nest, body[1..]);
    }
  }

  /** A closed block met inside a scan: plain permitted actions, then the one legal end marker. */
  lemma {:induction false} ScanInside(actions: seq<Action>)
    requires Scan(Inside, actions).Outside?
    ensures var n := BodyLength(actions);
      && n < |actions|
      && actions[n] == CLOSE
      && (forall a <- actions[..n] :: !IsMarker(a) && Decide(a).Permits())
      && Accepted(actions[n + 1..])
  {
    if Advance(Inside, actions[0]).Denied? {
      DeniedStays(Advance(Inside, actions[0]), actions[1..]);
    }
    if actions[0].kind.EndIf? {
      assert actions[0 + 1..] == actions[1..];
    } else {
      var n := BodyLength(actions[1..]);
      ScanInside(actions[1..]);
      forall a | a in actions[..n + 1] ensures !IsMarker(a) && Decide(a).Permits() {
        if a != actions[0] { assert a in actions[1..][..n]; }
      }
      assert actions[n + 2..] == actions[1..][n + 1..];
    }
  }

  /** An accepted list is the flattening of the well-formed, permitted program it parses to. */
  lemma {:induction false} AcceptedIsStructured(actions: seq<Action>)
    requires Accepted(actions)
    ensures Parse(actions).WellFormed() && Permitted(Parse(actions))
    ensures Parse(actions).Flatten() == actions
    decreases |actions|
  {
    if actions != [] {
      if Advance(Outside, actions[0]).Denied? {
        DeniedStays(Advance(Outside, actions[0]), actions[1..]);
      }
      var tail := actions[1..];
      if actions[0].kind.IfMaskEqualBegin? {
        ScanInside(tail);
        var n := BodyLength(tail);
        AcceptedIsStructured(tail[n + 1..]);
        BlockReassembles(actions, n, Parse(tail[n + 1..]));
      } else {
        AcceptedIsStructured(tail);
      }
    }
  }

  lemma BlockReassembles(actions: seq<Action>, n: nat, rest: Prog)
    requires n + 1 < |actions| && actions[n + 1] == CLOSE
    requires rest.Flatten() == actions[1..][n + 1..]
    ensures Cond(actions[0], actions[1..][..n], rest).Flatten() == actions
  {
    var tail := actions[1..];
    assert tail == tail[..n] + [CLOSE] + tail[n + 1..];
    assert actions == [actions[0]] + tail;
  }

  lemma {:induction false} StructuredIsAccepted(p: Prog)
    requires p.WellFormed() && Permitted(p)
    ensures Accepted(p.Flatten())
  {
    assert Decide(CLOSE).Allowed?;
    hide Decide;
    match p
    case Halt =>
    case Do(a, rest) =>
      assert p.Flatten()[1..] == rest.Flatten();
      StructuredIsAccepted(rest);
    case Cond(test, body, rest) =>
      var tail := rest.Flatten();
      assert p.Flatten() == [test] + (body + ([CLOSE] + tail));
      ScanAppend(Outside, [test], body + ([CLOSE] + tail));
      assert Scan(Outside, [test]) == Inside;
      ScanAppend(Inside, body, [CLOSE] + tail);
      ScanPlain(Inside, body);
      assert ([CLOSE] + tail)[1..] == tail;
      StructuredIsAccepted(rest);
  }

  /** The audit accepts exactly the flattenings of permitted structured programs. */
  lemma AcceptedIffStructured(actions: seq<Action>)
    ensures Accepted(actions) <==>
            exists p: Prog :: p.WellFormed() && Permitted(p) && p.Flatten() == actions
  {
    if Accepted(actions) {
      AcceptedIsStructured(actions);
    }
    if p: Prog :| p.WellFormed() && Permitted(p) && p.Flatten() == actions {
      StructuredIsAccepted(p);
    }
  }

  datatype PlanReport = PlanReport(
    valid: bool,
    requiresStartCpuAliasSupport: bool,
    actionCount: nat,
    firstDeniedIndex: nat,
    firstDenied: Decision)

  predicate UsesStart(actions: seq<Action>)
  {
    exists i :: 0 <= i < |actions| && actions[i].kind.StartCpuRespectAlias?
  }

  /** What the report says about a denied list: the first index whose action spoils the part read
      so far, or the length of a list whose last block is never closed. */
  predicate FirstDenial(actions: seq<Action>, k: nat, why: Decision)
  {
    && k <= |actions|
    && !Scan(Outside, actions[..k]).Denied?
    && if k < |actions| then Scan(Outside, actions[..k + 1]) == Denied(why)
       else Scan(Outside, actions).Inside?
  }

  lemma ScanStep(actions: seq<Action>, i: nat)
    requires i < |actions|
    ensures Scan(Outside, actions[..i + 1]) == Advance(Scan(Outside, actions[..i]), actions[i])
  {
    assert actions[..i + 1] == actions[..i] + [actions[i]];
    ScanAppend(Outside, actions[..i], [actions[i]]);
  }

  lemma DenialFound(actions: seq<Action>, i: nat, why: Decision)
    requires i < |actions| && !Scan(Outside, actions[..i]).Denied?
    requires Advance(Scan(Outside, actions[..i]), actions[i]) == Denied(why)
    ensures FirstDenial(actions, i, why) && !Accepted(actions)
  {
    ScanStep(actions, i);
    assert actions == actions[..i + 1] + actions[i + 1..];
    ScanAppend(Outside, actions[..i + 1], actions[i + 1..]);
    DeniedStays(Denied(why), actions[i + 1..]);
  }

  lemma NothingScanned()
    ensures Scan(Outside, []) == Outside && !UsesStart([])
  {
  }

  lemma DecidesByKind(a: Action)
    ensures Decide(a).RequiresStartCpuAliasSupport? ==> a.kind.StartCpuRespectAlias?
    ensures Decide(a).Allowed? ==> !a.kind.StartCpuRespectAlias?
  {
  }

  lemma UsesStartStep(actions: seq<Action>, i: nat)
    requires i < |actions|
    ensures UsesStart(actions[..i + 1]) <==> UsesStart(actions[..i]) || actions[i].kind.StartCpuRespectAlias?
  {
    var before, after := actions[..i], actions[..i + 1];
    if UsesStart(before) {
      var j :| 0 <= j < |before| && before[j].kind.StartCpuRespectAlias?;
      assert after[j].kind.StartCpuRespectAlias?;
    }
    if actions[i].kind.StartCpuRespectAlias? { assert after[i].kind.StartCpuRespectAlias?; }
    if UsesStart(after) {
      var j :| 0 <= j < |after| && after[j].kind.StartCpuRespectAlias?;
      if j < i { assert before[j].kind.StartCpuRespectAlias?; }
    }
  }

  method CheckPlanPolicy(plan: Plan) returns (out: PlanReport)
    ensures out.actionCount == |plan.actions|
    ensures out.valid <==> plan.valid && Accepted(plan.actions)
    ensures out.valid ==> out.requiresStartCpuAliasSupport == UsesStart(plan.actions)
    ensures plan.valid && !out.valid ==> FirstDenial(plan.actions, out.firstDeniedIndex, out.firstDenied)
    ensures !plan.valid ==> out.firstDeniedIndex == 0 && out.firstDenied == DeniedControlFlow
  {
    hide Decide, UsesStart, Scan;
    NothingScanned();
    assert plan.actions[..0] == [];
    if !plan.valid {
      return PlanReport(false, false, |plan.actions|, 0, DeniedControlFlow);
    }
    var startSeen, inIf, i := false, false, 0;
    while i < |plan.actions|
      invariant 0 <= i <= |plan.actions|
      invariant Scan(Outside, plan.actions[..i]) == if inIf then Inside else Outside
      invariant startSeen == UsesStart(plan.actions[..i])
    {
      var action := plan.actions[i];
      var decision := Decide(action);
      ScanStep(plan.actions, i);
      UsesStartStep(plan.actions, i);
      DecidesByKind(action);
      if decision.RequiresStartCpuAliasSupport? {
        startSeen := true;
      } else if !decision.Allowed? {
        DenialFound(plan.actions, i, decision);
        return PlanReport(false, startSeen, |plan.actions|, i, decision);
      }
      if action.kind.IfMaskEqualBegin? {
        if inIf {
          DenialFound(plan.actions, i, DeniedControlFlow);
          return PlanReport(false, startSeen, |plan.actions|, i, DeniedControlFlow);
        }
        inIf := true;
      } else if action.kind.EndIf? {
        if !inIf {
          DenialFound(plan.actions, i, DeniedControlFlow);
          return PlanReport(false, startSeen, |plan.actions|, i, DeniedControlFlow);
        }
        inIf := false;
      }
      i := i + 1;
    }
    assert plan.actions[..i] == plan.actions;
    if inIf {
      return PlanReport(false, startSeen, |plan.actions|, |plan.actions|, DeniedControlFlow);
    }
    out := PlanReport(true, startSeen, |plan.actions|, MAX64, Allowed);
  }
}
