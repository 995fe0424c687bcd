/** Register action lists for the GSP and SEC2 Falcon engines, and the structured
    programs they flatten. */
module Falcon {
  import opened Words

  datatype Engine = Gsp | Sec2

  function EngineBase(engine: Engine): u32
  {
    if engine.Gsp? then 0x0011_0000 else 0x0084_0000
  }

  datatype ActionKind =
    | Write32
    | MaskedWrite
    | PollMaskEqual
    | DelayMilliseconds
    | StartCpuRespectAlias
    | IfMaskEqualBegin
    | EndIf

  datatype Action = Action(kind: ActionKind, address: u32, value: u32, mask: u32, timeoutMs: u32)

  datatype Plan = Plan(valid: bool, actions: seq<Action>)

  const CLOSE: Action := Action(EndIf, 0, 0, 0, 0)

  predicate IsMarker(a: Action) { a.kind.IfMaskEqualBegin? || a.kind.EndIf? }

  /** A program whose conditionals are blocks rather than begin and end markers. */
  datatype Prog =
    | Halt
    | Do(action: Action, rest: Prog)
    | Cond(test: Action, body: seq<Action>, rest: Prog)
  {
    predicate WellFormed()
    {
      match this
      case Halt => true
      case Do(a, rest) => !IsMarker(a) && rest.WellFormed()
      case Cond(test, body, rest) =>
        && test.kind.IfMaskEqualBegin?
        && (forall a <- body :: !IsMarker(a))
        && rest.WellFormed()
    }

    /** The action list of the program, as the planners write it. */
    function Flatten(): seq<Action>
    {
      match this
      case Halt => []
      case Do(a, rest) => [a] + rest.Flatten()
      case Cond(test, body, rest) => [test] + body + [CLOSE] + rest.Flatten()
    }
  }

  /** The actions before the first end marker. */
  function BodyLength(actions: seq<Action>): (n: nat)
    ensures n <= |actions|
    ensures forall i :: 0 <= i < n ==> !actions[i].kind.EndIf?
    ensures n < |actions| ==> actions[n].kind.EndIf?
  {
    if actions == [] || actions[0].kind.EndIf? then 0 else 1 + BodyLength(actions[1..])
  }

  /** Recovers the blocks of an action list; an unclosed block runs to the end. */
  function Parse(actions: seq<Action>): Prog
    decreases |actions|
  {
    if actions == [] then Halt
    else if actions[0].kind.IfMaskEqualBegin? then
      var tail := actions[1..];
      var n := BodyLength(tail);
      Cond(actions[0], tail[..n], if n < |tail| then Parse(tail[n + 1..]) else Halt)
    else Do(actions[0], Parse(actions[1..]))
  }

  lemma {:induction false} BodyLengthOf(body: seq<Action>, rest: seq<Action>)
    requires forall a <- body :: !IsMarker(a)
    ensures BodyLength(body + [CLOSE] + rest) == |body|
  {
    assert (body + [CLOSE] + rest)[0] == if body == [] then CLOSE else body[0];
    if body != [] {
      assert body[0] in body;
      assert (body + [CLOSE] + rest)[1..] == body[1..] + [CLOSE] + rest;
      BodyLengthOf(body[1..], rest);
    }
  }

  /** Parsing inverts flattening, so a structured program is determined by its action list. */
  lemma {:induction false} ParseFlatten(p: Prog)
    requires p.WellFormed()
    ensures Parse(p.Flatten()) == p
  {
    match p
    case Halt =>
    case Do(a, rest) =>
      assert p.Flatten()[1..] == rest.Flatten();
      ParseFlatten(rest);
    case Cond(test, body, rest) =>
      var tail := p.Flatten()[1..];
      assert tail == body + [CLOSE] + rest.Flatten();
      BodyLengthOf(body, rest.Flatten());
      assert tail[..|body|] == body && tail[|body| + 1..] == rest.Flatten();
      ParseFlatten(rest);
  }
}
