/** The device as the boot code meets it: a log of what was done, and an environment that
    decides, from the whole log so far, whether a mapping succeeds and what a read returns.

    Nothing is assumed of the environment, so a statement about every environment is a
    statement about every behaviour of registers that change on their own. A write is logged with
    the whole value stored and whether it was merged into a value read before. */
module Mmio {
  import opened Words

  datatype Status =
    | Success
    | BadArgument
    | NoResources
    | NotPermitted
    | Timeout
    | IOError
    | Error
    | Other(code: nat)

  datatype Event =
    | Read(address: nat, value: u32)
    | Write(address: nat, value: u32, merged: bool)
    | SharedRead(offset: nat, value: u32)
    | Sleep(milliseconds: nat)
    | Refused(address: nat)

  type Log = seq<Event>

  datatype SharedOutcome = SharedValue(value: u32) | SharedFailure(status: Status)

  datatype Env = Env(
    mapping: (Log, nat) -> Status,
    value: (Log, nat) -> u32,
    shared: (Log, nat) -> SharedOutcome)

  /** BAR0: its environment and its size in bytes. */
  datatype Bar = Bar(env: Env, size: u64)

  datatype ReadResult = ReadResult(status: Status, value: u32, log: Log)

  /** The outcome of mapping the page that holds one register. */
  function MapStatus(bar: Bar, log: Log, address: nat): Status
  {
    if address % 4 != 0 || address + 4 > bar.size then NoResources else bar.env.mapping(log, address)
  }

  function ReadRegister(bar: Bar, log: Log, address: nat): ReadResult
  {
    var status := MapStatus(bar, log, address);
    if status != Success then ReadResult(status, 0, log + [Refused(address)])
    else
      var value := bar.env.value(log, address);
      ReadResult(Success, value, log + [Read(address, value)])
  }

  function SleepTotal(log: Log): nat
  {
    if log == [] then 0
    else SleepTotal(log[..|log| - 1]) + if log[|log| - 1].Sleep? then log[|log| - 1].milliseconds else 0
  }

  function Writes(log: Log): nat
  {
    if log == [] then 0
    else Writes(log[..|log| - 1]) + if log[|log| - 1].Write? then 1 else 0
  }

  lemma Snoc(log: Log, e: Event)
    ensures SleepTotal(log + [e]) == SleepTotal(log) + if e.Sleep? then e.milliseconds else 0
    ensures Writes(log + [e]) == Writes(log) + if e.Write? then 1 else 0
  {
    assert (log + [e])[..|log|] == log;
  }

  lemma {:induction false} WritesCounts(log: Log)
    ensures Writes(log) == 0 <==> forall i :: 0 <= i < |log| ==> !log[i].Write?
  {
    if log != [] {
      var init := log[..|log| - 1];
      WritesCounts(init);
      if Writes(init) != 0 {
        var i :| 0 <= i < |init| && init[i].Write?;
        assert log[i].Write?;
      } else if log[|log| - 1].Write? {
      } else {
        forall i | 0 <= i < |log| ensures !log[i].Write? {
          if i < |init| { assert !init[i].Write?; }
        }
      }
    }
  }

  /** A GPU whose accesses append to a log. */
  class Gpu {
    const bar: Bar
    var log: Log

    constructor (bar: Bar)
      ensures this.bar == bar && log == []
    {
      this.bar := bar;
      log := [];
    }

    /** Maps the page holding one register. The source's page-fit guard after the bounds check can
        never fire, so it appears here as an assertion. */
    method Map(address: nat) returns (status: Status)
      modifies this`log
      ensures status == MapStatus(bar, old(log), address)
      ensures log == if status == Success then old(log) else old(log) + [Refused(address)]
    {
      if address % 4 != 0 || address + 4 > bar.size {
        log := log + [Refused(address)];
        return NoResources;
      }
      var pageBase := address - address % 0x1000;
      var inPage := address - pageBase;
      var mapLength := if pageBase + 0x1000 <= bar.size then 0x1000 else bar.size - pageBase;
      assert inPage + 4 <= mapLength;
      status := bar.env.mapping(log, address);
      if status != Success {
        log := log + [Refused(address)];
      }
    }

    method Load(address: nat) returns (value: u32)
      modifies this`log
      ensures value == bar.env.value(old(log), address)
      ensures log == old(log) + [Read(address, value)]
    {
      value := bar.env.value(log, address);
      log := log + [Read(address, value)];
    }

    method Store(address: nat, value: u32, merged: bool)
      modifies this`log
      ensures log == old(log) + [Write(address, value, merged)]
    {
      log := log + [Write(address, value, merged)];
    }

    method Pause(milliseconds: nat)
      modifies this`log
      ensures log == old(log) + [Sleep(milliseconds)]
    {
      log := log + [Sleep(milliseconds)];
    }

    method Fetch(address: nat) returns (status: Status, value: u32)
      modifies this`log
      ensures ReadResult(status, value, log) == ReadRegister(bar, old(log), address)
    {
      value := 0;
      status := Map(address);
      if status == Success {
        value := Load(address);
      }
    }
  }
}
