/** From the bytes of a package to the registers and memories of a boot that succeeded. */
module ColdBoot {
  import opened Words
  import opened Wrappers
  import opened Bytes
  import opened FalconDma
  import opened FalconLog
  import opened FalconTrace
  import opened Mmio
  import opened BootRun
  import opened BootTrace
  import opened PlanTrace
  import opened Prepare
  import opened Resolve
  import opened ColdGraph
  import opened ColdReads
  import Falcon
  import L = FalconPlan
  import Prototype
  import T = BootTransfers
  import V = PackageParse
  import PackageReads

  /** A boot planned over a parsed package's profile and its resolved graph. */
  ghost predicate Over(b: T.Boot, s: seq<byte>, boundary: u64, staged: StagedSummary, vs: seq<GeneratedView>)
  {
    && V.Verdict(s) == V.ParseOk && |s| <= MAX64
    && Resolved(V.ParsedView(s), boundary, staged, vs)
    && var p := Prototype.ProfileOf(V.ParsedView(s), boundary);
    b == T.Boot(p.manifest, Graph(V.ParsedView(s), boundary, staged, vs), p.bootloader, p.fwsec, p.booter, b.chipId)
  }

  /** What the boot is planned from, by offset in the package and by buffer. */
  ghost predicate Planned(b: T.Boot, s: seq<byte>, vs: seq<GeneratedView>)
    requires |s| >= 440
  {
    && b.bootloader.appVersion == Load32(s, 56)
    && b.fwsec.pkcDataOffset == Load32(s, 72) && b.fwsec.imemPhysBase == Load32(s, 76) && b.fwsec.imemLoadSize == Load32(s, 80)
    && b.fwsec.imemVirtBase == Load32(s, 84) && b.fwsec.dmemPhysBase == Load32(s, 88) && b.fwsec.dmemLoadSize == Load32(s, 92)
    && b.fwsec.engineIdMask == V.Load16(s, 96) && b.fwsec.ucodeId == s[98]
    && b.booter.codeOffset == Load32(s, 100) && b.booter.codeSize == Load32(s, 104)
    && b.booter.dataOffset == Load32(s, 108) && b.booter.osDataSize == Load32(s, 112)
    && |vs| == GENERATED && forall k :: 0 <= k < GENERATED ==> vs[k].pages != [] && RecordedAt(b.addresses, vs[k].kind, vs[k].pages[0])
  }

  lemma OverIsPlanned(b: T.Boot, s: seq<byte>, boundary: u64, staged: StagedSummary, vs: seq<GeneratedView>)
    requires Over(b, s, boundary, staged, vs)
    ensures |s| >= 440 && Planned(b, s, vs)
    ensures b.addresses.frtsFwsecImage == Scratch(V.ParsedView(s), boundary).frtsFwsecOffset
    ensures b.addresses.sec2BooterImage == Scratch(V.ParsedView(s), boundary).sec2BooterOffset
  {
    hide Load32, V.Load16, V.ParsedView, V.Verdict, Graph, Reuses, RecordedAt, Prototype.ProfileOf, Scratch;
    PackageReads.ProfileReads(s, boundary);
    GraphNames(V.ParsedView(s), boundary, staged, vs);
  }

  /** A log in which GSP and SEC2 are started with a package's own parameters, SEC2 told the first page of the WPR
      metadata's buffer, and GSP, before it is released, that of the libOS arguments'. */
  ghost predicate StartedFrom(s: seq<byte>, vs: seq<GeneratedView>, log: Log, g: nat, c: nat, y: nat)
    requires |s| >= 440
  {
    && g < c < y < |log| && StartsAt(0x11_0000, log, g) && StartsAt(0x84_0000, log, c)
    && Last(log[..g], 0x11_1210) == Some(Load32(s, 72)) && Last(log[..g], 0x11_119C) == Some(V.Load16(s, 96))
    && Last(log[..g], 0x11_1198) == Some(s[98]) && Last(log[..g], 0x11_0104) == Some(Load32(s, 84))
    && Last(log[..c], 0x84_0104) == Some(Load32(s, 100)) && Last(log[..y], 0x11_0080) == Some(Load32(s, 56))
    && forall k :: 0 <= k < |vs| ==> vs[k].pages != [] && Told(log, vs[k].kind, vs[k].pages[0], c, y)
  }

  predicate Told(log: Log, kind: GeneratedKind, page: u64, c: nat, y: nat)
    requires c <= |log| && y <= |log|
  {
    && (kind == GeneratedWprMetadata ==> Joined(log[..c], 0x84_0040, 0x84_0044, page))
    && (kind == GeneratedLibosInit ==> Joined(log[..y], 0x11_0040, 0x11_0044, page))
  }

  /** When a run of it succeeds, that is its log. */
  lemma RunReadsPackage(b: T.Boot, s: seq<byte>, boundary: u64, staged: StagedSummary, vs: seq<GeneratedView>, bar: Bar, inputs: seq<Input>)
    returns (g: nat, c: nat, y: nat)
    requires Over(b, s, boundary, staged, vs) && b.Valid() && T.Plays(b, inputs)
    requires Play(bar, RunState(FRESH, [], [], 0), inputs).attempt.state.Succeeded?
    ensures |s| >= 440 && StartedFrom(s, vs, Play(bar, RunState(FRESH, [], [], 0), inputs).log, g, c, y)
  {
    hide Over, Play, Load32, V.Load16, Last, Joined, StartsAt, T.Plays;
    OverIsPlanned(b, s, boundary, staged, vs);
    var w, x;
    g, w, c, x, y := BootRunPrograms(b, bar, inputs);
  }

  /** And the memories of both engines hold the package's firmware, when VRAM holds the two images where the preparation
      puts them: the loads' sizes and places are the package's. */
  lemma RunLoadsPackage(b: T.Boot, s: seq<byte>, boundary: u64, staged: StagedSummary, vs: seq<GeneratedView>, bar: Bar, inputs: seq<Input>,
                        port: Port, m: Memories, vram: seq<byte>, fwsec: seq<byte>, booter: seq<byte>, j: nat)
    requires Over(b, s, boundary, staged, vs) && b.Valid() && T.Plays(b, inputs) && port.Valid() && port.limit >= OFFSET_LIMIT
    requires Play(bar, RunState(FRESH, [], [], 0), inputs).attempt.state.Succeeded?
    requires Holds(vram, Scratch(V.ParsedView(s), boundary).frtsFwsecOffset, fwsec)
    requires Holds(vram, Scratch(V.ParsedView(s), boundary).sec2BooterOffset, booter)
    requires |s| >= 440 && Load32(s, 80) + Load32(s, 92) <= |fwsec|
    requires Load32(s, 100) + Load32(s, 104) <= |booter| && Load32(s, 108) + Load32(s, 112) <= |booter|
    ensures var log := Play(bar, RunState(FRESH, [], [], 0), inputs).log;
      && Loaded(0x11_0000, port, m, vram, log, Load32(s, 76), Load32(s, 80), Load32(s, 88), Load32(s, 92), fwsec, 0, Load32(s, 80), j)
      && Loaded(0x84_0000, port, m, vram, log, 0, Load32(s, 104), 0, Load32(s, 112), booter, Load32(s, 100), Load32(s, 108), j)
  {
    hide Over, Play, Load32, V.Load16, T.Plays, Holds, Loaded, Planned, Scratch, V.ParsedView, Resolved;
    OverIsPlanned(b, s, boundary, staged, vs);
    GspLoaded(b, s, vs, bar, inputs, port, m, vram, fwsec, j);
    Sec2Loaded(b, s, vs, bar, inputs, port, m, vram, booter, j);
  }

  lemma GspLoaded(b: T.Boot, s: seq<byte>, vs: seq<GeneratedView>, bar: Bar, inputs: seq<Input>, port: Port, m: Memories, vram: seq<byte>,
                  fwsec: seq<byte>, j: nat)
    requires b.Valid() && T.Plays(b, inputs) && port.Valid() && port.limit >= OFFSET_LIMIT && |s| >= 440 && Planned(b, s, vs)
    requires Play(bar, RunState(FRESH, [], [], 0), inputs).attempt.state.Succeeded?
    requires Holds(vram, b.addresses.frtsFwsecImage, fwsec) && Load32(s, 80) + Load32(s, 92) <= |fwsec|
    ensures Loaded(0x11_0000, port, m, vram, Play(bar, RunState(FRESH, [], [], 0), inputs).log, Load32(s, 76), Load32(s, 80), Load32(s, 88),
                   Load32(s, 92), fwsec, 0, Load32(s, 80), j)
  {
    hide Play, Load32, V.Load16, T.Plays, PerformAll, LogTransfers, ViewOf, L.LoadValid, RecordedAt;
    T.BootRunLoadsFirmware(b, Falcon.Gsp, port, bar, inputs, m, vram, fwsec, j);
  }

  lemma Sec2Loaded(b: T.Boot, s: seq<byte>, vs: seq<GeneratedView>, bar: Bar, inputs: seq<Input>, port: Port, m: Memories, vram: seq<byte>,
                   booter: seq<byte>, j: nat)
    requires b.Valid() && T.Plays(b, inputs) && port.Valid() && port.limit >= OFFSET_LIMIT && |s| >= 440 && Planned(b, s, vs)
    requires Play(bar, RunState(FRESH, [], [], 0), inputs).attempt.state.Succeeded?
    requires Holds(vram, b.addresses.sec2BooterImage, booter)
    requires Load32(s, 100) + Load32(s, 104) <= |booter| && Load32(s, 108) + Load32(s, 112) <= |booter|
    ensures Loaded(0x84_0000, port, m, vram, Play(bar, RunState(FRESH, [], [], 0), inputs).log, 0, Load32(s, 104), 0, Load32(s, 112), booter,
                   Load32(s, 100), Load32(s, 108), j)
  {
    hide Play, Load32, V.Load16, T.Plays, PerformAll, LogTransfers, ViewOf, L.LoadValid, RecordedAt;
    T.BootRunLoadsFirmware(b, Falcon.Sec2, port, bar, inputs, m, vram, booter, j);
  }

  predicate Holds(vram: seq<byte>, at: nat, image: seq<byte>)
  {
    at + |image| <= |vram| && vram[at..at + |image|] == image
  }

  /** Byte `j` of both of an engine's memories after the transfers in a log. */
  predicate Loaded(base: u32, port: Port, m: Memories, vram: seq<byte>, log: Log, imem: u32, imemBytes: u32, dmem: u32, dmemBytes: u32,
                   image: seq<byte>, code: nat, data: nat, j: nat)
    requires port.Valid() && code + imemBytes <= |image| && data + dmemBytes <= |image|
  {
    var after := PerformAll(m, ViewOf(vram), LogTransfers(base, port, log));
    && (j < imemBytes ==> after.imem(imem + j) == image[code + j])
    && (j < dmemBytes ==> after.dmem(dmem + j) == image[data + j])
  }
}
