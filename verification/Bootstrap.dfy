/** The command queue as it stands before boot: header, system-info record, registry record. */
module Bootstrap {
  import opened Words
  import opened Wrappers
  import opened Bytes
  import opened Fields
  import opened Rpc
  import RpcLaws
  import opened Ring
  import opened Gsp
  import Registry
  import Radix3
  import QueueMemory

  const SYSTEM_INFO_BYTES: nat := 928
  const SET_SYSTEM_INFO: u32 := 72
  const SET_REGISTRY: u32 := 73
  const MAX_ELEMENTS: u32 := 16
  const TX_HEADER: nat := 32
  const WRITE_POINTER: nat := 16

  datatype SystemInfo = SystemInfo(
    bar0: u64,
    bar1: u64,
    bar3: u64,
    domainBusDeviceFunction: u64,
    maxUserVa: u64,
    configMirrorBase: u32,
    configMirrorSize: u32,
    deviceId: u32,
    subDeviceId: u32,
    revision: u32,
    passthrough: bool)

  function SystemFields(i: SystemInfo): seq<Field>
  {
    [ Field(0, 8, i.bar0), Field(8, 8, i.bar1), Field(16, 8, i.bar3), Field(32, 8, i.domainBusDeviceFunction),
      Field(72, 8, i.maxUserVa), Field(80, 4, i.configMirrorBase), Field(84, 4, i.configMirrorSize),
      Field(88, 4, i.deviceId), Field(92, 4, i.subDeviceId), Field(96, 4, i.revision),
      Field(840, 1, if i.passthrough then 1 else 0) ]
  }

  lemma SystemFieldsOrdered(i: SystemInfo)
    ensures Ordered(SystemFields(i), SYSTEM_INFO_BYTES)
  {
    Pow256Values();
  }

  function SystemInfoBytes(i: SystemInfo): (r: seq<byte>)
    ensures |r| == SYSTEM_INFO_BYTES
  {
    SystemFieldsOrdered(i);
    Structure(SystemFields(i), SYSTEM_INFO_BYTES)
  }

  /** What GSP-RM reads in the structure; every byte between its fields is zero. */
  ghost predicate Describes(b: seq<byte>, i: SystemInfo)
    requires |b| == 928
  {
    && Load(b, 0, 8) == i.bar0 && Load(b, 8, 8) == i.bar1 && Load(b, 16, 8) == i.bar3
    && Load(b, 32, 8) == i.domainBusDeviceFunction && Load(b, 72, 8) == i.maxUserVa
    && Load(b, 80, 4) == i.configMirrorBase && Load(b, 84, 4) == i.configMirrorSize
    && Load(b, 88, 4) == i.deviceId && Load(b, 92, 4) == i.subDeviceId && Load(b, 96, 4) == i.revision
    && Load(b, 840, 1) == (if i.passthrough then 1 else 0)
    && forall j :: 24 <= j < 32 || 40 <= j < 72 || 100 <= j < 840 || 841 <= j < 928 ==> b[j] == 0
  }

  lemma SystemFieldAt(i: SystemInfo, k: nat)
    requires k < 11
    ensures |SystemFields(i)| == 11
    ensures var f := SystemFields(i)[k];
      f.off + f.width <= 928 && Load(SystemInfoBytes(i), f.off, f.width) == f.value
  {
    hide Laid, Structure, Ordered, Load;
    SystemFieldsOrdered(i);
    FieldReadsBack(SystemFields(i), SYSTEM_INFO_BYTES, k);
  }

  lemma SystemInfoDescribes(i: SystemInfo)
    ensures Describes(SystemInfoBytes(i), i)
  {
    hide SystemInfoBytes, Load;
    SystemFieldAt(i, 0); SystemFieldAt(i, 1); SystemFieldAt(i, 2); SystemFieldAt(i, 3); SystemFieldAt(i, 4); SystemFieldAt(i, 5);
    SystemFieldAt(i, 6); SystemFieldAt(i, 7); SystemFieldAt(i, 8); SystemFieldAt(i, 9); SystemFieldAt(i, 10);
    forall j | 24 <= j < 32 || 40 <= j < 72 || 100 <= j < 840 || 841 <= j < 928 ensures SystemInfoBytes(i)[j] == 0 { SystemGap(i, j); }
  }

  lemma SystemGap(i: SystemInfo, j: nat)
    requires 24 <= j < 32 || 40 <= j < 72 || 100 <= j < 840 || 841 <= j < 928
    ensures SystemInfoBytes(i)[j] == 0
  {
    hide Laid, Structure, Ordered;
    SystemFieldsOrdered(i);
    GapIsZero(SystemFields(i), SYSTEM_INFO_BYTES, j);
  }

  method BuildGspSystemInfo(i: SystemInfo) returns (out: seq<byte>)
    ensures out == SystemInfoBytes(i)
    ensures |out| == 928 && Describes(out, i)
  {
    hide Laid, Zeros, Ordered, Describes;
    SystemInfoDescribes(i);
    ghost var fs := SystemFields(i);
    SystemFieldsOrdered(i);
    var buffer := new byte[SYSTEM_INFO_BYTES](_ => 0);
    Start(fs, buffer[..]);
    Store(buffer, 0, 8, i.bar0, fs, 0);
    Store(buffer, 8, 8, i.bar1, fs, 1);
    Store(buffer, 16, 8, i.bar3, fs, 2);
    Store(buffer, 32, 8, i.domainBusDeviceFunction, fs, 3);
    Store(buffer, 72, 8, i.maxUserVa, fs, 4);
    Store(buffer, 80, 4, i.configMirrorBase, fs, 5);
    Store(buffer, 84, 4, i.configMirrorSize, fs, 6);
    Store(buffer, 88, 4, i.deviceId, fs, 7);
    Store(buffer, 92, 4, i.subDeviceId, fs, 8);
    Store(buffer, 96, 4, i.revision, fs, 9);
    Store(buffer, 840, 1, if i.passthrough then 1 else 0, fs, 10);
    out := buffer[..];
  }

  // ---- The command queue ----

  function MsgCount(queueBytes: nat): nat
    requires queueBytes >= ENTRY
  {
    (queueBytes - ENTRY) / MESSAGE
  }

  predicate QueueBytesOk(queueBytes: nat)
  {
    3 * MESSAGE <= queueBytes <= MAX32 && queueBytes % MESSAGE == 0
  }

  function RegistryElements(registry: seq<Registry.Entry>): nat
  {
    CeilDivide(OVERHEAD + Registry.TableBytes(registry), MESSAGE)
  }

  /** What is needed to build the queue. The two records are each checked against the ring, not their sum. */
  predicate QueueBuildable(queueBytes: u64, registry: seq<Registry.Entry>)
  {
    && QueueBytesOk(queueBytes)
    && Registry.Buildable(registry)
    && Rpc.Buildable(Registry.TableBytes(registry), MESSAGE, MAX_ELEMENTS)
    && RegistryElements(registry) <= MsgCount(queueBytes)
  }

  function SystemRecord(i: SystemInfo): Record
  {
    assert Rpc.Buildable(SYSTEM_INFO_BYTES, MESSAGE, MAX_ELEMENTS);
    RecordOf(SET_SYSTEM_INFO, SystemInfoBytes(i), 0, MESSAGE)
  }

  function RegistryRecord(registry: seq<Registry.Entry>): Record
    requires Registry.Buildable(registry) && Rpc.Buildable(Registry.TableBytes(registry), MESSAGE, MAX_ELEMENTS)
  {
    RecordOf(SET_REGISTRY, Registry.Table(registry), 1, MESSAGE)
  }

  /** Both records are whole elements; system info takes one. */
  lemma RecordSizes(i: SystemInfo, registry: seq<Registry.Entry>)
    requires Registry.Buildable(registry) && Rpc.Buildable(Registry.TableBytes(registry), MESSAGE, MAX_ELEMENTS)
    ensures SystemRecord(i).elementCount == 1 && |SystemRecord(i).bytes| == MESSAGE
    ensures var r := RegistryRecord(registry);
      r.elementCount == RegistryElements(registry) > 0 && |r.bytes| == r.elementCount * MESSAGE
  {
    hide Registry.Table, SystemInfoBytes, Body;
    RpcLaws.BuiltRecordValidates(SET_SYSTEM_INFO, SystemInfoBytes(i), 0, MESSAGE, MAX_ELEMENTS);
    RpcLaws.BuiltRecordValidates(SET_REGISTRY, Registry.Table(registry), 1, MESSAGE, MAX_ELEMENTS);
    CountCovers(OVERHEAD + Registry.TableBytes(registry), MESSAGE);
  }

  function QueueHeader(queueBytes: u32, writePtr: u32): (r: seq<u32>)
    requires QueueBytesOk(queueBytes)
    ensures |r| == 8
  {
    [0, queueBytes, MESSAGE, MsgCount(queueBytes), writePtr, 1, TX_HEADER, ENTRY]
  }

  /** The queue with its header and an empty ring. */
  function EmptyQueue(queueBytes: u32, writePtr: u32): (r: seq<byte>)
    requires QueueBytesOk(queueBytes)
    ensures |r| == queueBytes
  {
    WordBytes(QueueHeader(queueBytes, writePtr)) + Zeros(queueBytes - TX_HEADER)
  }

  function FinalPointer(queueBytes: u64, registry: seq<Registry.Entry>): u32
    requires QueueBytesOk(queueBytes)
  {
    (1 + RegistryElements(registry)) % MsgCount(queueBytes)
  }

  lemma RingShape(queueBytes: u64)
    requires QueueBytesOk(queueBytes)
    ensures 2 <= MsgCount(queueBytes) < 0x10_0000 && ENTRY + RingBytes(MsgCount(queueBytes)) == queueBytes
  {
  }

  /** System info at slot 0, the registry from slot 1 on. */
  function CommandQueue(queueBytes: u32, i: SystemInfo, registry: seq<Registry.Entry>): (r: seq<byte>)
    requires QueueBuildable(queueBytes, registry)
    ensures |r| == queueBytes
  {
    RingShape(queueBytes);
    RecordSizes(i, registry);
    var size := RingBytes(MsgCount(queueBytes));
    RingPut(RingPut(EmptyQueue(queueBytes, FinalPointer(queueBytes, registry)), size, 0, SystemRecord(i).bytes),
            size, MESSAGE, RegistryRecord(registry).bytes)
  }

  datatype BootstrapQueue = BootstrapQueue(bytes: seq<byte>, records: seq<Record>, finalWritePointer: u32)

  /** Stores the eight header words of a zeroed queue, the write pointer zero. */
  method StoreQueueHeader(buffer: array<byte>)
    requires QueueBytesOk(buffer.Length) && buffer[..] == Zeros(buffer.Length)
    modifies buffer
    ensures buffer[..] == EmptyQueue(buffer.Length, 0)
  {
    hide Zeros, WordBytes;
    ghost var ws: seq<u32> := seq(8, i => 0);
    ghost var rest := Zeros(buffer.Length - TX_HEADER);
    ZeroWords(8);
    ZerosSplit(TX_HEADER, buffer.Length - TX_HEADER);
    ws := StoreField(buffer, 0, 0, ws, rest);
    ws := StoreField(buffer, 4, buffer.Length, ws, rest);
    ws := StoreField(buffer, 8, MESSAGE, ws, rest);
    ws := StoreField(buffer, 12, MsgCount(buffer.Length), ws, rest);
    ws := StoreField(buffer, 16, 0, ws, rest);
    ws := StoreField(buffer, 20, 1, ws, rest);
    ws := StoreField(buffer, 24, TX_HEADER, ws, rest);
    ws := StoreField(buffer, 28, ENTRY, ws, rest);
    assert ws == QueueHeader(buffer.Length, 0);
  }

  /** Storing into the header commutes with putting into the ring. */
  lemma HeaderCommutes(queue: seq<byte>, size: nat, start: nat, data: seq<byte>, off: nat, field: seq<byte>)
    requires ENTRY + size <= |queue| && start < size && |data| <= size && off + |field| <= ENTRY
    ensures Splice(RingPut(queue, size, start, data), off, field) == RingPut(Splice(queue, off, field), size, start, data)
  {
    hide RingPut, Distance;
    var l, r := Splice(RingPut(queue, size, start, data), off, field), RingPut(Splice(queue, off, field), size, start, data);
    forall i | 0 <= i < |queue| ensures l[i] == r[i] {
      RingPutAt(queue, size, start, data, i);
      RingPutAt(Splice(queue, off, field), size, start, data, i);
    }
  }

  lemma PointerStored(queueBytes: u32, wp: u32)
    requires QueueBytesOk(queueBytes)
    ensures Splice(EmptyQueue(queueBytes, 0), WRITE_POINTER, Le(4, wp)) == EmptyQueue(queueBytes, wp)
  {
    hide WordBytes, Zeros, Le;
    StoreWordAt(QueueHeader(queueBytes, 0), 4, wp, Zeros(queueBytes - TX_HEADER));
    assert QueueHeader(queueBytes, 0)[4 := wp] == QueueHeader(queueBytes, wp);
  }

  lemma QueueIs(queueBytes: u32, i: SystemInfo, registry: seq<Registry.Entry>, s: seq<byte>)
    requires QueueBuildable(queueBytes, registry)
    requires |SystemRecord(i).bytes| == MESSAGE && ENTRY + RingBytes(MsgCount(queueBytes)) == queueBytes
    requires 2 <= MsgCount(queueBytes) && |RegistryRecord(registry).bytes| <= RingBytes(MsgCount(queueBytes))
    requires var size := RingBytes(MsgCount(queueBytes));
      s == RingPut(RingPut(EmptyQueue(queueBytes, 0), size, 0, SystemRecord(i).bytes), size, MESSAGE,
                   RegistryRecord(registry).bytes)
    ensures Splice(s, WRITE_POINTER, Le(4, FinalPointer(queueBytes, registry))) == CommandQueue(queueBytes, i, registry)
  {
    assert Registry.Buildable(registry) && Rpc.Buildable(Registry.TableBytes(registry), MESSAGE, MAX_ELEMENTS);
    hide RingPut, EmptyQueue, SystemRecord, RegistryRecord, Le, Splice, FinalPointer, Registry.Buildable, Rpc.Buildable;
    var size, wp := RingBytes(MsgCount(queueBytes)), FinalPointer(queueBytes, registry);
    var empty := EmptyQueue(queueBytes, 0);
    HeaderCommutes(RingPut(empty, size, 0, SystemRecord(i).bytes), size, MESSAGE, RegistryRecord(registry).bytes,
                   WRITE_POINTER, Le(4, wp));
    HeaderCommutes(empty, size, 0, SystemRecord(i).bytes, WRITE_POINTER, Le(4, wp));
    PointerStored(queueBytes, wp);
  }

  /** The two records, when the registry allows. */
  method BuildRecords(i: SystemInfo, registry: seq<Registry.Entry>) returns (out: Option<(Record, Record)>)
    ensures out.Some? <==> Registry.Buildable(registry) && Rpc.Buildable(Registry.TableBytes(registry), MESSAGE, MAX_ELEMENTS)
    ensures out.Some? ==> out.value == (SystemRecord(i), RegistryRecord(registry))
  {
    hide Registry.Table, Registry.StringsTo, SystemInfoBytes, RecordOf;
    var table := Registry.BuildRegistryTable(registry);
    if table.None? {
      return None;
    }
    var sys := BuildGspSystemInfo(i);
    var sysRecord := BuildRpcRecord(SET_SYSTEM_INFO, sys, 0, MESSAGE, MAX_ELEMENTS);
    var regRecord := BuildRpcRecord(SET_REGISTRY, table.value, 1, MESSAGE, MAX_ELEMENTS);
    if sysRecord.None? || regRecord.None? {
      return None;
    }
    out := Some((sysRecord.value, regRecord.value));
  }

  method BuildBootstrapCommandQueue(queueBytes: u64, i: SystemInfo, registry: seq<Registry.Entry>)
    returns (out: Option<BootstrapQueue>)
    ensures out.Some? <==> QueueBuildable(queueBytes, registry)
    ensures out.Some? ==> out.value == BootstrapQueue(CommandQueue(queueBytes, i, registry),
                                                      [SystemRecord(i), RegistryRecord(registry)],
                                                      FinalPointer(queueBytes, registry))
  {
    hide RingPut, EmptyQueue, Le, Splice, CommandQueue, SystemRecord, RegistryRecord, Zeros, Registry.Buildable,
         Rpc.Buildable, CeilDivide;
    if queueBytes > MAX32 || queueBytes < 3 * MESSAGE || queueBytes % MESSAGE != 0 {
      return None;
    }
    RingShape(queueBytes);
    var msgCount := (queueBytes - ENTRY) / MESSAGE;
    if msgCount < 2 {
      return None;
    }
    var records := BuildRecords(i, registry);
    if records.None? {
      return None;
    }
    var (sysRecord, regRecord) := records.value;
    RecordSizes(i, registry);
    var buffer := new byte[queueBytes](_ => 0);
    AllZeros(buffer[..]);
    StoreQueueHeader(buffer);
    var putSys, slot := PutRecord(buffer, msgCount, 0, sysRecord);
    if !putSys {
      return None;
    }
    Ring.SmallMod(1, msgCount);
    var putReg, wp := PutRecord(buffer, msgCount, slot, regRecord);
    if !putReg {
      return None;
    }
    QueueIs(queueBytes, i, registry, buffer[..]);
    StoreLe(buffer, WRITE_POINTER, 4, wp);
    out := Some(BootstrapQueue(buffer[..], [sysRecord, regRecord], wp));
  }

  // ---- What GSP-RM reads ----

  /** When the two records fit the ring together, both read back, and the header holds the pointer
      behind them. */
  lemma BothRecordsReadable(queueBytes: u32, i: SystemInfo, registry: seq<Registry.Entry>)
    requires QueueBuildable(queueBytes, registry) && 1 + RegistryElements(registry) <= MsgCount(queueBytes)
    ensures ENTRY + RingBytes(MsgCount(queueBytes)) == queueBytes && 2 <= MsgCount(queueBytes)
    ensures var q, size := CommandQueue(queueBytes, i, registry), RingBytes(MsgCount(queueBytes));
      && RingRead(q, size, 0, MESSAGE) == SystemRecord(i).bytes
      && |RegistryRecord(registry).bytes| <= size
      && RingRead(q, size, MESSAGE, |RegistryRecord(registry).bytes|) == RegistryRecord(registry).bytes
      && q[..ENTRY] == EmptyQueue(queueBytes, FinalPointer(queueBytes, registry))[..ENTRY]
  {
    hide RingPut, RingRead, EmptyQueue, SystemRecord, RegistryRecord, Registry.Buildable, Rpc.Buildable;
    RingShape(queueBytes);
    RecordSizes(i, registry);
    var rs := [SystemRecord(i), RegistryRecord(registry)];
    var empty, msgCount := EmptyQueue(queueBytes, FinalPointer(queueBytes, registry)), MsgCount(queueBytes);
    TwoRecords(empty, msgCount, rs);
    EveryRecordReadable(empty, msgCount, 0, rs, 0);
    EveryRecordReadable(empty, msgCount, 0, rs, 1);
    PutAllFrames(empty, msgCount, 0, rs);
    SlotOne(rs, msgCount);
  }

  lemma SlotOne(rs: seq<Record>, msgCount: nat)
    requires |rs| == 2 && rs[0].elementCount == 1 && 2 <= msgCount
    ensures SlotOf(rs, 0, msgCount, 0) == 0 && SlotOf(rs, 0, msgCount, 1) == 1
  {
    assert rs[1..][0] == rs[1];
  }

  lemma TwoRecords(queue: seq<byte>, msgCount: nat, rs: seq<Record>)
    requires |rs| == 2 && 2 <= msgCount && ENTRY + RingBytes(msgCount) <= |queue|
    requires rs[0].elementCount == 1 && |rs[0].bytes| == MESSAGE
    requires 0 < rs[1].elementCount < msgCount && |rs[1].bytes| == rs[1].elementCount * MESSAGE
    ensures WholeRecords(rs) && Total(rs) <= msgCount
    ensures var size := RingBytes(msgCount);
      PutAll(queue, msgCount, 0, rs) == RingPut(RingPut(queue, size, 0, rs[0].bytes), size, MESSAGE, rs[1].bytes)
  {
    hide RingPut;
    assert rs == [rs[0], rs[1]] && rs[1..] == [rs[1]] && rs[1..][1..] == [];
    TailWhole(rs);
    TailWhole(rs[1..]);
    SlotInside(0, msgCount);
    SlotInside(1, msgCount);
    SmallMod(1, msgCount);
    var put := RingPut(queue, RingBytes(msgCount), 0, rs[0].bytes);
    assert Total(rs[1..]) == rs[1].elementCount;
    assert PutAll(queue, msgCount, 0, rs) == PutAll(put, msgCount, 1, rs[1..]);
  }

  /** A command queue by its offsets: header words, the system-info record in the first slot, the registry record
      from the second on, and zeros behind them. */
  ghost predicate QueueHolds(q: seq<byte>, queueBytes: u64, i: SystemInfo, registry: seq<Registry.Entry>)
    requires Registry.Buildable(registry)
  {
    && |q| == queueBytes >= 0x3000
    && Load32(q, 0) == 0 && Load32(q, 4) == queueBytes && Load32(q, 8) == 0x1000
    && Load32(q, 12) == (queueBytes - 0x1000) / 0x1000
    && Load32(q, 20) == 1 && Load32(q, 24) == 32 && Load32(q, 28) == 0x1000
    && (forall j :: 32 <= j < 0x1000 ==> q[j] == 0)
    && RpcLaws.Holds(q[0x1000..0x2000], 72, SystemInfoBytes(i), 0, 1)
    && exists n: nat :: RegistryHeld(q, registry, n)
  }

  /** The registry record fills `n` slots, no more than it needs, and the write pointer stands behind it. */
  ghost predicate RegistryHeld(q: seq<byte>, registry: seq<Registry.Entry>, n: nat)
    requires Registry.Buildable(registry)
  {
    && 0 < n && 0x2000 + n * 0x1000 <= |q| && (n - 1) * 0x1000 < 80 + |Registry.Table(registry)| <= n * 0x1000
    && RpcLaws.Holds(q[0x2000..0x2000 + n * 0x1000], 73, Registry.Table(registry), 1, n)
    && Load32(q, 16) == (if 0x2000 + n * 0x1000 == |q| then 0 else n + 1)
    && forall j :: 0x2000 + n * 0x1000 <= j < |q| ==> q[j] == 0
  }

  lemma HeaderReads(queueBytes: u32, wp: u32, q: seq<byte>)
    requires QueueBytesOk(queueBytes) && |q| >= ENTRY && q[..ENTRY] == EmptyQueue(queueBytes, wp)[..ENTRY]
    ensures Load32(q, 0) == 0 && Load32(q, 4) == queueBytes && Load32(q, 8) == 0x1000
    ensures Load32(q, 12) == (queueBytes - 0x1000) / 0x1000 && Load32(q, 16) == wp
    ensures Load32(q, 20) == 1 && Load32(q, 24) == 32 && Load32(q, 28) == 0x1000
    ensures forall j :: 32 <= j < 0x1000 ==> q[j] == 0
  {
    hide WordBytes, Load32;
    var ws, rest := QueueHeader(queueBytes, wp), Zeros(queueBytes - TX_HEADER);
    var empty := EmptyQueue(queueBytes, wp);
    forall k | 0 <= k < 8 ensures Load32(q, 4 * k) == ws[k] {
      WordAt(ws, k, rest);
      SameWord(q, empty, 4 * k);
    }
    assert Load32(q, 4 * 0) == ws[0] && Load32(q, 4 * 1) == ws[1] && Load32(q, 4 * 2) == ws[2] && Load32(q, 4 * 3) == ws[3];
    assert Load32(q, 4 * 4) == ws[4] && Load32(q, 4 * 5) == ws[5] && Load32(q, 4 * 6) == ws[6] && Load32(q, 4 * 7) == ws[7];
    forall j | 32 <= j < 0x1000 ensures q[j] == 0 {
      assert q[..ENTRY][j] == empty[..ENTRY][j] == rest[j - 32];
    }
  }

  lemma SameWord(a: seq<byte>, b: seq<byte>, off: nat)
    requires off + 4 <= ENTRY && |a| >= ENTRY && |b| >= ENTRY && a[..ENTRY] == b[..ENTRY]
    ensures Load32(a, off) == Load32(b, off)
  {
    assert a[off..off + 4] == a[..ENTRY][off..off + 4];
    assert b[off..off + 4] == b[..ENTRY][off..off + 4];
  }

  /** A read that does not wrap is a slice. */
  lemma StraightRead(q: seq<byte>, size: nat, start: nat, n: nat)
    requires ENTRY + size <= |q| && start < size && start + n <= size
    ensures RingRead(q, size, start, n) == q[ENTRY + start..ENTRY + start + n]
  {
  }

  lemma ZerosBehind(queueBytes: u32, i: SystemInfo, registry: seq<Registry.Entry>, j: nat)
    requires QueueBuildable(queueBytes, registry) && 1 + RegistryElements(registry) <= MsgCount(queueBytes)
    requires 0x2000 + RegistryElements(registry) * 0x1000 <= j < queueBytes
    ensures CommandQueue(queueBytes, i, registry)[j] == 0
  {
    hide RingPut, SystemRecord, RegistryRecord, Registry.Buildable, Rpc.Buildable, WordBytes;
    RingShape(queueBytes);
    RecordSizes(i, registry);
    var size, empty := RingBytes(MsgCount(queueBytes)), EmptyQueue(queueBytes, FinalPointer(queueBytes, registry));
    var put := RingPut(empty, size, 0, SystemRecord(i).bytes);
    RingPutAt(put, size, MESSAGE, RegistryRecord(registry).bytes, j);
    RingPutAt(empty, size, 0, SystemRecord(i).bytes, j);
    assert empty[j] == Zeros(queueBytes - TX_HEADER)[j - TX_HEADER];
  }

  /** When both records fit the ring together, the queue holds them. */
  lemma CommandQueueHolds(queueBytes: u32, i: SystemInfo, registry: seq<Registry.Entry>)
    requires QueueBuildable(queueBytes, registry) && 1 + RegistryElements(registry) <= MsgCount(queueBytes)
    ensures QueueHolds(CommandQueue(queueBytes, i, registry), queueBytes, i, registry)
  {
    hide RingRead, CommandQueue, Rpc.Buildable, Registry.Buildable, Registry.Table, EmptyQueue, RpcLaws.Holds, Load32, RegistryHeld;
    var q, n, size := CommandQueue(queueBytes, i, registry), RegistryElements(registry), RingBytes(MsgCount(queueBytes));
    RingShape(queueBytes);
    BothRecordsReadable(queueBytes, i, registry);
    HeaderReads(queueBytes, FinalPointer(queueBytes, registry), q);
    RecordSizes(i, registry);
    StraightRead(q, size, 0, MESSAGE);
    SystemRecordHolds(i);
    assert q[0x1000..0x2000] == SystemRecord(i).bytes;
    StraightRead(q, size, MESSAGE, n * MESSAGE);
    forall j | 0x2000 + n * 0x1000 <= j < |q| ensures q[j] == 0 { ZerosBehind(queueBytes, i, registry, j); }
    RegistryIsHeld(queueBytes, registry, q);
  }

  lemma SystemRecordHolds(i: SystemInfo)
    ensures RpcLaws.Holds(SystemRecord(i).bytes, 72, SystemInfoBytes(i), 0, 1)
  {
    hide SystemInfoBytes, RpcLaws.Holds, RecordOf;
    assert Rpc.Buildable(SYSTEM_INFO_BYTES, MESSAGE, MAX_ELEMENTS);
    RpcLaws.BuiltRecordHolds(72, SystemInfoBytes(i), 0, MESSAGE, MAX_ELEMENTS);
    OneElement(RecordOf(72, SystemInfoBytes(i), 0, MESSAGE).elementCount);
  }

  lemma OneElement(n: nat)
    requires 0 < n && n * 0x1000 < 80 + 928 + 0x1000
    ensures n == 1
  {
  }

  lemma RegistryIsHeld(queueBytes: u32, registry: seq<Registry.Entry>, q: seq<byte>)
    requires QueueBuildable(queueBytes, registry) && 1 + RegistryElements(registry) <= MsgCount(queueBytes) && |q| == queueBytes
    requires var n := RegistryElements(registry);
      && 0x2000 + n * 0x1000 <= queueBytes && q[0x2000..0x2000 + n * 0x1000] == RegistryRecord(registry).bytes
      && (forall j :: 0x2000 + n * 0x1000 <= j < |q| ==> q[j] == 0)
    requires Load32(q, 16) == FinalPointer(queueBytes, registry)
    ensures RegistryHeld(q, registry, RegistryElements(registry))
  {
    hide Registry.Table, Registry.Buildable, RpcLaws.Holds, Load32, RecordOf, FinalPointer, RegistryElements, CeilDivide;
    var n := RegistryElements(registry);
    RegistryRecordHolds(registry);
    PointerBehind(queueBytes, registry);
  }

  lemma RegistryRecordHolds(registry: seq<Registry.Entry>)
    requires Registry.Buildable(registry) && Rpc.Buildable(Registry.TableBytes(registry), MESSAGE, MAX_ELEMENTS)
    ensures var n := RegistryElements(registry);
      && 0 < n && (n - 1) * 0x1000 < 80 + |Registry.Table(registry)| <= n * 0x1000
      && RpcLaws.Holds(RegistryRecord(registry).bytes, 73, Registry.Table(registry), 1, n)
  {
    hide Registry.Table, Registry.Buildable, RpcLaws.Holds, RecordOf;
    RpcLaws.BuiltRecordHolds(73, Registry.Table(registry), 1, MESSAGE, MAX_ELEMENTS);
    CountCovers(OVERHEAD + Registry.TableBytes(registry), MESSAGE);
    RecordSizes(SystemInfo(0, 0, 0, 0, 0, 0, 0, 0, 0, 0, false), registry);
  }

  lemma PointerBehind(queueBytes: u32, registry: seq<Registry.Entry>)
    requires QueueBytesOk(queueBytes) && 1 + RegistryElements(registry) <= MsgCount(queueBytes)
    ensures var n := RegistryElements(registry);
      FinalPointer(queueBytes, registry) == if 0x2000 + n * 0x1000 == queueBytes then 0 else n + 1
  {
    hide RegistryElements;
    var n := RegistryElements(registry);
    RingShape(queueBytes);
    if n + 1 < MsgCount(queueBytes) { SmallMod(n + 1, MsgCount(queueBytes)); }
  }

  /** A registry record as long as the ring wraps over the first slot, which then holds its last page: the
      source checks each record against the ring, so it accepts this. */
  lemma FullRegistryOverwrites(queueBytes: u32, i: SystemInfo, registry: seq<Registry.Entry>)
    requires QueueBuildable(queueBytes, registry) && RegistryElements(registry) == MsgCount(queueBytes)
    ensures ENTRY + RingBytes(MsgCount(queueBytes)) == queueBytes && 2 <= MsgCount(queueBytes)
    ensures var data := RegistryRecord(registry).bytes;
      |data| >= MESSAGE && RingRead(CommandQueue(queueBytes, i, registry), RingBytes(MsgCount(queueBytes)), 0, MESSAGE) ==
                           data[|data| - MESSAGE..]
  {
    hide RingPut, RingRead, EmptyQueue, SystemRecord, RegistryRecord, Registry.Buildable, Rpc.Buildable;
    RingShape(queueBytes);
    RecordSizes(i, registry);
    var size, data := RingBytes(MsgCount(queueBytes)), RegistryRecord(registry).bytes;
    var before := RingPut(EmptyQueue(queueBytes, FinalPointer(queueBytes, registry)), size, 0, SystemRecord(i).bytes);
    FullPutWraps(before, size, data);
  }

  /** Every record starts with 32 zeros, and its version word is not zero. */
  lemma RecordFront(function_: u32, payload: seq<byte>, sequence: u32)
    requires Rpc.Buildable(|payload|, MESSAGE, MAX_ELEMENTS)
    ensures var r := RecordOf(function_, payload, sequence, MESSAGE).bytes;
      |r| >= OVERHEAD && r[..32] == Zeros(32) && Load32(r, ELEMENT_HEADER) != 0
  {
    hide WordBytes, Load32, Zeros, XorWords;
    var count := ElementCount(|payload|, MESSAGE);
    CountCovers(OVERHEAD + |payload|, MESSAGE);
    var record := RecordOf(function_, payload, sequence, MESSAGE);
    var padding := Zeros(count * MESSAGE - OVERHEAD - |payload|);
    RpcLaws.Fields(record.checksum, function_, payload, sequence, count, padding);
    FrontOf(HeaderWords(record.checksum, function_, |payload|, sequence, count), payload, padding);
  }

  lemma FrontOf(ws: seq<u32>, payload: seq<byte>, padding: seq<byte>)
    requires |ws| >= 8 && forall i :: 0 <= i < 8 ==> ws[i] == 0
    ensures (WordBytes(ws) + payload + padding)[..32] == Zeros(32)
  {
    hide Zeros, WordBytes;
    var zeros: seq<u32> := seq(8, i => 0);
    ZeroWords(8);
    WordsJoin(zeros, ws[8..]);
    assert ws == zeros + ws[8..];
    assert WordBytes(ws)[..32] == Zeros(32);
  }

  lemma {:induction false} WordsJoin(a: seq<u32>, b: seq<u32>)
    ensures WordBytes(a + b) == WordBytes(a) + WordBytes(b)
  {
    hide Le;
    if a == [] {
      assert a + b == b;
    } else {
      WordsJoin(a[1..], b);
      assert (a + b)[1..] == a[1..] + b;
    }
  }

  lemma ZeroWordRead(s: seq<byte>)
    requires |s| >= ELEMENT_HEADER + 4 && forall k :: ELEMENT_HEADER <= k < ELEMENT_HEADER + 4 ==> s[k] == 0
    ensures Load32(s, ELEMENT_HEADER) == 0
  {
    assert s[ELEMENT_HEADER..ELEMENT_HEADER + 4] == Zeros(4);
    UnLeOfLe(4, 0);
    assert Le(4, 0) == Zeros(4);
  }

  /** The page of a registry record from `at` on, behind its first, is never the front of a record. */
  lemma TailIsNoFront(registry: seq<Registry.Entry>, at: nat, front: seq<byte>)
    requires Registry.Buildable(registry) && Rpc.Buildable(Registry.TableBytes(registry), MESSAGE, MAX_ELEMENTS)
    requires MESSAGE <= at < OVERHEAD + Registry.TableBytes(registry)
    requires at + MESSAGE <= |RegistryRecord(registry).bytes|
    requires |front| == MESSAGE && front[..32] == Zeros(32) && Load32(front, ELEMENT_HEADER) != 0
    ensures RegistryRecord(registry).bytes[at..at + MESSAGE] != front
  {
    hide Registry.Table, Registry.Buildable, Registry.TableBytes, Load32, RegistryRecord;
    var table, data := Registry.Table(registry), RegistryRecord(registry).bytes;
    RecordIs(registry);
    var page, t := data[at..at + MESSAGE], at - OVERHEAD;
    if at + 1 < OVERHEAD + |table| {
      Registry.TableHasNoZeroRun(registry, t);
      var k :| t <= k < t + 32 && k < |table| && table[k] != 0;
      assert page[k - t] == data[OVERHEAD + k] == table[k];
      assert front[..32][k - t] == 0;
    } else {
      forall k | ELEMENT_HEADER <= k < ELEMENT_HEADER + 4 ensures page[k] == 0 {
        assert page[k] == data[at + k];
      }
      ZeroWordRead(page);
    }
  }

  /** A registry record byte by byte behind its header: the table, then zeros. */
  lemma RecordIs(registry: seq<Registry.Entry>)
    requires Registry.Buildable(registry) && Rpc.Buildable(Registry.TableBytes(registry), MESSAGE, MAX_ELEMENTS)
    ensures var data, table := RegistryRecord(registry).bytes, Registry.Table(registry);
      && OVERHEAD + |table| <= |data|
      && (forall k :: 0 <= k < |table| ==> data[OVERHEAD + k] == table[k])
      && (forall k :: OVERHEAD + |table| <= k < |data| ==> data[k] == 0)
  {
    hide WordBytes, HeaderWords, XorWords, Registry.Table;
    CountCovers(OVERHEAD + Registry.TableBytes(registry), MESSAGE);
  }

  /** System info can be read exactly when both records fit the ring together. */
  lemma SystemInfoSurvives(queueBytes: u32, i: SystemInfo, registry: seq<Registry.Entry>)
    requires QueueBuildable(queueBytes, registry)
    ensures ENTRY + RingBytes(MsgCount(queueBytes)) == queueBytes && 2 <= MsgCount(queueBytes)
    ensures RingRead(CommandQueue(queueBytes, i, registry), RingBytes(MsgCount(queueBytes)), 0, MESSAGE) == SystemRecord(i).bytes
            <==> 1 + RegistryElements(registry) <= MsgCount(queueBytes)
  {
    hide RingRead, CommandQueue, RegistryRecord, Registry.Buildable, Registry.TableBytes, Load32, SystemInfoBytes;
    RingShape(queueBytes);
    if 1 + RegistryElements(registry) <= MsgCount(queueBytes) {
      BothRecordsReadable(queueBytes, i, registry);
    } else {
      FullRegistryOverwrites(queueBytes, i, registry);
      RecordSizes(i, registry);
      CountCovers(OVERHEAD + Registry.TableBytes(registry), MESSAGE);
      RecordFront(SET_SYSTEM_INFO, SystemInfoBytes(i), 0);
      var data := RegistryRecord(registry).bytes;
      TailIsNoFront(registry, |data| - MESSAGE, SystemRecord(i).bytes);
      assert data[|data| - MESSAGE..] == data[|data| - MESSAGE..|data| - MESSAGE + MESSAGE];
    }
  }

  /** One registry value with a 4096-letter name. */
  function LongName(): (r: seq<Registry.Entry>)
    ensures |r| == 1 && |r[0].name| == 0x1000
  {
    [Registry.Entry(seq(0x1000, i => 0x41), 0)]
  }

  /** It is accepted for a three-page queue and costs the system-info record. */
  lemma LongNameOverwrites(i: SystemInfo)
    ensures QueueBuildable(0x3000, LongName()) && ENTRY + RingBytes(MsgCount(0x3000)) == 0x3000 && 2 <= MsgCount(0x3000)
    ensures RingRead(CommandQueue(0x3000, i, LongName()), RingBytes(MsgCount(0x3000)), 0, MESSAGE) != SystemRecord(i).bytes
  {
    hide RingRead, CommandQueue, SystemRecord;
    var registry := LongName();
    assert Registry.StringsTo(registry, 1) == Registry.StringsTo(registry, 0) + 0x1001;
    SystemInfoSurvives(0x3000, i, registry);
  }

  // ---- The whole shared allocation ----

  predicate SharedBuildable(l: QueueMemoryLayout, pages: seq<u64>, registry: seq<Registry.Entry>)
  {
    pages != [] && QueueMemory.TableBuildable(l, pages) && QueueBuildable(l.queueBytes, registry)
  }

  datatype SharedQueue = SharedQueue(bytes: seq<byte>, cachedArguments: seq<byte>, commandQueue: BootstrapQueue)

  /** Page table, command queue, and a status queue that is still zero. */
  function SharedBytes(l: QueueMemoryLayout, pages: seq<u64>, i: SystemInfo, registry: seq<Registry.Entry>): seq<byte>
    requires SharedBuildable(l, pages, registry)
  {
    Radix3.Level(pages, l.pageTableBytes) + CommandQueue(l.queueBytes, i, registry) + Zeros(l.queueBytes)
  }

  /** Builds the allocation that GSP-RM is handed, for a planned layout. */
  method BuildSharedQueueAllocationImage(l: QueueMemoryLayout, pages: seq<u64>, i: SystemInfo, registry: seq<Registry.Entry>)
    returns (out: Option<SharedQueue>)
    requires QueueMemory.PlanQueueMemory(l.queueBytes) == Some(l)
    ensures out.Some? <==> SharedBuildable(l, pages, registry)
    ensures out.Some? ==>
              && out.value.bytes == SharedBytes(l, pages, i, registry)
              && |out.value.bytes| == l.totalBytes
              && out.value.cachedArguments == QueueMemory.CachedArguments(l, pages[0])
              && out.value.commandQueue.bytes == CommandQueue(l.queueBytes, i, registry)
  {
    hide Zeros, Radix3.Level, CommandQueue, QueueMemory.TableBuildable, QueueBuildable, QueueMemory.CachedArguments,
         QueueMemory.PlanQueueMemory, Splice;
    QueueMemory.QueueLayoutShape(l.queueBytes);
    if pages == [] {
      return None;
    }
    if l.commandQueueOffset > l.totalBytes || l.queueBytes > l.totalBytes - l.commandQueueOffset {
      return None;
    }
    if l.statusQueueOffset > l.totalBytes || l.queueBytes > l.totalBytes - l.statusQueueOffset {
      return None;
    }
    var table := QueueMemory.BuildQueuePageTable(l, pages);
    var queue := BuildBootstrapCommandQueue(l.queueBytes, i, registry);
    if table.None? || queue.None? {
      return None;
    }
    if |table.value| != l.pageTableBytes || |queue.value.bytes| != l.queueBytes {
      return None;
    }
    var bytes := Assemble(table.value, queue.value.bytes, l.totalBytes);
    var arguments := QueueMemory.BuildCachedArguments(l, pages[0]);
    out := Some(SharedQueue(bytes, arguments, queue.value));
  }

  /** Copies the table and the queue to the front of a zeroed allocation. */
  method Assemble(table: seq<byte>, queue: seq<byte>, total: nat) returns (bytes: seq<byte>)
    requires |table| + |queue| <= total
    ensures bytes == table + queue + Zeros(total - |table| - |queue|)
  {
    hide Zeros, Splice;
    var buffer := new byte[total](_ => 0);
    AllZeros(buffer[..]);
    TwoCopies(table, queue, total - |table| - |queue|);
    CopyInto(buffer, 0, table);
    CopyInto(buffer, |table|, queue);
    bytes := buffer[..];
  }

  lemma TwoCopies(a: seq<byte>, b: seq<byte>, n: nat)
    ensures Splice(Splice(Zeros(|a| + |b| + n), 0, a), |a|, b) == a + b + Zeros(n)
  {
    hide Zeros, Splice;
    assert [] + Zeros(|a| + |b| + n) == Zeros(|a| + |b| + n) && [] + a == a;
    SpliceZeros([], |a| + |b| + n, a);
    SpliceZeros(a, |b| + n, b);
  }

  /** Each part of the allocation is where the layout says. */
  lemma SharedParts(l: QueueMemoryLayout, pages: seq<u64>, i: SystemInfo, registry: seq<Registry.Entry>)
    requires QueueMemory.PlanQueueMemory(l.queueBytes) == Some(l)
    requires SharedBuildable(l, pages, registry)
    ensures var s := SharedBytes(l, pages, i, registry);
      && |s| == l.totalBytes && l.commandQueueOffset <= l.statusQueueOffset <= l.totalBytes
      && s[..l.commandQueueOffset] == Radix3.Level(pages, l.pageTableBytes)
      && s[l.commandQueueOffset..l.statusQueueOffset] == CommandQueue(l.queueBytes, i, registry)
      && s[l.statusQueueOffset..] == Zeros(l.queueBytes)
  {
    hide Zeros, Radix3.Level, CommandQueue, QueueMemory.PlanQueueMemory;
    QueueMemory.QueueLayoutShape(l.queueBytes);
  }

  /** Following the argument block into the allocation: its first page is named, each entry at its front names
      its page, the command queue lies at the offset given at 16, the status queue, still zero, at the one
      given at 24. */
  ghost predicate Linked(b: seq<byte>, s: seq<byte>, pages: seq<u64>, queueBytes: u64, i: SystemInfo, registry: seq<Registry.Entry>)
    requires |b| == 72 && pages != [] && Registry.Buildable(registry)
  {
    var command, status := Load(b, 16, 8), Load(b, 24, 8);
    && Load(b, 0, 8) == pages[0] && Load(b, 8, 4) == |pages| % 0x1_0000_0000 && Load(b, 48, 4) == 1
    && 8 * |pages| <= command && command + queueBytes == status && status + queueBytes == |s|
    && (forall k :: 0 <= k < |pages| ==> Load64(s, 8 * k) == pages[k])
    && QueueHolds(s[command..status], queueBytes, i, registry)
    && forall j :: status <= j < |s| ==> s[j] == 0
  }

  lemma ArgumentsLink(l: QueueMemoryLayout, pages: seq<u64>, i: SystemInfo, registry: seq<Registry.Entry>)
    requires QueueMemory.PlanQueueMemory(l.queueBytes) == Some(l) && SharedBuildable(l, pages, registry)
    requires 1 + RegistryElements(registry) <= MsgCount(l.queueBytes)
    ensures Linked(QueueMemory.CachedArguments(l, pages[0]), SharedBytes(l, pages, i, registry), pages, l.queueBytes, i, registry)
  {
    hide Zeros, Radix3.Level, CommandQueue, QueueMemory.PlanQueueMemory, QueueMemory.CachedArguments, QueueHolds, Load,
         QueueMemory.TableBuildable, RegistryElements, SharedBytes, Registry.Buildable;
    var b, s := QueueMemory.CachedArguments(l, pages[0]), SharedBytes(l, pages, i, registry);
    QueueMemory.CachedNamesQueues(l, pages[0]);
    SharedParts(l, pages, i, registry);
    QueueMemory.QueueLayoutShape(l.queueBytes);
    CommandQueueHolds(l.queueBytes, i, registry);
    EntriesCounted(l, pages);
    forall k | 0 <= k < |pages| ensures Load64(s, 8 * k) == pages[k] { EntryLinked(l, pages, s, k); }
    forall j | l.statusQueueOffset <= j < |s| ensures s[j] == 0 { assert s[j] == s[l.statusQueueOffset..][j - l.statusQueueOffset]; }
  }

  lemma EntriesCounted(l: QueueMemoryLayout, pages: seq<u64>)
    requires QueueMemory.PlanQueueMemory(l.queueBytes) == Some(l) && QueueMemory.TableBuildable(l, pages)
    ensures |pages| == l.pageTableEntryCount && 8 * |pages| <= l.pageTableBytes == l.commandQueueOffset
  {
    hide QueueMemory.PlanQueueMemory;
    QueueMemory.QueueLayoutShape(l.queueBytes);
  }

  lemma EntryLinked(l: QueueMemoryLayout, pages: seq<u64>, s: seq<byte>, k: nat)
    requires QueueMemory.TableBuildable(l, pages) && k < |pages|
    requires l.pageTableBytes <= |s| && s[..l.pageTableBytes] == Radix3.Level(pages, l.pageTableBytes)
    ensures Load64(s, 8 * k) == pages[k]
  {
    hide Radix3.Level;
    QueueMemory.TableEntry(l, pages, k);
    assert s[8 * k..8 * k + 8] == s[..l.pageTableBytes][8 * k..8 * k + 8];
  }

  // ---- The default registry ----

  /** "RMForcePcieConfigSave". */
  const SAVE_CONFIG: seq<byte> :=
    [0x52, 0x4D, 0x46, 0x6F, 0x72, 0x63, 0x65, 0x50, 0x63, 0x69, 0x65, 0x43, 0x6F, 0x6E, 0x66, 0x69, 0x67, 0x53, 0x61, 0x76,
     0x65]

  /** "RMSecBusResetEnable". */
  const BUS_RESET: seq<byte> :=
    [0x52, 0x4D, 0x53, 0x65, 0x63, 0x42, 0x75, 0x73, 0x52, 0x65, 0x73, 0x65, 0x74, 0x45, 0x6E, 0x61, 0x62, 0x6C, 0x65]

  function DefaultRegistry(): seq<Registry.Entry> { [Registry.Entry(SAVE_CONFIG, 1), Registry.Entry(BUS_RESET, 1)] }

  lemma DefaultNames()
    ensures Registry.NameOk(SAVE_CONFIG) && |SAVE_CONFIG| == 21
    ensures Registry.NameOk(BUS_RESET) && |BUS_RESET| == 19
  {
  }

  /** The default registry fits one element of any queue, beside system info. */
  lemma DefaultRegistryFits(queueBytes: u64)
    requires QueueBytesOk(queueBytes)
    ensures Registry.TableBytes(DefaultRegistry()) == 82
    ensures QueueBuildable(queueBytes, DefaultRegistry()) && 1 + RegistryElements(DefaultRegistry()) <= MsgCount(queueBytes)
  {
    DefaultNames();
    RingShape(queueBytes);
    TwoNames(SAVE_CONFIG, BUS_RESET);
    assert RegistryElements(DefaultRegistry()) == 1;
  }

  lemma TwoNames(a: seq<byte>, b: seq<byte>)
    ensures Registry.TableBytes([Registry.Entry(a, 1), Registry.Entry(b, 1)]) == 42 + |a| + |b|
  {
    var e := [Registry.Entry(a, 1), Registry.Entry(b, 1)];
    assert Registry.StringsTo(e, 1) == |a| + 1;
  }

  /** The block and the allocation of a queue with the default registry. */
  ghost predicate DefaultLinked(b: seq<byte>, s: seq<byte>, pages: seq<u64>, queueBytes: u64, i: SystemInfo)
    requires |b| == 72 && pages != []
  {
    DefaultNames();
    TwoNames(SAVE_CONFIG, BUS_RESET);
    Linked(b, s, pages, queueBytes, i, DefaultRegistry())
  }

  lemma DefaultArgumentsLink(l: QueueMemoryLayout, pages: seq<u64>, i: SystemInfo)
    requires QueueMemory.PlanQueueMemory(l.queueBytes) == Some(l) && SharedBuildable(l, pages, DefaultRegistry())
    ensures DefaultLinked(QueueMemory.CachedArguments(l, pages[0]), SharedBytes(l, pages, i, DefaultRegistry()), pages, l.queueBytes, i)
  {
    hide Linked, QueueMemory.PlanQueueMemory, QueueMemory.CachedArguments, SharedBytes, DefaultRegistry, RegistryElements, QueueBytesOk;
    QueueSized(l, pages);
    DefaultRegistryFits(l.queueBytes);
    ArgumentsLink(l, pages, i, DefaultRegistry());
  }

  lemma QueueSized(l: QueueMemoryLayout, pages: seq<u64>)
    requires SharedBuildable(l, pages, DefaultRegistry())
    ensures QueueBytesOk(l.queueBytes)
  {
    hide DefaultRegistry;
  }
}
