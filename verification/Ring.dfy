/** The command ring that the boot records are prefilled into. */
module Ring {
  import opened Words
  import opened Arith
  import opened Bytes
  import opened Rpc

  const MESSAGE: nat := 0x1000
  const ENTRY: nat := 0x1000

  function RingBytes(msgCount: nat): nat { msgCount * MESSAGE }

  /** A ring position `i` bytes after `start`. */
  function Wrap(start: nat, i: nat, size: nat): nat
    requires start < size && i < size
  {
    if start + i < size then start + i else start + i - size
  }

  /** How far after `start` a ring position lies. */
  function Distance(start: nat, at: nat, size: nat): nat
    requires start < size && at < size
  {
    if at >= start then at - start else at + size - start
  }

  /** The queue with `data` written into the ring from `start`, continuing at its beginning. */
  function RingPut(queue: seq<byte>, size: nat, start: nat, data: seq<byte>): (r: seq<byte>)
    requires ENTRY + size <= |queue| && start < size && |data| <= size
    ensures |r| == |queue|
  {
    var first := Min(|data|, size - start);
    Splice(Splice(queue, ENTRY + start, data[..first]), ENTRY, data[first..])
  }

  /** The byte at every position after a put: the data within its reach, the old byte elsewhere. */
  lemma RingPutAt(queue: seq<byte>, size: nat, start: nat, data: seq<byte>, i: nat)
    requires ENTRY + size <= |queue| && start < size && |data| <= size && i < |queue|
    ensures RingPut(queue, size, start, data)[i] ==
            if ENTRY <= i < ENTRY + size && Distance(start, i - ENTRY, size) < |data|
            then data[Distance(start, i - ENTRY, size)] else queue[i]
  {
  }

  /** What a reader sees at ring slot `start`. */
  function RingRead(queue: seq<byte>, size: nat, start: nat, n: nat): seq<byte>
    requires ENTRY + size <= |queue| && start < size && n <= size
  {
    seq(n, i requires 0 <= i < n => queue[ENTRY + Wrap(start, i, size)])
  }

  lemma ReadBack(queue: seq<byte>, size: nat, start: nat, data: seq<byte>)
    requires ENTRY + size <= |queue| && start < size && |data| <= size
    ensures RingRead(RingPut(queue, size, start, data), size, start, |data|) == data
  {
    var after := RingPut(queue, size, start, data);
    forall i | 0 <= i < |data| ensures after[ENTRY + Wrap(start, i, size)] == data[i] {
      RingPutAt(queue, size, start, data, ENTRY + Wrap(start, i, size));
    }
  }

  /** A put of the ring's whole length from slot 1 ends over slot 0. */
  lemma FullPutWraps(queue: seq<byte>, size: nat, data: seq<byte>)
    requires ENTRY + size <= |queue| && MESSAGE < size == |data|
    ensures RingRead(RingPut(queue, size, MESSAGE, data), size, 0, MESSAGE) == data[size - MESSAGE..]
  {
    var after, tail := RingPut(queue, size, MESSAGE, data), data[size - MESSAGE..];
    assert after[ENTRY..ENTRY + MESSAGE] == tail;
    forall k | 0 <= k < MESSAGE ensures after[ENTRY + Wrap(0, k, size)] == tail[k] {
      assert after[ENTRY..ENTRY + MESSAGE][k] == after[ENTRY + k];
    }
  }

  // ---- One record ----

  predicate Puttable(queueBytes: nat, msgCount: u32, elementCount: u32, recordBytes: nat)
  {
    && msgCount != 0 && elementCount != 0 && elementCount <= msgCount
    && recordBytes <= RingBytes(msgCount) && ENTRY + RingBytes(msgCount) <= queueBytes
  }

  /** Appends one record at the write pointer. There is no read pointer and no free-space check;
      the pointer sum wraps at 32 bits before it is reduced. */
  method PutRecord(queue: array<byte>, msgCount: u32, writePtr: u32, record: Record) returns (ok: bool, next: u32)
    requires msgCount != 0 ==> writePtr < msgCount
    modifies queue
    ensures ok <==> Puttable(queue.Length, msgCount, record.elementCount, |record.bytes|)
    ensures ok ==> queue[..] == RingPut(old(queue[..]), RingBytes(msgCount), writePtr * MESSAGE, record.bytes)
    ensures ok ==> next == (writePtr + record.elementCount) % 0x1_0000_0000 % msgCount
    ensures !ok ==> queue[..] == old(queue[..]) && next == writePtr
  {
    hide Splice;
    if msgCount == 0 || record.elementCount == 0 || record.elementCount > msgCount {
      return false, writePtr;
    }
    var ringBytes := msgCount * MESSAGE;
    var ringOffset := writePtr * MESSAGE;
    if |record.bytes| > ringBytes || ENTRY + ringBytes > queue.Length {
      return false, writePtr;
    }
    var first := Min(|record.bytes|, ringBytes - ringOffset);
    CopyInto(queue, ENTRY + ringOffset, record.bytes[..first]);
    if first < |record.bytes| {
      CopyInto(queue, ENTRY, record.bytes[first..]);
    } else {
      SpliceNothing(queue[..], ENTRY, record.bytes[first..]);
    }
    ok, next := true, (writePtr + record.elementCount) % 0x1_0000_0000 % msgCount;
  }

  lemma SpliceNothing(s: seq<byte>, off: nat, data: seq<byte>)
    requires data == []
    ensures Splice(s, off, data) == s
  {
  }

  // ---- Several records ----

  /** Records as `BuildRpcRecord` makes them for this ring. */
  predicate WholeRecords(rs: seq<Record>)
  {
    forall r <- rs :: r.elementCount > 0 && |r.bytes| == r.elementCount * MESSAGE
  }

  function Total(rs: seq<Record>): nat
  {
    if rs == [] then 0 else rs[0].elementCount + Total(rs[1..])
  }

  /** The slot of record `j` when the list is put from `slot`. */
  function SlotOf(rs: seq<Record>, slot: nat, msgCount: nat, j: nat): nat
    requires slot < msgCount && j < |rs|
    decreases j
  {
    if j == 0 then slot
    else SlotOf(rs[1..], (slot + rs[0].elementCount) % msgCount, msgCount, j - 1)
  }

  function PutAll(queue: seq<byte>, msgCount: nat, slot: nat, rs: seq<Record>): (r: seq<byte>)
    requires slot < msgCount && ENTRY + RingBytes(msgCount) <= |queue|
    requires WholeRecords(rs) && Total(rs) <= msgCount
    ensures |r| == |queue|
    decreases |rs|
  {
    if rs == [] then queue
    else
      assert rs[0] in rs;
      assert WholeRecords(rs[1..]) by { TailWhole(rs); }
      SlotInside(slot, msgCount);
      PutAll(RingPut(queue, RingBytes(msgCount), slot * MESSAGE, rs[0].bytes), msgCount,
             (slot + rs[0].elementCount) % msgCount, rs[1..])
  }

  lemma TailWhole(rs: seq<Record>)
    requires WholeRecords(rs) && rs != []
    ensures WholeRecords(rs[1..]) && rs[0].elementCount > 0 && |rs[0].bytes| == rs[0].elementCount * MESSAGE
  {
    assert rs[0] in rs;
    forall r | r in rs[1..] ensures r.elementCount > 0 && |r.bytes| == r.elementCount * MESSAGE { assert r in rs; }
  }

  lemma SlotInside(slot: nat, msgCount: nat)
    requires slot < msgCount
    ensures slot * MESSAGE < RingBytes(msgCount)
  {
  }

  /** Moving the start forward by `n` slots shortens distances, wrapping those already passed. */
  lemma DistanceMoves(slot: nat, n: nat, msgCount: nat, at: nat)
    requires slot < msgCount && 0 < n <= msgCount && at < RingBytes(msgCount)
    ensures var size, next := RingBytes(msgCount), (slot + n) % msgCount;
      && next * MESSAGE < size && slot * MESSAGE < size
      && var d := Distance(slot * MESSAGE, at, size);
      && d < size
      && Distance(next * MESSAGE, at, size) ==
         if d >= n * MESSAGE then d - n * MESSAGE else d + size - n * MESSAGE
  {
    if slot + n >= msgCount {
      ModShift(slot + n - msgCount, 1, msgCount);
      if slot + n == 2 * msgCount {
      } else {
        SmallMod(slot + n - msgCount, msgCount);
      }
    } else {
      SmallMod(slot + n, msgCount);
    }
  }

  lemma SmallMod(x: nat, m: nat)
    requires x < m
    ensures x % m == x
  {
  }

  /** A byte beyond the reach of `n` slots from `slot`, if it is in the ring at all. */
  predicate Beyond(msgCount: nat, slot: nat, n: nat, i: nat)
    requires slot < msgCount
  {
    SlotInside(slot, msgCount);
    ENTRY <= i < ENTRY + RingBytes(msgCount) ==> Distance(slot * MESSAGE, i - ENTRY, RingBytes(msgCount)) >= n * MESSAGE
  }

  /** Moving past the first `n` slots, the same byte is beyond what remains. */
  lemma BeyondMoves(msgCount: nat, slot: nat, n: nat, rest: nat, i: nat)
    requires slot < msgCount && 0 < n && n + rest <= msgCount && Beyond(msgCount, slot, n + rest, i)
    ensures Beyond(msgCount, (slot + n) % msgCount, rest, i)
  {
    hide Distance;
    SlotInside(slot, msgCount);
    SlotInside((slot + n) % msgCount, msgCount);
    if ENTRY <= i < ENTRY + RingBytes(msgCount) {
      DistanceMoves(slot, n, msgCount, i - ENTRY);
    }
  }

  lemma PutBeyond(queue: seq<byte>, msgCount: nat, slot: nat, data: seq<byte>, n: nat, i: nat)
    requires slot < msgCount && ENTRY + RingBytes(msgCount) <= |queue| && i < |queue|
    requires |data| <= n * MESSAGE && n <= msgCount && Beyond(msgCount, slot, n, i)
    ensures slot * MESSAGE < RingBytes(msgCount) && |data| <= RingBytes(msgCount)
    ensures RingPut(queue, RingBytes(msgCount), slot * MESSAGE, data)[i] == queue[i]
  {
    hide RingPut, Distance;
    SlotInside(slot, msgCount);
    RingPutAt(queue, RingBytes(msgCount), slot * MESSAGE, data, i);
  }

  /** Putting a list changes only ring bytes within the list's total reach. */
  lemma {:induction false} PutAllKeeps(queue: seq<byte>, msgCount: nat, slot: nat, rs: seq<Record>, i: nat)
    requires slot < msgCount && ENTRY + RingBytes(msgCount) <= |queue|
    requires WholeRecords(rs) && Total(rs) <= msgCount && i < |queue|
    requires Beyond(msgCount, slot, Total(rs), i)
    ensures PutAll(queue, msgCount, slot, rs)[i] == queue[i]
    decreases |rs|
  {
    hide RingPut, Beyond, WholeRecords;
    if rs != [] {
      TailWhole(rs);
      var n := rs[0].elementCount;
      BeyondFewer(msgCount, slot, n, Total(rs), i);
      PutBeyond(queue, msgCount, slot, rs[0].bytes, n, i);
      BeyondMoves(msgCount, slot, n, Total(rs[1..]), i);
      PutAllKeeps(RingPut(queue, RingBytes(msgCount), slot * MESSAGE, rs[0].bytes), msgCount, (slot + n) % msgCount, rs[1..], i);
    }
  }

  lemma BeyondFewer(msgCount: nat, slot: nat, n: nat, m: nat, i: nat)
    requires slot < msgCount && n <= m && Beyond(msgCount, slot, m, i)
    ensures Beyond(msgCount, slot, n, i)
  {
  }

  /** After a list of records that fits the ring, every record reads back from its slot. */
  lemma {:induction false} EveryRecordReadable(queue: seq<byte>, msgCount: nat, slot: nat, rs: seq<Record>, j: nat)
    requires slot < msgCount && ENTRY + RingBytes(msgCount) <= |queue|
    requires WholeRecords(rs) && Total(rs) <= msgCount && j < |rs|
    ensures SlotOf(rs, slot, msgCount, j) < msgCount && |rs[j].bytes| <= RingBytes(msgCount)
    ensures SlotOf(rs, slot, msgCount, j) * MESSAGE < RingBytes(msgCount)
    ensures RingRead(PutAll(queue, msgCount, slot, rs), RingBytes(msgCount),
                     SlotOf(rs, slot, msgCount, j) * MESSAGE, |rs[j].bytes|) == rs[j].bytes
    decreases j
  {
    hide RingPut, Distance, RingRead;
    TailWhole(rs);
    SlotInside(slot, msgCount);
    var size, n := RingBytes(msgCount), rs[0].elementCount;
    var put := RingPut(queue, size, slot * MESSAGE, rs[0].bytes);
    if j > 0 {
      EveryRecordReadable(put, msgCount, (slot + n) % msgCount, rs[1..], j - 1);
    } else {
      ReadBack(queue, size, slot * MESSAGE, rs[0].bytes);
      FirstSurvives(put, msgCount, slot, n, rs[1..]);
    }
  }

  /** Later records never reach back into the first one. */
  lemma FirstSurvives(put: seq<byte>, msgCount: nat, slot: nat, n: nat, rest: seq<Record>)
    requires slot < msgCount && ENTRY + RingBytes(msgCount) <= |put|
    requires 0 < n && WholeRecords(rest) && n + Total(rest) <= msgCount
    ensures slot * MESSAGE < RingBytes(msgCount)
    ensures RingRead(PutAll(put, msgCount, (slot + n) % msgCount, rest), RingBytes(msgCount), slot * MESSAGE, n * MESSAGE) ==
            RingRead(put, RingBytes(msgCount), slot * MESSAGE, n * MESSAGE)
  {
    hide PutAll, Total;
    var size := RingBytes(msgCount);
    SlotInside(slot, msgCount);
    var end := PutAll(put, msgCount, (slot + n) % msgCount, rest);
    forall k | 0 <= k < n * MESSAGE
      ensures end[ENTRY + Wrap(slot * MESSAGE, k, size)] == put[ENTRY + Wrap(slot * MESSAGE, k, size)]
    {
      var at := Wrap(slot * MESSAGE, k, size);
      assert Distance(slot * MESSAGE, at, size) == k;
      DistanceMoves(slot, n, msgCount, at);
      PutAllKeeps(put, msgCount, (slot + n) % msgCount, rest, ENTRY + at);
    }
  }

  /** The queue header before the ring, and anything after it, is untouched. */
  lemma PutAllFrames(queue: seq<byte>, msgCount: nat, slot: nat, rs: seq<Record>)
    requires slot < msgCount && ENTRY + RingBytes(msgCount) <= |queue|
    requires WholeRecords(rs) && Total(rs) <= msgCount
    ensures PutAll(queue, msgCount, slot, rs)[..ENTRY] == queue[..ENTRY]
    ensures PutAll(queue, msgCount, slot, rs)[ENTRY + RingBytes(msgCount)..] == queue[ENTRY + RingBytes(msgCount)..]
  {
    hide PutAll;
    forall i | 0 <= i < |queue| && !(ENTRY <= i < ENTRY + RingBytes(msgCount))
      ensures PutAll(queue, msgCount, slot, rs)[i] == queue[i]
    {
      PutAllKeeps(queue, msgCount, slot, rs, i);
    }
  }

  /** The write pointer after putting a list, as each put moves it. */
  function PointerAfter(slot: u32, msgCount: u32, rs: seq<Record>): u32
    requires msgCount > 0
    decreases |rs|
  {
    if rs == [] then slot
    else PointerAfter((slot + rs[0].elementCount) % 0x1_0000_0000 % msgCount, msgCount, rs[1..])
  }

  /** No put of the list carries the pointer sum past 32 bits. */
  predicate SumsFit(slot: u32, msgCount: u32, rs: seq<Record>)
    requires slot < msgCount
    decreases |rs|
  {
    rs != [] ==>
      slot + rs[0].elementCount < 0x1_0000_0000 && SumsFit((slot + rs[0].elementCount) % msgCount, msgCount, rs[1..])
  }

  /** The pointer advances by the list's total, modulo the ring, exactly when no sum leaves 32 bits. In a
      ring of at most 2^31 slots none can, and any queue of 32-bit size has fewer than 2^20. */
  lemma {:induction false} PointerAdvances(slot: u32, msgCount: u32, rs: seq<Record>)
    requires slot < msgCount && WholeRecords(rs) && Total(rs) <= msgCount
    ensures PointerAfter(slot, msgCount, rs) == (slot + Total(rs)) % msgCount <==> SumsFit(slot, msgCount, rs)
    ensures msgCount <= 0x8000_0000 ==> SumsFit(slot, msgCount, rs)
    decreases |rs|
  {
    hide WholeRecords;
    if rs == [] {
      SmallMod(slot, msgCount);
    } else {
      hide PointerAfter, SumsFit, Total;
      TailWhole(rs);
      PointerStep(slot, msgCount, rs);
      var n, rest := rs[0].elementCount, Total(rs[1..]);
      if slot + n < 0x1_0000_0000 {
        SmallMod(slot + n, 0x1_0000_0000);
        PointerSum(slot, n, rest, msgCount);
        PointerAdvances((slot + n) % msgCount, msgCount, rs[1..]);
      } else {
        WrapMisses(slot, n, rest, msgCount);
        PointerWithin(slot + n - 0x1_0000_0000, msgCount, rs[1..]);
      }
    }
  }

  /** In the largest ring, a two-slot record from the last slot gets the pointer wrong. */
  lemma LargestRingLosesPointer(r: Record)
    requires r.elementCount == 2 && |r.bytes| == 2 * MESSAGE
    ensures !SumsFit(MAX32 - 1, MAX32, [r])
    ensures PointerAfter(MAX32 - 1, MAX32, [r]) == 0 && (MAX32 - 1 + Total([r])) % MAX32 == 1
  {
    assert [r][1..] == [];
  }

  lemma PointerStep(slot: u32, msgCount: u32, rs: seq<Record>)
    requires slot < msgCount && rs != []
    ensures var sum := slot + rs[0].elementCount;
      && Total(rs) == rs[0].elementCount + Total(rs[1..])
      && PointerAfter(slot, msgCount, rs) == PointerAfter(sum % 0x1_0000_0000 % msgCount, msgCount, rs[1..])
      && (SumsFit(slot, msgCount, rs) <==> sum < 0x1_0000_0000 && SumsFit(sum % msgCount, msgCount, rs[1..]))
  {
  }

  /** A list that ends before the ring does moves the pointer by its total. */
  lemma {:induction false} PointerWithin(slot: u32, msgCount: u32, rs: seq<Record>)
    requires slot + Total(rs) < msgCount
    ensures PointerAfter(slot, msgCount, rs) == slot + Total(rs)
    decreases |rs|
  {
    if rs != [] {
      SmallMod(slot + rs[0].elementCount, 0x1_0000_0000);
      SmallMod(slot + rs[0].elementCount, msgCount);
      PointerWithin(slot + rs[0].elementCount, msgCount, rs[1..]);
    }
  }

  /** A sum past 32 bits leaves the pointer short of where the ring says, by 2^32 less the ring. */
  lemma WrapMisses(slot: nat, n: nat, rest: nat, msgCount: u32)
    requires slot < msgCount && slot + n >= 0x1_0000_0000 && n + rest <= msgCount
    ensures (slot + n) % 0x1_0000_0000 % msgCount == slot + n - 0x1_0000_0000
    ensures (slot + n + rest) % msgCount == slot + n + rest - msgCount
  {
    var wrapped := slot + n - 0x1_0000_0000;
    ModShift(wrapped, 1, 0x1_0000_0000);
    SmallMod(wrapped, 0x1_0000_0000);
    SmallMod(wrapped, msgCount);
    ModShift(slot + n + rest - msgCount, 1, msgCount);
    SmallMod(slot + n + rest - msgCount, msgCount);
  }

  lemma PointerSum(slot: nat, n: nat, rest: nat, msgCount: u32)
    requires slot < msgCount
    ensures ((slot + n) % msgCount + rest) % msgCount == (slot + n + rest) % msgCount
  {
    var q := (slot + n) / msgCount;
    assert slot + n == q * msgCount + (slot + n) % msgCount;
    ModShift((slot + n) % msgCount + rest, q, msgCount);
  }
}
