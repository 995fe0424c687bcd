/** Validation of queue records, and what it guarantees about built and altered ones. */
module RpcLaws {
  import opened Words
  import opened Arith
  import opened Bytes
  import opened Rpc

  /** The end of the bytes a record's checksum covers. */
  function Unpadded(record: seq<byte>): nat
    requires |record| >= OVERHEAD
  {
    ELEMENT_HEADER + Load32(record, LENGTH_OFFSET)
  }

  predicate Validates(record: seq<byte>, messageSize: u64, maxElements: u32)
  {
    && messageSize != 0 && maxElements != 0 && |record| >= OVERHEAD
    && Load32(record, ELEMENT_HEADER) == HEADER_VERSION3
    && Load32(record, ELEMENT_HEADER + 4) == SIGNATURE_VALID
    && Load32(record, LENGTH_OFFSET) >= RPC_HEADER
    && Unpadded(record) <= |record|
    && var count := Load32(record, COUNT_OFFSET);
    && 0 < count <= maxElements
    && count <= MAX64 / messageSize
    && count * messageSize == |record|
    && CeilDivide(Unpadded(record), messageSize) == count
    && XorWords(record[..Unpadded(record)]) == 0
  }

  function PayloadOf(record: seq<byte>): seq<byte>
    requires |record| >= OVERHEAD && OVERHEAD <= Unpadded(record) <= |record|
  {
    record[OVERHEAD..Unpadded(record)]
  }

  /** Replacing one aligned word, possibly a short last one, moves the checksum by the difference. */
  lemma XorReplace(a: seq<byte>, w: seq<byte>, v: seq<byte>, b: seq<byte>)
    requires |a| % 4 == 0 && 0 < |w| == |v| <= 4 && (|w| < 4 ==> b == [])
    ensures UnLe(w) <= MAX32 && UnLe(v) <= MAX32
    ensures XorWords(a + w + b) == Xor32(XorWords(a + v + b), Xor32(UnLe(v), UnLe(w)))
  {
    hide Combine32, XorWords, UnLe;
    WordBetween(a, w, b);
    WordBetween(a, v, b);
    var x, y, p, q := XorWords(a), XorWords(b), UnLe(v), UnLe(w);
    XorCancels(p, p);
    XorZero(q);
    XorAssoc(p, p, q);
    XorSwap(x, p, y, 0);
    XorAssoc(Xor32(x, y), p, Xor32(p, q));
    XorZero(p);
    XorZero(0);
  }

  lemma WordBetween(a: seq<byte>, w: seq<byte>, b: seq<byte>)
    requires |a| % 4 == 0 && 0 < |w| <= 4 && (|w| < 4 ==> b == [])
    ensures UnLe(w) <= MAX32
    ensures XorWords(a + w + b) == Xor32(Xor32(XorWords(a), XorWords(b)), UnLe(w))
  {
    hide Combine32, XorWords, UnLe;
    Assoc(a, w, b);
    XorWordsAppend(a, w + b);
    XorWordsShort(w);
    if |w| == 4 {
      XorWordsAppend(w, b);
    } else {
      assert w + b == w;
      XorWordsNil();
      XorZero(UnLe(w));
    }
    XorComm(UnLe(w), XorWords(b));
    XorAssoc(XorWords(a), XorWords(b), UnLe(w));
  }

  lemma XorWordsNil()
    ensures XorWords([]) == 0
  {
  }

  /** The sizes a record can be built with, without a division: it fits its elements and its length field. */
  lemma BuildableIff(payloadBytes: nat, messageSize: u64, maxElements: u32)
    ensures Buildable(payloadBytes, messageSize, maxElements) <==>
            payloadBytes <= 0xFFFF_FFDF && 80 + payloadBytes <= messageSize * maxElements
  {
    if messageSize > 0 && maxElements > 0 {
      CountCovers(OVERHEAD + payloadBytes, messageSize);
      var count := CeilDivide(OVERHEAD + payloadBytes, messageSize);
      if count <= maxElements {
        MulMono(count, maxElements, messageSize);
      } else {
        MulMono(maxElements, count - 1, messageSize);
        assert (count - 1) * messageSize == count * messageSize - messageSize;
      }
    } else {
      assert messageSize * maxElements == 0;
    }
  }

  // ---- Built records ----

  lemma SummedIsZero(function_: u32, payload: seq<byte>, sequence: u32, count: u32)
    requires |payload| <= MAX32 - RPC_HEADER
    ensures XorWords(Body(XorWords(Body(0, function_, payload, sequence, count)), function_, payload, sequence, count)) == 0
  {
    hide Combine32, XorWords, Le, WordBytes, HeaderWords;
    var blank := Body(0, function_, payload, sequence, count);
    var sum := XorWords(blank);
    var a, b := blank[..CHECKSUM_OFFSET], blank[CHECKSUM_OFFSET + 4..];
    BlankWord(function_, payload, sequence, count);
    assert blank == a + Le(4, 0) + b;
    SumStored(function_, payload, sequence, count, sum, []);
    assert blank + [] == blank && Body(sum, function_, payload, sequence, count) + [] == Body(sum, function_, payload, sequence, count);
    assert Splice(blank, CHECKSUM_OFFSET, Le(4, sum)) == a + Le(4, sum) + b;
    XorReplace(a, Le(4, sum), Le(4, 0), b);
    Stored32(sum);
    Stored32(0);
    XorZero(sum);
    XorCancels(sum, sum);
  }

  lemma BlankWord(function_: u32, payload: seq<byte>, sequence: u32, count: u32)
    requires |payload| <= MAX32 - RPC_HEADER
    ensures Body(0, function_, payload, sequence, count)[CHECKSUM_OFFSET..CHECKSUM_OFFSET + 4] == Le(4, 0)
  {
    hide Le, WordBytes;
    WordSlice(HeaderWords(0, function_, |payload|, sequence, count), CHECKSUM_WORD, payload);
  }

  /** The fields a reader finds in a built record. */
  lemma Fields(sum: u32, function_: u32, payload: seq<byte>, sequence: u32, count: u32, padding: seq<byte>)
    requires |payload| <= MAX32 - RPC_HEADER
    ensures var r := Body(sum, function_, payload, sequence, count) + padding;
      && Load32(r, CHECKSUM_OFFSET) == sum
      && Load32(r, SEQUENCE_OFFSET) == sequence
      && Load32(r, COUNT_OFFSET) == count
      && Load32(r, ELEMENT_HEADER) == HEADER_VERSION3
      && Load32(r, ELEMENT_HEADER + 4) == SIGNATURE_VALID
      && Load32(r, LENGTH_OFFSET) == RPC_HEADER + |payload|
      && Load32(r, FUNCTION_OFFSET) == function_
      && r[OVERHEAD..OVERHEAD + |payload|] == payload
      && r[..OVERHEAD + |payload|] == Body(sum, function_, payload, sequence, count)
  {
    hide Le, WordBytes, Load32;
    var ws := HeaderWords(sum, function_, |payload|, sequence, count);
    Assoc(WordBytes(ws), payload, padding);
    WordAt(ws, 8, payload + padding);
    WordAt(ws, 9, payload + padding);
    WordAt(ws, 10, payload + padding);
    WordAt(ws, 12, payload + padding);
    WordAt(ws, 13, payload + padding);
    WordAt(ws, 14, payload + padding);
    WordAt(ws, 15, payload + padding);
  }

  /** Every record that is built is accepted with the same limits, and carries its payload. */
  lemma BuiltRecordValidates(function_: u32, payload: seq<byte>, sequence: u32, messageSize: u64, maxElements: u32)
    requires Buildable(|payload|, messageSize, maxElements)
    ensures var r := RecordOf(function_, payload, sequence, messageSize);
      && Validates(r.bytes, messageSize, maxElements)
      && |r.bytes| == r.elementCount * messageSize
      && PayloadOf(r.bytes) == payload
      && Load32(r.bytes, FUNCTION_OFFSET) == function_ == r.function_
      && Load32(r.bytes, SEQUENCE_OFFSET) == sequence == r.sequence
      && Load32(r.bytes, CHECKSUM_OFFSET) == r.checksum
  {
    hide Le, WordBytes, Load32, HeaderWords, XorWords;
    var count := ElementCount(|payload|, messageSize);
    CountCovers(OVERHEAD + |payload|, messageSize);
    var r := RecordOf(function_, payload, sequence, messageSize);
    Fields(r.checksum, function_, payload, sequence, count, Zeros(count * messageSize - OVERHEAD - |payload|));
    SummedIsZero(function_, payload, sequence, count);
    ProductFits(count, messageSize, |payload|);
  }

  /** What a reader finds in a record of `count` elements, by offset: 48 bytes of element header, 32 of RPC header,
      the payload, and zeros to the end. */
  ghost predicate Holds(r: seq<byte>, function_: u32, payload: seq<byte>, sequence: u32, count: nat)
  {
    && |r| >= 80 + |payload|
    && (forall j :: 0 <= j < 32 ==> r[j] == 0)
    && Load32(r, 36) == sequence && Load32(r, 40) == count && Load32(r, 44) == 0
    && Load32(r, 48) == 0x0300_0000 && Load32(r, 52) == 0x4350_5256
    && Load32(r, 56) == 32 + |payload| && Load32(r, 60) == function_
    && Load32(r, 64) == 0xFFFF_FFFF && Load32(r, 68) == 0xFFFF_FFFF && Load32(r, 72) == 0 && Load32(r, 76) == 0
    && r[80..80 + |payload|] == payload
    && (forall j :: 80 + |payload| <= j < |r| ==> r[j] == 0)
    && XorWords(r[..80 + |payload|]) == 0
  }

  /** The words of a record that name nothing. */
  lemma FixedWords(sum: u32, function_: u32, payload: seq<byte>, sequence: u32, count: u32, padding: seq<byte>)
    requires |payload| <= MAX32 - RPC_HEADER
    ensures var r := Body(sum, function_, payload, sequence, count) + padding;
      && Load32(r, 44) == 0 && Load32(r, 64) == 0xFFFF_FFFF && Load32(r, 68) == 0xFFFF_FFFF && Load32(r, 72) == 0 && Load32(r, 76) == 0
      && forall j :: 0 <= j < 32 ==> r[j] == 0
  {
    hide Le, WordBytes, Load32;
    var ws := HeaderWords(sum, function_, |payload|, sequence, count);
    var r := Body(sum, function_, payload, sequence, count) + padding;
    Assoc(WordBytes(ws), payload, padding);
    WordAt(ws, 11, payload + padding);
    WordAt(ws, 16, payload + padding);
    WordAt(ws, 17, payload + padding);
    WordAt(ws, 18, payload + padding);
    WordAt(ws, 19, payload + padding);
    forall j | 0 <= j < 32 ensures r[j] == 0 {
      ZeroByte(ws, j / 4, j % 4, payload + padding);
    }
  }

  lemma ZeroByte(ws: seq<u32>, i: nat, k: nat, rest: seq<byte>)
    requires i < |ws| && ws[i] == 0 && k < 4
    ensures (WordBytes(ws) + rest)[4 * i + k] == 0
  {
    hide WordBytes;
    WordSlice(ws, i, rest);
    assert Le(4, 0) == [0, 0, 0, 0];
    assert (WordBytes(ws) + rest)[4 * i..4 * i + 4][k] == (WordBytes(ws) + rest)[4 * i + k];
  }

  /** A built record by its offsets, in as few elements as hold it. */
  lemma BuiltRecordHolds(function_: u32, payload: seq<byte>, sequence: u32, messageSize: u64, maxElements: u32)
    requires Buildable(|payload|, messageSize, maxElements)
    ensures var r := RecordOf(function_, payload, sequence, messageSize);
      && Holds(r.bytes, function_, payload, sequence, r.elementCount) && |r.bytes| == r.elementCount * messageSize
      && 0 < r.elementCount && |r.bytes| < 80 + |payload| + messageSize
  {
    hide Le, WordBytes, Load32, HeaderWords, XorWords;
    var count := ElementCount(|payload|, messageSize);
    CountCovers(OVERHEAD + |payload|, messageSize);
    var r := RecordOf(function_, payload, sequence, messageSize);
    var padding := Zeros(count * messageSize - OVERHEAD - |payload|);
    Fields(r.checksum, function_, payload, sequence, count, padding);
    FixedWords(r.checksum, function_, payload, sequence, count, padding);
    SummedIsZero(function_, payload, sequence, count);
  }

  // ---- Altered records ----

  /** A change inside one aligned word always changes the checksum. */
  lemma AlteredWordChangesSum(s: seq<byte>, t: seq<byte>, k: nat)
    requires |s| == |t| && s != t && 4 * k < |s|
    requires forall i :: 0 <= i < |s| && !(4 * k <= i < 4 * k + 4) ==> t[i] == s[i]
    ensures XorWords(s) != XorWords(t)
  {
    hide Combine32, XorWords, UnLe;
    var end := Min(4 * k + 4, |s|);
    var a, w, v, b := s[..4 * k], s[4 * k..end], t[4 * k..end], s[end..];
    SplitAround(s, t, 4 * k, end);
    XorReplace(a, v, w, b);
    LeOfUnLe(v);
    LeOfUnLe(w);
    XorCancels(UnLe(w), UnLe(v));
    if XorWords(s) == XorWords(t) {
      XorFixed(XorWords(s), Xor32(UnLe(w), UnLe(v)));
    }
  }

  lemma SplitAround(s: seq<byte>, t: seq<byte>, from: nat, end: nat)
    requires |s| == |t| && s != t && from <= end <= |s|
    requires forall i :: 0 <= i < |s| && !(from <= i < end) ==> t[i] == s[i]
    ensures s == s[..from] + s[from..end] + s[end..]
    ensures t == s[..from] + t[from..end] + s[end..]
    ensures s[from..end] != t[from..end]
  {
    assert t[..from] == s[..from] && t[end..] == s[end..];
    assert s == s[..from] + s[from..end] + s[end..];
    assert t == t[..from] + t[from..end] + t[end..];
  }

  lemma XorFixed(x: u32, d: u32)
    requires Xor32(x, d) == x
    ensures d == 0
  {
    hide Combine32;
    XorCancels(x, x);
    XorAssoc(x, x, d);
    XorZero(d);
  }

  /** Any change confined to one aligned word of the covered bytes, other than the length word, is
      rejected. */
  lemma AlteredWordIsRejected(record: seq<byte>, altered: seq<byte>, messageSize: u64, maxElements: u32, k: nat)
    requires Validates(record, messageSize, maxElements) && |altered| == |record|
    requires 4 * k < Unpadded(record) && 4 * k != LENGTH_OFFSET
    requires forall i :: 0 <= i < |record| && !(4 * k <= i < 4 * k + 4) ==> altered[i] == record[i]
    requires altered[..Unpadded(record)] != record[..Unpadded(record)]
    ensures !Validates(altered, messageSize, maxElements)
  {
    hide XorWords, UnLe;
    assert altered[LENGTH_OFFSET..LENGTH_OFFSET + 4] == record[LENGTH_OFFSET..LENGTH_OFFSET + 4];
    AlteredWordChangesSum(record[..Unpadded(record)], altered[..Unpadded(record)], k);
  }

  // ---- Fragmented payloads ----

  /** Pieces continue each other from `offset` to `total`, all but the last of size `limit` and that one no
      larger, and only a piece away from the start is a continuation. */
  predicate TilesFrom(fs: seq<Fragment>, offset: nat, total: nat, limit: nat)
  {
    if fs == [] then offset == total
    else
      && fs[0].payloadOffset == offset
      && fs[0].payloadBytes <= limit
      && fs[0].continuation == (offset != 0)
      && (fs[0].payloadBytes > 0 || total == 0)
      && (|fs| > 1 ==> fs[0].payloadBytes == limit)
      && TilesFrom(fs[1..], offset + fs[0].payloadBytes, total, limit)
  }

  lemma {:induction false} PiecesTile(offset: u64, total: u64, limit: u64)
    requires limit > 0 && offset <= total
    ensures TilesFrom(Pieces(offset, total, limit), offset, total, limit)
    decreases total - offset
  {
    if offset < total {
      var count := Min(limit, total - offset);
      PiecesTile(offset + count, total, limit);
      assert Pieces(offset, total, limit)[1..] == Pieces(offset + count, total, limit);
    }
  }

  /** The plan tiles the payload exactly; an empty payload still gets its one empty fragment. */
  lemma FragmentsTile(payloadBytes: u64, messageSize: u64, maxElements: u32)
    ensures var fs := FragmentsOf(payloadBytes, messageSize, maxElements);
      var limit := MaxPayload(messageSize, maxElements);
      && (fs == [] <==> limit == 0)
      && (limit > 0 ==> TilesFrom(fs, 0, payloadBytes, limit))
  {
    var limit := MaxPayload(messageSize, maxElements);
    if limit > 0 {
      if payloadBytes > 0 {
        PiecesTile(0, payloadBytes, limit);
      } else {
        assert [Fragment(0, 0, false)][1..] == [];
      }
    }
  }

  /** A fragment within the plan's limit can be built with the plan's limits. */
  lemma FragmentFits(n: nat, messageSize: u64, maxElements: u32)
    requires 0 < MaxPayload(messageSize, maxElements) <= 0x1_0000_0000 - OVERHEAD
    requires n <= MaxPayload(messageSize, maxElements)
    ensures Buildable(n, messageSize, maxElements)
  {
    CapacityFits(messageSize, maxElements);
    CountCovers(OVERHEAD + n, messageSize);
    CeilBound(OVERHEAD + n, messageSize, maxElements);
  }

  lemma CeilBound(n: nat, size: nat, limit: nat)
    requires 0 < n <= size * limit && size > 0
    ensures CeilDivide(n, size) <= limit
  {
    CountCovers(n, size);
    var count := CeilDivide(n, size);
    assert (count - 1) * size == count * size - size;
    if count > limit {
      MulMono(limit, count - 1, size);
    }
  }

  /** The payloads recovered from the records built for a list of fragments, joined. The function
      and sequence numbers of each record are the caller's choice. */
  function Recovered(payload: seq<byte>, fs: seq<Fragment>, messageSize: u64, maxElements: u32,
                     functions: nat -> u32, sequences: nat -> u32): seq<byte>
    requires forall f <- fs :: f.payloadOffset + f.payloadBytes <= |payload| && Buildable(f.payloadBytes, messageSize, maxElements)
    decreases |fs|
  {
    if fs == [] then []
    else
      assert fs[0] in fs;
      var f := fs[0];
      var piece := payload[f.payloadOffset..f.payloadOffset + f.payloadBytes];
      BuiltRecordValidates(functions(|fs|), piece, sequences(|fs|), messageSize, maxElements);
      PayloadOf(RecordOf(functions(|fs|), piece, sequences(|fs|), messageSize).bytes)
      + Recovered(payload, fs[1..], messageSize, maxElements, functions, sequences)
  }

  lemma {:induction false} TilesAreBuildable(payload: seq<byte>, fs: seq<Fragment>, offset: nat, messageSize: u64, maxElements: u32)
    requires 0 < MaxPayload(messageSize, maxElements) <= 0x1_0000_0000 - OVERHEAD
    requires TilesFrom(fs, offset, |payload|, MaxPayload(messageSize, maxElements))
    ensures offset <= |payload|
    ensures forall f <- fs :: f.payloadOffset + f.payloadBytes <= |payload| && Buildable(f.payloadBytes, messageSize, maxElements)
    decreases |fs|
  {
    hide MaxPayload, Buildable;
    if fs != [] {
      TilesAreBuildable(payload, fs[1..], offset + fs[0].payloadBytes, messageSize, maxElements);
      FragmentFits(fs[0].payloadBytes, messageSize, maxElements);
      forall f | f in fs ensures f.payloadOffset + f.payloadBytes <= |payload| && Buildable(f.payloadBytes, messageSize, maxElements) {
        if f != fs[0] { assert f in fs[1..]; }
      }
    }
  }

  lemma {:induction false} TilesRecover(payload: seq<byte>, fs: seq<Fragment>, offset: nat, messageSize: u64, maxElements: u32,
                                        functions: nat -> u32, sequences: nat -> u32)
    requires 0 < MaxPayload(messageSize, maxElements) <= 0x1_0000_0000 - OVERHEAD
    requires TilesFrom(fs, offset, |payload|, MaxPayload(messageSize, maxElements))
    requires offset <= |payload|
    requires forall f <- fs :: f.payloadOffset + f.payloadBytes <= |payload| && Buildable(f.payloadBytes, messageSize, maxElements)
    ensures Recovered(payload, fs, messageSize, maxElements, functions, sequences) == payload[offset..]
    decreases |fs|
  {
    hide MaxPayload, Buildable, RecordOf, PayloadOf, Validates;
    if fs == [] {
      assert payload[offset..] == [];
    } else {
      assert fs[0] in fs;
      var f := fs[0];
      var next := offset + f.payloadBytes;
      forall g | g in fs[1..] ensures g.payloadOffset + g.payloadBytes <= |payload| && Buildable(g.payloadBytes, messageSize, maxElements) {
        assert g in fs;
      }
      TilesRecover(payload, fs[1..], next, messageSize, maxElements, functions, sequences);
      BuiltRecordValidates(functions(|fs|), payload[offset..next], sequences(|fs|), messageSize, maxElements);
      assert payload[offset..] == payload[offset..next] + payload[next..];
    }
  }

  /** With a capacity above the headers and within 32 bits, every planned fragment can be built with
      the same limits, and the payloads read back from the records join to the original. */
  lemma FragmentsRoundTrip(payload: seq<byte>, messageSize: u64, maxElements: u32,
                           functions: nat -> u32, sequences: nat -> u32)
    requires |payload| <= MAX64
    requires maxElements > 0 && OVERHEAD < messageSize * maxElements <= 0x1_0000_0000
    ensures var fs := FragmentsOf(|payload|, messageSize, maxElements);
      && (forall f <- fs :: f.payloadOffset + f.payloadBytes <= |payload| && Buildable(f.payloadBytes, messageSize, maxElements))
      && Recovered(payload, fs, messageSize, maxElements, functions, sequences) == payload
  {
    hide Recovered, Buildable, FragmentsOf;
    CapacityGuard(messageSize, maxElements);
    FragmentsTile(|payload|, messageSize, maxElements);
    var fs := FragmentsOf(|payload|, messageSize, maxElements);
    TilesAreBuildable(payload, fs, 0, messageSize, maxElements);
    TilesRecover(payload, fs, 0, messageSize, maxElements, functions, sequences);
    assert payload[0..] == payload;
  }

  lemma CapacityGuard(messageSize: u64, maxElements: u32)
    requires maxElements > 0 && OVERHEAD < messageSize * maxElements <= 0x1_0000_0000
    ensures MaxPayload(messageSize, maxElements) == messageSize * maxElements - OVERHEAD
  {
    assert messageSize > 0;
    assert messageSize <= 0x1_0000_0000;
    assert MAX64 / maxElements >= MAX64 / MAX32;
  }
}
