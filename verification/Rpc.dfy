/** GSP queue records: the folded XOR checksum, fragmentation, building and validation. */
module Rpc {
  import opened Words
  import opened Wrappers
  import opened Arith
  import opened Bytes

  const ELEMENT_HEADER: nat := 48
  const RPC_HEADER: nat := 32
  const OVERHEAD: nat := 80
  const CHECKSUM_OFFSET: nat := 32
  const SEQUENCE_OFFSET: nat := 36
  const COUNT_OFFSET: nat := 40
  const LENGTH_OFFSET: nat := 56
  const FUNCTION_OFFSET: nat := 60

  const HEADER_VERSION3: u32 := 0x0300_0000
  const SIGNATURE_VALID: u32 := 0x4350_5256
  const PENDING: u32 := 0xFFFF_FFFF

  function CeilDivide(n: nat, d: nat): nat
    requires d > 0
  {
    n / d + if n % d != 0 then 1 else 0
  }

  // ---- The checksum ----

  /** The little-endian words of a byte string combined by exclusive or, a short last word zero
      extended: what the 64-bit accumulation and its final fold compute. */
  function XorWords(s: seq<byte>): u32
    decreases |s|
  {
    if s == [] then 0
    else
      var n := Min(4, |s|);
      ShortWord(s[..n]);
      Xor32(UnLe(s[..n]), XorWords(s[n..]))
  }

  lemma ShortWord(s: seq<byte>)
    requires |s| <= 4
    ensures UnLe(s) < 0x1_0000_0000
  {
    LeOfUnLe(s);
    Pow256Values();
    assert Pow256(3) == 0x100_0000 && Pow256(0) == 1;
  }

  lemma {:induction false} UnLeAppend(a: seq<byte>, b: seq<byte>)
    ensures UnLe(a + b) == UnLe(a) + Pow256(|a|) * UnLe(b)
  {
    if a == [] {
      assert a + b == b;
      assert Pow256(0) == 1;
    } else {
      assert (a + b)[1..] == a[1..] + b;
      UnLeAppend(a[1..], b);
      Scale(UnLe(a[1..]), Pow256(|a| - 1), UnLe(b));
      assert (a + b)[0] == a[0];
    }
  }

  lemma Scale(u: nat, p: nat, x: nat)
    ensures 0x100 * (u + p * x) == 0x100 * u + (0x100 * p) * x
  {
  }

  function Fold(c: u64): u32
  {
    Xor32(c % 0x1_0000_0000, c / 0x1_0000_0000)
  }

  lemma FoldXor(a: u64, b: u64)
    ensures Fold(Xor64(a, b)) == Xor32(Fold(a), Fold(b))
  {
    hide Combine32, Xor64;
    Xor64Halves(a, b);
    XorSwap(a % 0x1_0000_0000, b % 0x1_0000_0000, a / 0x1_0000_0000, b / 0x1_0000_0000);
  }

  /** Up to eight bytes fold to the exclusive or of their two words. */
  lemma FoldWord(s: seq<byte>)
    requires 0 < |s| <= 8
    ensures UnLe(s) <= MAX64 && Fold(UnLe(s)) == XorWords(s)
  {
    hide Combine32, UnLe, Pow256;
    if |s| <= 4 {
      ShortWord(s);
      assert s[..|s|] == s;
      XorWordsShort(s);
      XorZero(UnLe(s));
    } else {
      var low, high := s[..4], s[4..];
      assert s == low + high;
      UnLeAppend(low, high);
      Pow256Values();
      ShortWord(low);
      XorWordsShort(high);
      Halves(UnLe(low), UnLe(high));
    }
  }

  lemma Halves(low: u32, high: u32)
    ensures (low + 0x1_0000_0000 * high) % 0x1_0000_0000 == low
    ensures (low + 0x1_0000_0000 * high) / 0x1_0000_0000 == high
    ensures low + 0x1_0000_0000 * high <= MAX64
  {
  }

  lemma XorWordsShort(s: seq<byte>)
    requires 0 < |s| <= 4
    ensures UnLe(s) <= MAX32 && XorWords(s) == UnLe(s)
  {
    ShortWord(s);
    assert s[..|s|] == s && s[|s|..] == [];
    XorZero(UnLe(s));
  }

  lemma {:induction false} XorWordsAppend(a: seq<byte>, b: seq<byte>)
    requires |a| % 4 == 0
    ensures XorWords(a + b) == Xor32(XorWords(a), XorWords(b))
    decreases |a|
  {
    hide Combine32, UnLe;
    if a == [] {
      assert a + b == b;
      XorZero(XorWords(b));
    } else {
      assert (a + b)[..4] == a[..4] && (a + b)[4..] == a[4..] + b;
      XorWordsAppend(a[4..], b);
      ShortWord(a[..4]);
      XorAssoc(UnLe(a[..4]), XorWords(a[4..]), XorWords(b));
    }
  }

  /** The source's accumulation: eight bytes at a time into 64 bits, then one fold. */
  method RpcChecksum(bytes: seq<byte>) returns (sum: u32)
    ensures sum == XorWords(bytes)
  {
    hide Combine32, Xor64, UnLe;
    var checksum: u64 := 0;
    var off := 0;
    assert bytes[0..] == bytes;
    XorZero(0);
    XorZero(XorWords(bytes));
    while off < |bytes|
      invariant 0 <= off <= |bytes|
      invariant XorWords(bytes) == Xor32(Fold(checksum), XorWords(bytes[off..]))
    {
      var count := Min(8, |bytes| - off);
      var word := GatherWord(bytes[off..off + count]);
      var piece := bytes[off..off + count];
      FoldWord(piece);
      assert bytes[off..] == piece + bytes[off + count..];
      if count == 8 {
        XorWordsAppend(piece, bytes[off + count..]);
      } else {
        assert bytes[off + count..] == [] && bytes[off..] == piece;
        XorZero(XorWords(piece));
      }
      FoldXor(checksum, word);
      XorAssoc(Fold(checksum), Fold(word), XorWords(bytes[off + count..]));
      checksum := Xor64(checksum, word);
      off := off + count;
    }
    assert bytes[off..] == [];
    XorZero(Fold(checksum));
    sum := Fold(checksum);
  }

  /** Shifts each byte into its place. The places are disjoint, so adding is the source's `|=`. */
  method GatherWord(piece: seq<byte>) returns (word: u64)
    requires |piece| <= 8
    ensures word == UnLe(piece)
  {
    var sum: nat, place: nat, i := 0, 1, 0;
    while i < |piece|
      invariant 0 <= i <= |piece|
      invariant place == Pow256(i) && sum == UnLe(piece[..i])
    {
      assert piece[..i + 1] == piece[..i] + [piece[i]];
      UnLeAppend(piece[..i], [piece[i]]);
      assert UnLe([piece[i]]) == piece[i];
      sum := sum + piece[i] * place;
      place := place * 0x100;
      i := i + 1;
    }
    assert piece[..i] == piece;
    LeOfUnLe(piece);
    WordBound(|piece|);
    word := sum;
  }

  lemma WordBound(n: nat)
    requires n <= 8
    ensures Pow256(n) <= 0x1_0000_0000_0000_0000
  {
    Pow256Values();
    assert Pow256(3) == 0x100_0000;
    assert Pow256(5) == 0x100_0000_0000;
    assert Pow256(6) == 0x1_0000_0000_0000;
    assert Pow256(7) == 0x100_0000_0000_0000;
  }

  // ---- Fragments ----

  datatype Fragment = Fragment(payloadOffset: u64, payloadBytes: u64, continuation: bool)

  /** The largest payload of one record, or 0 when no record can hold its headers. */
  function MaxPayload(messageSize: u64, maxElements: u32): u64
  {
    if messageSize == 0 || maxElements == 0 || messageSize > MAX64 / maxElements then 0
    else if Capacity(messageSize, maxElements) <= OVERHEAD then 0
    else Capacity(messageSize, maxElements) - OVERHEAD
  }

  function Capacity(messageSize: u64, maxElements: u32): u64
    requires maxElements > 0 && messageSize <= MAX64 / maxElements
  {
    CapacityFits(messageSize, maxElements);
    messageSize * maxElements
  }

  lemma CapacityFits(messageSize: u64, maxElements: u32)
    requires maxElements > 0 && messageSize <= MAX64 / maxElements
    ensures 0 <= messageSize * maxElements <= MAX64
  {
    assert MAX64 / maxElements * maxElements <= MAX64;
    assert messageSize * maxElements <= MAX64 / maxElements * maxElements;
  }

  function Pieces(offset: u64, total: u64, maxPayload: u64): seq<Fragment>
    requires maxPayload > 0 && offset <= total
    decreases total - offset
  {
    if offset == total then []
    else
      var count := Min(maxPayload, total - offset);
      [Fragment(offset, count, offset != 0)] + Pieces(offset + count, total, maxPayload)
  }

  function FragmentsOf(payloadBytes: u64, messageSize: u64, maxElements: u32): seq<Fragment>
  {
    var maxPayload := MaxPayload(messageSize, maxElements);
    if maxPayload == 0 then []
    else if payloadBytes == 0 then [Fragment(0, 0, false)]
    else Pieces(0, payloadBytes, maxPayload)
  }

  method PlanRpcFragments(payloadBytes: u64, messageSize: u64, maxElements: u32) returns (out: seq<Fragment>)
    ensures out == FragmentsOf(payloadBytes, messageSize, maxElements)
  {
    out := [];
    if messageSize == 0 || maxElements == 0 {
      return;
    }
    if messageSize > MAX64 / maxElements {
      return;
    }
    CapacityFits(messageSize, maxElements);
    var capacity := messageSize * maxElements;
    if capacity <= OVERHEAD {
      return;
    }
    var maxPayload := capacity - OVERHEAD;
    if payloadBytes == 0 {
      return [Fragment(0, 0, false)];
    }
    var offset: u64 := 0;
    while offset < payloadBytes
      invariant 0 <= offset <= payloadBytes
      invariant out + Pieces(offset, payloadBytes, maxPayload) == Pieces(0, payloadBytes, maxPayload)
    {
      var count := Min(maxPayload, payloadBytes - offset);
      out := out + [Fragment(offset, count, offset != 0)];
      offset := offset + count;
    }
  }

  // ---- Records ----

  datatype Record = Record(
    bytes: seq<byte>,
    checksum: u32,
    sequence: u32,
    elementCount: u32,
    function_: u32,
    payloadBytes: u64)

  function ElementCount(payloadBytes: u64, messageSize: u64): nat
    requires messageSize > 0
  {
    CeilDivide(OVERHEAD + payloadBytes, messageSize)
  }

  /** The sizes a record can be built with. */
  predicate Buildable(payloadBytes: nat, messageSize: u64, maxElements: u32)
  {
    && messageSize != 0 && maxElements != 0
    && payloadBytes <= MAX32 - RPC_HEADER
    && ElementCount(payloadBytes, messageSize) <= maxElements
  }

  /** Words laid out little-endian, one after the other. */
  function WordBytes(ws: seq<u32>): (r: seq<byte>)
    ensures |r| == 4 * |ws|
  {
    if ws == [] then [] else Le(4, ws[0]) + WordBytes(ws[1..])
  }

  const CHECKSUM_WORD: nat := 8

  /** The twenty header words of a record. */
  function HeaderWords(sum: u32, function_: u32, payloadBytes: nat, sequence: u32, elementCount: u32): seq<u32>
    requires payloadBytes <= MAX32 - RPC_HEADER
  {
    [0, 0, 0, 0, 0, 0, 0, 0, sum, sequence, elementCount, 0,
     HEADER_VERSION3, SIGNATURE_VALID, RPC_HEADER + payloadBytes, function_, PENDING, PENDING, 0, 0]
  }

  /** The record up to its padding. */
  function Body(sum: u32, function_: u32, payload: seq<byte>, sequence: u32, elementCount: u32): (r: seq<byte>)
    requires |payload| <= MAX32 - RPC_HEADER
    ensures |r| == OVERHEAD + |payload|
  {
    WordBytes(HeaderWords(sum, function_, |payload|, sequence, elementCount)) + payload
  }

  function RecordOf(function_: u32, payload: seq<byte>, sequence: u32, messageSize: u64): Record
    requires exists maxElements: u32 :: Buildable(|payload|, messageSize, maxElements)
  {
    var count := ElementCount(|payload|, messageSize);
    var sum := XorWords(Body(0, function_, payload, sequence, count));
    CountCovers(OVERHEAD + |payload|, messageSize);
    Record(Body(sum, function_, payload, sequence, count) + Zeros(count * messageSize - OVERHEAD - |payload|),
           sum, sequence, count, function_, |payload|)
  }

  lemma CountCovers(n: nat, size: nat)
    requires n > 0 && size > 0
    ensures var count := CeilDivide(n, size);
      count > 0 && n <= count * size < n + size
  {
    assert n == n / size * size + n % size;
    var q := n / size;
    assert (q + 1) * size == q * size + size;
    if q == 0 { assert n % size == n; }
  }

  /** The record's bytes always fit 64 bits. */
  lemma ProductFits(count: nat, size: u64, payloadBytes: nat)
    requires payloadBytes <= MAX32 - RPC_HEADER && size > 0 && count == CeilDivide(OVERHEAD + payloadBytes, size)
    ensures count <= MAX64 / size
  {
    RoundedTotal(OVERHEAD + payloadBytes, size);
    QuotientBound(MAX64, size, count);
  }

  lemma RoundedTotal(n: nat, size: u64)
    requires 0 < n <= MAX32 + OVERHEAD && size > 0
    ensures CeilDivide(n, size) * size <= MAX64
  {
    CountCovers(n, size);
    if n < size {
      CeilOfSmall(n, size);
    }
  }

  lemma CeilOfSmall(n: nat, size: nat)
    requires 0 < n < size
    ensures CeilDivide(n, size) == 1
  {
  }

  lemma SpliceFront(a: seq<byte>, b: seq<byte>, data: seq<byte>)
    requires |data| == |a|
    ensures Splice(a + b, 0, data) == data + b
  {
    assert (a + b)[..0] == [] && (a + b)[|a|..] == b;
    assert [] + data == data;
  }

  lemma FirstWord(ws: seq<u32>)
    requires ws != []
    ensures WordBytes(ws) == Le(4, ws[0]) + WordBytes(ws[1..])
  {
  }

  /** Replacing one word of a laid-out list. */
  lemma {:induction false} StoreWordAt(ws: seq<u32>, i: nat, v: u32, rest: seq<byte>)
    requires i < |ws|
    ensures Splice(WordBytes(ws) + rest, 4 * i, Le(4, v)) == WordBytes(ws[i := v]) + rest
  {
    hide Le;
    FirstWord(ws);
    FirstWord(ws[i := v]);
    hide WordBytes, Splice;
    if i == 0 {
      assert ws[0 := v][1..] == ws[1..];
      Assoc(Le(4, ws[0]), WordBytes(ws[1..]), rest);
      Assoc(Le(4, v), WordBytes(ws[1..]), rest);
      SpliceFront(Le(4, ws[0]), WordBytes(ws[1..]) + rest, Le(4, v));
    } else {
      StoreWordAt(ws[1..], i - 1, v, rest);
      assert ws[i := v][1..] == ws[1..][i - 1 := v];
      Assoc(Le(4, ws[0]), WordBytes(ws[1..]), rest);
      Assoc(Le(4, ws[0]), WordBytes(ws[1..][i - 1 := v]), rest);
      SpliceRight(Le(4, ws[0]), WordBytes(ws[1..]) + rest, 4 * (i - 1), Le(4, v));
    }
  }

  lemma {:induction false} WordAt(ws: seq<u32>, i: nat, rest: seq<byte>)
    requires i < |ws|
    ensures Load32(WordBytes(ws) + rest, 4 * i) == ws[i]
  {
    WordSlice(ws, i, rest);
    Stored32(ws[i]);
  }

  lemma {:induction false} WordSlice(ws: seq<u32>, i: nat, rest: seq<byte>)
    requires i < |ws|
    ensures (WordBytes(ws) + rest)[4 * i..4 * i + 4] == Le(4, ws[i])
  {
    hide Le;
    Assoc(Le(4, ws[0]), WordBytes(ws[1..]), rest);
    if i > 0 {
      WordSlice(ws[1..], i - 1, rest);
      SliceRight(Le(4, ws[0]), WordBytes(ws[1..]) + rest, 4 * (i - 1), 4);
    }
  }

  lemma {:induction false} ZeroWords(n: nat)
    ensures WordBytes(seq(n, i => 0)) == Zeros(4 * n)
  {
    if n > 0 {
      var ws: seq<u32> := seq(n, i => 0);
      assert ws[1..] == seq(n - 1, i => 0);
      ZeroWords(n - 1);
      assert Le(4, 0) == Zeros(4);
      ZerosSplit(4, 4 * (n - 1));
    }
  }

  /** Writes header word `i` of a record buffer. */
  method StoreField(buffer: array<byte>, off: nat, value: u32, ghost ws: seq<u32>, ghost rest: seq<byte>) returns (ghost next: seq<u32>)
    requires off % 4 == 0 && off / 4 < |ws|
    requires buffer[..] == WordBytes(ws) + rest
    modifies buffer
    ensures next == ws[off / 4 := value]
    ensures buffer[..] == WordBytes(next) + rest
  {
    hide Le, WordBytes;
    StoreWordAt(ws, off / 4, value, rest);
    StoreLe(buffer, off, 4, value);
    next := ws[off / 4 := value];
  }

  /** The header words once the element header is written. */
  function ElementWords(sequence: u32, elementCount: u32): seq<u32>
  {
    [0, 0, 0, 0, 0, 0, 0, 0, 0, sequence, elementCount, 0, HEADER_VERSION3, SIGNATURE_VALID, 0, 0, 0, 0, 0, 0]
  }

  method FillElement(buffer: array<byte>, sequence: u32, elementCount: u32)
    requires buffer.Length >= OVERHEAD && buffer[..] == Zeros(buffer.Length)
    modifies buffer
    ensures buffer[..] == WordBytes(ElementWords(sequence, elementCount)) + Zeros(buffer.Length - OVERHEAD)
  {
    hide WordBytes, Zeros;
    ghost var ws: seq<u32> := seq(20, i => 0);
    ghost var rest := Zeros(buffer.Length - OVERHEAD);
    ZeroWords(20);
    ZerosSplit(OVERHEAD, buffer.Length - OVERHEAD);
    ws := StoreField(buffer, SEQUENCE_OFFSET, sequence, ws, rest);
    ws := StoreField(buffer, COUNT_OFFSET, elementCount, ws, rest);
    ws := StoreField(buffer, ELEMENT_HEADER, HEADER_VERSION3, ws, rest);
    ws := StoreField(buffer, ELEMENT_HEADER + 4, SIGNATURE_VALID, ws, rest);
    assert ws == ElementWords(sequence, elementCount);
  }

  /** Writes the header fields of a zeroed record buffer in the source's order. */
  method FillHeader(buffer: array<byte>, function_: u32, payloadBytes: nat, sequence: u32, elementCount: u32)
    requires payloadBytes <= MAX32 - RPC_HEADER && buffer.Length >= OVERHEAD
    requires buffer[..] == Zeros(buffer.Length)
    modifies buffer
    ensures buffer[..] == WordBytes(HeaderWords(0, function_, payloadBytes, sequence, elementCount)) + Zeros(buffer.Length - OVERHEAD)
  {
    hide WordBytes, Zeros;
    FillElement(buffer, sequence, elementCount);
    ghost var ws := ElementWords(sequence, elementCount);
    ghost var rest := Zeros(buffer.Length - OVERHEAD);
    ws := StoreField(buffer, LENGTH_OFFSET, RPC_HEADER + payloadBytes, ws, rest);
    ws := StoreField(buffer, FUNCTION_OFFSET, function_, ws, rest);
    ws := StoreField(buffer, ELEMENT_HEADER + 16, PENDING, ws, rest);
    ws := StoreField(buffer, ELEMENT_HEADER + 20, PENDING, ws, rest);
    ws := StoreField(buffer, ELEMENT_HEADER + 24, 0, ws, rest);
    ws := StoreField(buffer, ELEMENT_HEADER + 28, 0, ws, rest);
    assert ws == HeaderWords(0, function_, payloadBytes, sequence, elementCount);
  }

  /** Builds one queue record, exactly when its sizes allow. */
  method BuildRpcRecord(function_: u32, payload: seq<byte>, sequence: u32, messageSize: u64, maxElements: u32)
    returns (out: Option<Record>)
    ensures out == if Buildable(|payload|, messageSize, maxElements)
                   then Some(RecordOf(function_, payload, sequence, messageSize)) else None
  {
    hide Le, Zeros, WordBytes, HeaderWords, XorWords, Splice;
    if messageSize == 0 || maxElements == 0 {
      return None;
    }
    if |payload| > MAX32 - RPC_HEADER {
      return None;
    }
    if |payload| > MAX64 - OVERHEAD {
      return None;
    }
    var unpadded := OVERHEAD + |payload|;
    var count := CeilDivide(unpadded, messageSize);
    CountCovers(unpadded, messageSize);
    if count == 0 || count > maxElements || count > MAX32 {
      return None;
    }
    ProductFits(count, messageSize, |payload|);
    if count > MAX64 / messageSize {
      return None;
    }
    var buffer := new byte[count * messageSize](_ => 0);
    AllZeros(buffer[..]);
    FillHeader(buffer, function_, |payload|, sequence, count);
    ghost var header := WordBytes(HeaderWords(0, function_, |payload|, sequence, count));
    SpliceZeros(header, buffer.Length - OVERHEAD, payload);
    CopyInto(buffer, OVERHEAD, payload);
    ghost var padding := Zeros(buffer.Length - unpadded);
    ghost var body := Body(0, function_, payload, sequence, count);
    SliceLeft(body, padding, 0, unpadded);
    assert body[0..unpadded] == body;
    var sum := RpcChecksum(buffer[..unpadded]);
    SumStored(function_, payload, sequence, count, sum, padding);
    StoreLe(buffer, CHECKSUM_OFFSET, 4, sum);
    out := Some(Record(buffer[..], sum, sequence, count, function_, |payload|));
  }

  lemma SumStored(function_: u32, payload: seq<byte>, sequence: u32, count: u32, sum: u32, padding: seq<byte>)
    requires |payload| <= MAX32 - RPC_HEADER
    ensures Splice(Body(0, function_, payload, sequence, count) + padding, CHECKSUM_OFFSET, Le(4, sum)) ==
            Body(sum, function_, payload, sequence, count) + padding
  {
    hide Le, WordBytes;
    var ws := HeaderWords(0, function_, |payload|, sequence, count);
    assert ws[CHECKSUM_WORD := sum] == HeaderWords(sum, function_, |payload|, sequence, count);
    StoreWordAt(ws, CHECKSUM_WORD, sum, payload + padding);
    Assoc(WordBytes(ws), payload, padding);
    Assoc(WordBytes(ws[CHECKSUM_WORD := sum]), payload, padding);
  }
}
