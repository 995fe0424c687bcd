/** The registry table that one bootstrap record carries. */
module Registry {
  import opened Words
  import opened Wrappers
  import opened Bytes
  import opened Rpc

  datatype Entry = Entry(name: seq<byte>, value: u32)

  const ENTRY_BYTES: nat := 16
  const TYPE_DWORD: u32 := 1

  predicate NameOk(name: seq<byte>) { name != [] && 0 !in name }

  /** The bytes of the first `k` names, a NUL closing each. */
  function StringsTo(entries: seq<Entry>, k: nat): nat
    requires k <= |entries|
  {
    if k == 0 then 0 else StringsTo(entries, k - 1) + |entries[k - 1].name| + 1
  }

  function NamesTo(entries: seq<Entry>, k: nat): (r: seq<byte>)
    requires k <= |entries|
    ensures |r| == StringsTo(entries, k)
  {
    if k == 0 then [] else NamesTo(entries, k - 1) + (entries[k - 1].name + [0])
  }

  function FirstName(entries: seq<Entry>): nat { 8 + ENTRY_BYTES * |entries| }

  function TableBytes(entries: seq<Entry>): nat { FirstName(entries) + StringsTo(entries, |entries|) }

  /** What can be built: usable names in a table of 32-bit size. */
  predicate Buildable(entries: seq<Entry>)
  {
    && (forall e <- entries :: NameOk(e.name))
    && TableBytes(entries) <= MAX32
  }

  /** One entry: where its name is, its type, its value and the value's size. */
  function Row(cursor: u32, value: u32): (r: seq<u32>)
    ensures |r| == 4
  {
    [cursor, TYPE_DWORD, value, 4]
  }

  lemma {:induction false} StringsGrow(entries: seq<Entry>, i: nat, k: nat)
    requires i <= k <= |entries|
    ensures StringsTo(entries, i) <= StringsTo(entries, k)
  {
    if i < k { StringsGrow(entries, i, k - 1); }
  }

  /** The rows of the first `k` entries. */
  function RowsTo(entries: seq<Entry>, k: nat): (r: seq<u32>)
    requires k <= |entries| && TableBytes(entries) <= MAX32
    ensures |r| == 4 * k
  {
    if k == 0 then []
    else
      StringsGrow(entries, k - 1, |entries|);
      RowsTo(entries, k - 1) + Row(FirstName(entries) + StringsTo(entries, k - 1), entries[k - 1].value)
  }

  function Head(entries: seq<Entry>): (r: seq<u32>)
    requires TableBytes(entries) <= MAX32
    ensures |r| == 2
  {
    [TableBytes(entries), |entries|]
  }

  function Table(entries: seq<Entry>): (r: seq<byte>)
    requires TableBytes(entries) <= MAX32
    ensures |r| == TableBytes(entries)
  {
    WordBytes(Head(entries) + RowsTo(entries, |entries|)) + NamesTo(entries, |entries|)
  }

  // ---- Building ----

  function ZeroWordsOf(n: nat): (r: seq<u32>)
    ensures |r| == n
  {
    seq(n, i => 0)
  }

  /** The words of the table with the first `k` entries stored and the others still zero. */
  function Partial(entries: seq<Entry>, k: nat): (ws: seq<u32>)
    requires k <= |entries| && TableBytes(entries) <= MAX32
    ensures |ws| == 2 + 4 * |entries|
  {
    Head(entries) + RowsTo(entries, k) + ZeroWordsOf(4 * (|entries| - k))
  }

  /** Four consecutive words replaced. */
  function SetRow(ws: seq<u32>, at: nat, row: seq<u32>): (r: seq<u32>)
    requires at + 4 <= |ws| && |row| == 4
  {
    ws[at := row[0]][at + 1 := row[1]][at + 2 := row[2]][at + 3 := row[3]]
  }

  /** Storing a row of four words over the zeros behind `head + words`. */
  lemma RowStep(head: seq<u32>, words: seq<u32>, n: nat, row: seq<u32>)
    requires n >= 4 && |row| == 4
    ensures SetRow(head + words + ZeroWordsOf(n), |head| + |words|, row) == head + (words + row) + ZeroWordsOf(n - 4)
  {
  }

  lemma PartialStep(entries: seq<Entry>, k: nat, cursor: u32)
    requires k < |entries| && TableBytes(entries) <= MAX32
    requires cursor == FirstName(entries) + StringsTo(entries, k)
    ensures Partial(entries, k + 1) == SetRow(Partial(entries, k), 2 + 4 * k, Row(cursor, entries[k].value))
  {
    hide SetRow, Row, Head, ZeroWordsOf;
    RowStep(Head(entries), RowsTo(entries, k), 4 * (|entries| - k), Row(cursor, entries[k].value));
  }

  /** Checks every name and sums their lengths, closing NULs included. */
  method MeasureNames(entries: seq<Entry>) returns (strings: Option<nat>)
    ensures strings.Some? <==> (forall e <- entries :: NameOk(e.name)) && StringsTo(entries, |entries|) <= MAX32
    ensures strings.Some? ==> strings.value == StringsTo(entries, |entries|)
  {
    var sum := 0;
    for i := 0 to |entries|
      invariant forall k :: 0 <= k < i ==> NameOk(entries[k].name)
      invariant sum == StringsTo(entries, i) <= MAX32
    {
      var e := entries[i];
      if e.name == [] || 0 in e.name {
        assert !NameOk(e.name) && e in entries;
        return None;
      }
      StringsGrow(entries, i + 1, |entries|);
      if sum > MAX32 - |e.name| - 1 {
        return None;
      }
      sum := sum + |e.name| + 1;
    }
    strings := Some(sum);
  }

  /** The buffer once the first `i` entries and their names are stored. */
  ghost predicate Stored(s: seq<byte>, entries: seq<Entry>, i: nat)
    requires i <= |entries| && TableBytes(entries) <= MAX32
  {
    StringsGrow(entries, i, |entries|);
    s == WordBytes(Partial(entries, i)) + (NamesTo(entries, i) + Zeros(StringsTo(entries, |entries|) - StringsTo(entries, i)))
  }

  /** Stores the table's size and entry count. */
  method StoreHead(buffer: array<byte>, entries: seq<Entry>)
    requires TableBytes(entries) <= MAX32 && buffer.Length == TableBytes(entries)
    requires buffer[..] == Zeros(buffer.Length)
    modifies buffer
    ensures Stored(buffer[..], entries, 0)
  {
    hide Zeros, WordBytes;
    ghost var strings := StringsTo(entries, |entries|);
    ghost var ws := ZeroWordsOf(2 + 4 * |entries|);
    ZeroWords(2 + 4 * |entries|);
    ZerosSplit(FirstName(entries), strings);
    ws := StoreField(buffer, 0, buffer.Length, ws, Zeros(strings));
    ws := StoreField(buffer, 4, |entries|, ws, Zeros(strings));
    assert ws == Partial(entries, 0);
    assert NamesTo(entries, 0) + Zeros(strings) == Zeros(strings);
  }

  /** Stores the four words of an entry. */
  method StoreRow(buffer: array<byte>, off: nat, cursor: u32, value: u32, ghost words: seq<u32>, ghost rest: seq<byte>)
    returns (ghost row: seq<u32>)
    requires off % 4 == 0 && off / 4 + 4 <= |words| && buffer[..] == WordBytes(words) + rest
    modifies buffer
    ensures row == words[off / 4 := cursor][off / 4 + 1 := TYPE_DWORD][off / 4 + 2 := value][off / 4 + 3 := 4]
    ensures buffer[..] == WordBytes(row) + rest
  {
    hide WordBytes;
    row := StoreField(buffer, off, cursor, words, rest);
    row := StoreField(buffer, off + 4, TYPE_DWORD, row, rest);
    row := StoreField(buffer, off + 8, value, row, rest);
    row := StoreField(buffer, off + 12, 4, row, rest);
  }

  /** Stores entry `i` and copies its name, with its NUL, to `cursor`. */
  method StoreEntry(buffer: array<byte>, entries: seq<Entry>, i: nat, cursor: nat)
    requires i < |entries| && TableBytes(entries) <= MAX32
    requires cursor == FirstName(entries) + StringsTo(entries, i)
    requires Stored(buffer[..], entries, i)
    modifies buffer
    ensures Stored(buffer[..], entries, i + 1)
  {
    hide Zeros, WordBytes, Partial, Splice;
    StringsGrow(entries, i, |entries|);
    StringsGrow(entries, i + 1, |entries|);
    PartialStep(entries, i, cursor);
    ghost var n := StringsTo(entries, |entries|) - StringsTo(entries, i);
    ghost var rest := NamesTo(entries, i) + Zeros(n);
    var off := 8 + i * ENTRY_BYTES;
    ghost var row := StoreRow(buffer, off, cursor, entries[i].value, Partial(entries, i), rest);
    var name := entries[i].name + [0];
    SpliceRight(WordBytes(row), rest, StringsTo(entries, i), name);
    SpliceZeros(NamesTo(entries, i), n, name);
    CopyInto(buffer, cursor, name);
  }

  /** Lays the table out in one buffer: entries from the front, names behind them. */
  method BuildRegistryTable(entries: seq<Entry>) returns (out: Option<seq<byte>>)
    ensures out.Some? <==> Buildable(entries)
    ensures out.Some? ==> out.value == Table(entries)
  {
    hide Zeros, Table, Stored;
    if |entries| > (MAX32 - 8) / ENTRY_BYTES {
      return None;
    }
    var measured := MeasureNames(entries);
    if measured.None? {
      return None;
    }
    var total := FirstName(entries) + measured.value;
    if total > MAX32 {
      return None;
    }
    var buffer := new byte[total](_ => 0);
    AllZeros(buffer[..]);
    StoreHead(buffer, entries);
    var cursor := FirstName(entries);
    for i := 0 to |entries|
      invariant cursor == FirstName(entries) + StringsTo(entries, i)
      invariant Stored(buffer[..], entries, i)
    {
      StoreEntry(buffer, entries, i, cursor);
      cursor := cursor + |entries[i].name| + 1;
    }
    StoredAll(buffer[..], entries);
    out := Some(buffer[..]);
  }

  lemma StoredAll(s: seq<byte>, entries: seq<Entry>)
    requires TableBytes(entries) <= MAX32 && Stored(s, entries, |entries|)
    ensures s == Table(entries)
  {
    hide WordBytes, NamesTo, RowsTo;
    assert Partial(entries, |entries|) == Head(entries) + RowsTo(entries, |entries|);
    assert NamesTo(entries, |entries|) + Zeros(0) == NamesTo(entries, |entries|);
  }

  // ---- Reading the table back ----

  /** The bytes from `at` up to the next NUL. */
  function CString(s: seq<byte>, at: nat): seq<byte>
    decreases |s| - at
  {
    if at >= |s| || s[at] == 0 then [] else [s[at]] + CString(s, at + 1)
  }

  lemma {:induction false} CStringOf(s: seq<byte>, at: nat, name: seq<byte>, k: nat)
    requires 0 !in name && k <= |name| && at + |name| < |s|
    requires s[at..at + |name| + 1] == name + [0]
    ensures CString(s, at + k) == name[k..]
    decreases |name| - k
  {
    assert s[at + k] == (name + [0])[k];
    if k < |name| {
      assert name[k] in name;
      CStringOf(s, at, name, k + 1);
      assert name[k..] == [name[k]] + name[k + 1..];
    }
  }

  lemma {:induction false} RowAt(entries: seq<Entry>, k: nat, i: nat)
    requires i < k <= |entries| && TableBytes(entries) <= MAX32
    ensures FirstName(entries) + StringsTo(entries, i) <= MAX32
    ensures RowsTo(entries, k)[4 * i..4 * i + 4] == Row(FirstName(entries) + StringsTo(entries, i), entries[i].value)
  {
    hide Row;
    StringsGrow(entries, i, |entries|);
    if i < k - 1 { RowAt(entries, k - 1, i); }
  }

  lemma {:induction false} NameAt(entries: seq<Entry>, k: nat, i: nat)
    requires i < k <= |entries|
    ensures StringsTo(entries, i + 1) <= StringsTo(entries, k)
    ensures NamesTo(entries, k)[StringsTo(entries, i)..StringsTo(entries, i + 1)] == entries[i].name + [0]
  {
    if i < k - 1 { NameAt(entries, k - 1, i); }
  }

  /** Every entry reads back: following its name offset gives its name, beside its value. */
  lemma TableReadsBack(entries: seq<Entry>, i: nat)
    requires Buildable(entries) && i < |entries|
    ensures var t := Table(entries);
      && Load32(t, 0) == |t| && Load32(t, 4) == |entries|
      && var off := 8 + 16 * i;
      && off + 16 <= |t|
      && CString(t, Load32(t, off)) == entries[i].name
      && Load32(t, off + 4) == 1
      && Load32(t, off + 8) == entries[i].value
      && Load32(t, off + 12) == 4
  {
    hide WordBytes, Load32, CString, RowsTo, NamesTo, StringsTo;
    var rows, names := RowsTo(entries, |entries|), NamesTo(entries, |entries|);
    var ws := Head(entries) + rows;
    WordAt(ws, 0, names);
    WordAt(ws, 1, names);
    RowAt(entries, |entries|, i);
    var row := rows[4 * i..4 * i + 4];
    assert ws[2 + 4 * i] == row[0] && ws[3 + 4 * i] == row[1] && ws[4 + 4 * i] == row[2] && ws[5 + 4 * i] == row[3];
    WordAt(ws, 2 + 4 * i, names);
    WordAt(ws, 3 + 4 * i, names);
    WordAt(ws, 4 + 4 * i, names);
    WordAt(ws, 5 + 4 * i, names);
    NameReadsBack(entries, i);
  }

  lemma NameReadsBack(entries: seq<Entry>, i: nat)
    requires Buildable(entries) && i < |entries|
    ensures CString(Table(entries), FirstName(entries) + StringsTo(entries, i)) == entries[i].name
  {
    hide WordBytes, CString, RowsTo, NamesTo, Head, StringsTo;
    NameAt(entries, |entries|, i);
    assert entries[i] in entries;
    StringsStep(entries, i);
    BehindFront(WordBytes(Head(entries) + RowsTo(entries, |entries|)), NamesTo(entries, |entries|), StringsTo(entries, i),
                entries[i].name);
  }

  lemma StringsStep(entries: seq<Entry>, i: nat)
    requires i < |entries|
    ensures StringsTo(entries, i + 1) == StringsTo(entries, i) + |entries[i].name| + 1
  {
  }

  /** A name found in the strings is found behind whatever precedes them. */
  lemma BehindFront(front: seq<byte>, names: seq<byte>, off: nat, name: seq<byte>)
    requires 0 !in name && off + |name| + 1 <= |names| && names[off..off + |name| + 1] == name + [0]
    ensures CString(front + names, |front| + off) == name
  {
    hide CString;
    SliceRight(front, names, off, |name| + 1);
    CStringOf(front + names, |front| + off, name, 0);
  }

  // ---- No long run of zeros ----

  /** A byte other than zero within the next 32. */
  predicate NonZeroNear(s: seq<byte>, at: nat)
  {
    exists k :: at <= k < at + 32 && k < |s| && s[k] != 0
  }

  /** Names are not empty and hold no NUL, so two zeros never follow one another. */
  lemma {:induction false} NamesHaveNoDoubleZero(entries: seq<Entry>, k: nat, p: nat)
    requires k <= |entries| && (forall e <- entries :: NameOk(e.name)) && p + 1 < StringsTo(entries, k)
    ensures NamesTo(entries, k)[p] != 0 || NamesTo(entries, k)[p + 1] != 0
  {
    var name, before := entries[k - 1].name, StringsTo(entries, k - 1);
    assert NameOk(entries[k - 1].name) by { assert entries[k - 1] in entries; }
    if p + 1 < before {
      NamesHaveNoDoubleZero(entries, k - 1, p);
    } else {
      var q := if p < before then 0 else p - before;
      assert (name + [0])[q] == name[q] && name[q] in name;
    }
  }

  /** The size word of every entry is 4. */
  lemma SizeByte(entries: seq<Entry>, i: nat)
    requires Buildable(entries) && i < |entries|
    ensures 8 + ENTRY_BYTES * i + 12 < |Table(entries)| && Table(entries)[8 + ENTRY_BYTES * i + 12] == 4
  {
    hide Table, CString;
    TableReadsBack(entries, i);
    FirstByte(Table(entries), 8 + ENTRY_BYTES * i + 12);
  }

  lemma FirstByte(s: seq<byte>, off: nat)
    requires off + 4 <= |s|
    ensures Load32(s, off) % 0x100 == s[off]
  {
  }

  /** Behind its two head words a table never holds more than a few zeros in a row before its last byte. */
  lemma TableHasNoZeroRun(entries: seq<Entry>, at: nat)
    requires Buildable(entries) && 8 <= at && at + 1 < TableBytes(entries)
    ensures NonZeroNear(Table(entries), at)
  {
    hide Table, NamesTo, StringsTo, NameOk;
    var t, first := Table(entries), FirstName(entries);
    var i := (at - 8) / ENTRY_BYTES;
    if at < first && at <= 8 + ENTRY_BYTES * i + 12 {
      SizeByte(entries, i);
      assert t[8 + ENTRY_BYTES * i + 12] != 0;
    } else if at < first && i + 1 < |entries| {
      SizeByte(entries, i + 1);
      assert t[8 + ENTRY_BYTES * (i + 1) + 12] != 0;
    } else {
      var p := if at < first then 0 else at - first;
      NamesAreLong(entries);
      NamesHaveNoDoubleZero(entries, |entries|, p);
      NamesBehindRows(entries, p);
      NamesBehindRows(entries, p + 1);
      assert t[first + p] != 0 || t[first + (p + 1)] != 0;
    }
  }

  lemma NamesAreLong(entries: seq<Entry>)
    requires forall e <- entries :: NameOk(e.name)
    ensures entries != [] ==> StringsTo(entries, |entries|) >= 2
    ensures entries == [] ==> StringsTo(entries, |entries|) == 0
  {
    if entries != [] { assert entries[|entries| - 1] in entries; }
  }

  lemma NamesBehindRows(entries: seq<Entry>, p: nat)
    requires TableBytes(entries) <= MAX32 && p < StringsTo(entries, |entries|)
    ensures Table(entries)[FirstName(entries) + p] == NamesTo(entries, |entries|)[p]
  {
    hide WordBytes, RowsTo, NamesTo, StringsTo;
  }
}
