/** Fixed binary structures: fields stored at increasing offsets of a zeroed buffer. */
module Fields {
  import opened Words
  import opened Bytes

  datatype Field = Field(off: nat, width: nat, value: nat)

  /** Where field `k` may start: the end of the one before it. */
  function End(fs: seq<Field>, k: nat): nat
    requires k <= |fs|
  {
    if k == 0 then 0 else fs[k - 1].off + fs[k - 1].width
  }

  /** Field `i` starts no earlier than the one before it ends and can hold its value. */
  predicate Placed(fs: seq<Field>, i: nat)
    requires i < |fs|
  {
    End(fs, i) <= fs[i].off && fs[i].value < Pow256(fs[i].width)
  }

  /** Fields in order, apart, inside the structure, and wide enough for their values. */
  predicate Ordered(fs: seq<Field>, size: nat)
  {
    && End(fs, |fs|) <= size
    && forall i :: 0 <= i < |fs| ==> Placed(fs, i)
  }

  /** The bytes up to the end of field `k - 1`, the gaps zero. */
  function Laid(fs: seq<Field>, k: nat, size: nat): (r: seq<byte>)
    requires k <= |fs| && Ordered(fs, size)
    ensures |r| == End(fs, k)
  {
    if k == 0 then []
    else
      assert Placed(fs, k - 1);
      Laid(fs, k - 1, size) + Zeros(fs[k - 1].off - End(fs, k - 1)) + Le(fs[k - 1].width, fs[k - 1].value)
  }

  lemma {:induction false} EndInside(fs: seq<Field>, k: nat, size: nat)
    requires k <= |fs| && Ordered(fs, size)
    ensures End(fs, k) <= size
    decreases |fs| - k
  {
    if k < |fs| {
      assert Placed(fs, k);
      EndInside(fs, k + 1, size);
    }
  }

  /** The whole structure. */
  function Structure(fs: seq<Field>, size: nat): (r: seq<byte>)
    requires Ordered(fs, size)
    ensures |r| == size
  {
    Laid(fs, |fs|, size) + Zeros(size - End(fs, |fs|))
  }

  /** The size of the structure decides only its tail. */
  lemma {:induction false} LaidAnySize(fs: seq<Field>, k: nat, size: nat, larger: nat)
    requires k <= |fs| && Ordered(fs, size) && Ordered(fs, larger)
    ensures Laid(fs, k, size) == Laid(fs, k, larger)
  {
    hide Le, Zeros, Placed;
    if k > 0 { LaidAnySize(fs, k - 1, size, larger); }
  }

  lemma {:induction false} LaidAt(fs: seq<Field>, k: nat, size: nat, i: nat)
    requires i < k <= |fs| && Ordered(fs, size)
    ensures End(fs, i + 1) <= End(fs, k)
    ensures Laid(fs, k, size)[fs[i].off..fs[i].off + fs[i].width] == Le(fs[i].width, fs[i].value)
  {
    hide Le, Zeros, Pow256;
    assert Placed(fs, k - 1);
    if i < k - 1 { LaidAt(fs, k - 1, size, i); }
  }

  /** Every field reads back, whatever the others hold. */
  lemma FieldReadsBack(fs: seq<Field>, size: nat, i: nat)
    requires i < |fs| && Ordered(fs, size)
    ensures fs[i].off + fs[i].width <= size
    ensures Load(Structure(fs, size), fs[i].off, fs[i].width) == fs[i].value
  {
    hide Le, UnLe, Zeros, Laid;
    assert Placed(fs, i);
    EndInside(fs, i + 1, size);
    LaidAt(fs, |fs|, size, i);
    SliceLeft(Laid(fs, |fs|, size), Zeros(size - End(fs, |fs|)), fs[i].off, fs[i].width);
    UnLeOfLe(fs[i].width, fs[i].value);
  }

  /** No field covers this byte. */
  predicate Gap(fs: seq<Field>, j: nat) { forall i :: 0 <= i < |fs| ==> !(fs[i].off <= j < fs[i].off + fs[i].width) }

  lemma {:induction false} LaidGap(fs: seq<Field>, k: nat, size: nat, j: nat)
    requires k <= |fs| && Ordered(fs, size) && j < End(fs, k) && Gap(fs, j)
    ensures Laid(fs, k, size)[j] == 0
  {
    hide Le;
    if k > 0 {
      assert Placed(fs, k - 1);
      if j < End(fs, k - 1) { LaidGap(fs, k - 1, size, j); }
    }
  }

  /** A byte that no field covers is zero. */
  lemma GapIsZero(fs: seq<Field>, size: nat, j: nat)
    requires Ordered(fs, size) && j < size && Gap(fs, j)
    ensures Structure(fs, size)[j] == 0
  {
    hide Laid, Gap;
    if j < End(fs, |fs|) { LaidGap(fs, |fs|, size, j); }
  }

  /** A zeroed buffer, before any store. */
  lemma Start(fs: seq<Field>, s: seq<byte>)
    requires Ordered(fs, |s|) && forall i :: 0 <= i < |s| ==> s[i] == 0
    ensures s == Laid(fs, 0, |s|) + Zeros(|s| - End(fs, 0))
  {
  }

  /** Stores field `k` behind the ones already laid. */
  method Store(buffer: array<byte>, off: nat, width: nat, value: nat, ghost fs: seq<Field>, ghost k: nat)
    requires Ordered(fs, buffer.Length) && k < |fs| && fs[k] == Field(off, width, value)
    requires End(fs, k) <= buffer.Length
    requires buffer[..] == Laid(fs, k, buffer.Length) + Zeros(buffer.Length - End(fs, k))
    modifies buffer
    ensures End(fs, k + 1) <= buffer.Length
    ensures buffer[..] == Laid(fs, k + 1, buffer.Length) + Zeros(buffer.Length - End(fs, k + 1))
  {
    hide Le, Zeros, Splice;
    assert Placed(fs, k);
    EndInside(fs, k + 1, buffer.Length);
    ghost var front, gap := Laid(fs, k, buffer.Length), off - End(fs, k);
    ghost var rest := buffer.Length - End(fs, k) - gap;
    ZerosSplit(gap, rest);
    Assoc(front, Zeros(gap), Zeros(rest));
    SpliceZeros(front + Zeros(gap), rest, Le(width, value));
    StoreLe(buffer, off, width, value);
  }
}
