/** Byte sequences: little-endian integers, zero fill, and writing one range over another. */
module Bytes {
  import opened Words

  function Zeros(n: nat): (r: seq<byte>)
    ensures |r| == n
    ensures forall i :: 0 <= i < n ==> r[i] == 0
  {
    seq(n, i => 0)
  }

  /** The low `n` bytes of `v`, least significant first. */
  function Le(n: nat, v: nat): (r: seq<byte>)
    ensures |r| == n
  {
    if n == 0 then [] else [v % 0x100] + Le(n - 1, v / 0x100)
  }

  function UnLe(s: seq<byte>): nat
  {
    if s == [] then 0 else s[0] + 0x100 * UnLe(s[1..])
  }

  function Pow256(n: nat): (r: nat)
    ensures r > 0
  {
    if n == 0 then 1 else 0x100 * Pow256(n - 1)
  }

  lemma {:induction false} UnLeOfLe(n: nat, v: nat)
    requires v < Pow256(n)
    ensures UnLe(Le(n, v)) == v
  {
    if n > 0 {
      assert Le(n, v)[1..] == Le(n - 1, v / 0x100);
      UnLeOfLe(n - 1, v / 0x100);
    }
  }

  lemma {:induction false} LeOfUnLe(s: seq<byte>)
    ensures UnLe(s) < Pow256(|s|)
    ensures Le(|s|, UnLe(s)) == s
  {
    if s != [] {
      LeOfUnLe(s[1..]);
      assert UnLe(s) % 0x100 == s[0] && UnLe(s) / 0x100 == UnLe(s[1..]);
      assert s == [s[0]] + s[1..];
    }
  }

  lemma Pow256Values()
    ensures Pow256(1) == 0x100 && Pow256(2) == 0x1_0000 && Pow256(4) == 0x1_0000_0000
    ensures Pow256(8) == 0x1_0000_0000_0000_0000
  {
    assert Pow256(3) == 0x100_0000;
    assert Pow256(5) == 0x100_0000_0000;
    assert Pow256(6) == 0x1_0000_0000_0000;
    assert Pow256(7) == 0x100_0000_0000_0000;
  }

  /** A little-endian field of `n` bytes at `off`. */
  function Load(s: seq<byte>, off: nat, n: nat): nat
    requires off + n <= |s|
  {
    UnLe(s[off..off + n])
  }

  function Load32(s: seq<byte>, off: nat): u32
    requires off + 4 <= |s|
  {
    LeOfUnLe(s[off..off + 4]);
    Pow256Values();
    Load(s, off, 4)
  }

  function Load64(s: seq<byte>, off: nat): u64
    requires off + 8 <= |s|
  {
    LeOfUnLe(s[off..off + 8]);
    Pow256Values();
    Load(s, off, 8)
  }

  /** `s` with `data` written at `off`; a range outside `s` leaves it unchanged. */
  function Splice(s: seq<byte>, off: nat, data: seq<byte>): (r: seq<byte>)
    ensures |r| == |s|
  {
    if off + |data| <= |s| then s[..off] + data + s[off + |data|..] else s
  }

  lemma SpliceJoins(s: seq<byte>, off: nat, xs: seq<byte>, ys: seq<byte>)
    requires off + |xs| + |ys| <= |s|
    ensures Splice(Splice(s, off, xs), off + |xs|, ys) == Splice(s, off, xs + ys)
  {
  }

  /** Reading back what was written, and reading beside it. */
  lemma SpliceAt(s: seq<byte>, off: nat, data: seq<byte>, from: nat, n: nat)
    requires off + |data| <= |s| && from + n <= |s|
    ensures off <= from && from + n <= off + |data| ==>
              Splice(s, off, data)[from..from + n] == data[from - off..from - off + n]
    ensures from + n <= off || off + |data| <= from ==> Splice(s, off, data)[from..from + n] == s[from..from + n]
  {
  }

  /** A slice of a concatenation that lies in one part. */
  lemma SliceLeft(a: seq<byte>, b: seq<byte>, from: nat, n: nat)
    requires from + n <= |a|
    ensures (a + b)[from..from + n] == a[from..from + n]
  {
  }

  lemma SliceRight(a: seq<byte>, b: seq<byte>, from: nat, n: nat)
    requires from + n <= |b|
    ensures (a + b)[|a| + from..|a| + from + n] == b[from..from + n]
  {
  }

  lemma SpliceLeft(a: seq<byte>, b: seq<byte>, off: nat, data: seq<byte>)
    requires off + |data| <= |a|
    ensures Splice(a + b, off, data) == Splice(a, off, data) + b
  {
    assert (a + b)[off + |data|..] == a[off + |data|..] + b;
  }

  lemma SpliceRight(a: seq<byte>, b: seq<byte>, off: nat, data: seq<byte>)
    requires off + |data| <= |b|
    ensures Splice(a + b, |a| + off, data) == a + Splice(b, off, data)
  {
    assert (a + b)[..|a| + off] == a + b[..off];
    assert (a + b)[|a| + off + |data|..] == b[off + |data|..];
  }

  /** A slice of a slice. */
  lemma SubSlice(f: seq<byte>, ro: nat, b: seq<byte>, from: nat, n: nat)
    requires from + n <= |b| && ro + |b| <= |f| && f[ro..ro + |b|] == b
    ensures f[ro + from..ro + from + n] == b[from..from + n]
  {
    var whole, l, r := f[ro..ro + |b|], f[ro + from..ro + from + n], b[from..from + n];
    forall k | 0 <= k < n ensures l[k] == r[k] {
      assert whole[from + k] == f[ro + (from + k)];
    }
  }

  lemma Assoc(a: seq<byte>, b: seq<byte>, c: seq<byte>)
    ensures a + b + c == a + (b + c)
  {
  }

  lemma ZerosSplit(a: nat, b: nat)
    ensures Zeros(a + b) == Zeros(a) + Zeros(b)
  {
  }

  /** Writing at the start of a zero fill. */
  lemma SpliceZeros(before: seq<byte>, n: nat, data: seq<byte>)
    requires |data| <= n
    ensures Splice(before + Zeros(n), |before|, data) == before + data + Zeros(n - |data|)
  {
    var whole := before + Zeros(n);
    assert whole[..|before|] == before;
    assert whole[|before| + |data|..] == Zeros(n - |data|);
  }

  lemma Stored32(v: u32)
    ensures UnLe(Le(4, v)) == v
  {
    Pow256Values();
    UnLeOfLe(4, v);
  }

  lemma Stored64(v: u64)
    ensures UnLe(Le(8, v)) == v
  {
    Pow256Values();
    UnLeOfLe(8, v);
  }

  lemma LowByte(n: nat, v: nat)
    requires n > 0
    ensures Le(n, v)[0] == v % 0x100 && Le(n, v)[1..] == Le(n - 1, v / 0x100)
  {
  }

  /** One more byte behind those already stored. */
  lemma ByteBehind(was: seq<byte>, off: nat, data: seq<byte>, i: nat, now: seq<byte>)
    requires i < |data| && off + |data| <= |was| && now == was[..off] + data[..i] + was[off + i..]
    ensures now[off + i := data[i]] == was[..off] + data[..i + 1] + was[off + i + 1..]
  {
  }

  /** Stores the bytes of `value` one at a time, as the source's shift loops do. */
  method StoreLe(buffer: array<byte>, off: nat, n: nat, value: nat)
    requires off + n <= buffer.Length
    modifies buffer
    ensures buffer[..] == Splice(old(buffer[..]), off, Le(n, value))
  {
    hide Le;
    var rest := value;
    var i := 0;
    ghost var was := buffer[..];
    while i < n
      invariant 0 <= i <= n
      invariant buffer[..] == was[..off] + Le(n, value)[..i] + was[off + i..]
      invariant Le(n, value)[i..] == Le(n - i, rest)
    {
      LowByte(n - i, rest);
      assert Le(n, value)[i] == Le(n - i, rest)[0];
      assert Le(n, value)[i + 1..] == Le(n - i, rest)[1..];
      ByteBehind(was, off, Le(n, value), i, buffer[..]);
      buffer[off + i] := rest % 0x100;
      rest := rest / 0x100;
      i := i + 1;
    }
    assert Le(n, value)[..n] == Le(n, value);
  }

  lemma AllZeros(s: seq<byte>)
    requires forall i :: 0 <= i < |s| ==> s[i] == 0
    ensures s == Zeros(|s|)
  {
  }

  /** Copies `data` into a buffer byte by byte. */
  method CopyInto(buffer: array<byte>, off: nat, data: seq<byte>)
    requires off + |data| <= buffer.Length
    modifies buffer
    ensures buffer[..] == Splice(old(buffer[..]), off, data)
  {
    for i := 0 to |data|
      invariant buffer[..] == Splice(old(buffer[..]), off, data[..i])
    {
      buffer[off + i] := data[i];
      assert data[..i + 1] == data[..i] + [data[i]];
    }
    assert data[..|data|] == data;
  }
}
