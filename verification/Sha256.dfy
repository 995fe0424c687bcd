/** SHA-256: the block loop and padded tail of the implementation, against FIPS 180-4. */
module Sha256 {
  import opened Words
  import opened Arith
  import opened Bytes

  const BLOCK: nat := 64

  // ---- FIPS 180-4 ----

  /** Addition modulo 2^32. */
  function Add(a: u32, b: u32): u32 { (a + b) % 0x1_0000_0000 }

  /** Rotation right: the low `n` bits move to the top (section 3.2). */
  function RotR(n: nat, x: u32): u32
    requires 0 < n < 32
  {
    RotationFits(n, x);
    x / Pow2(n) + x % Pow2(n) * Pow2(32 - n)
  }

  lemma {:induction false} Pow2Add(a: nat, b: nat)
    ensures Pow2(a + b) == Pow2(a) * Pow2(b)
  {
    if a > 0 { Pow2Add(a - 1, b); }
  }

  lemma RotationFits(n: nat, x: u32)
    requires 0 < n < 32
    ensures 0 <= x / Pow2(n) < Pow2(32 - n) && 0 <= x % Pow2(n) < Pow2(n)
    ensures 0 <= x / Pow2(n) + x % Pow2(n) * Pow2(32 - n) < 0x1_0000_0000
  {
    hide Pow2;
    Pow2Add(n, 32 - n);
    Pow2Of32();
    var low, high, p, q := x % Pow2(n), x / Pow2(n), Pow2(n), Pow2(32 - n);
    Quotients(x, p, q);
    MulMono(low + 1, p, q);
    Distributes(low, 1, q);
    MulMono(0, low, q);
  }

  lemma Quotients(x: nat, p: nat, q: nat)
    requires p > 0 && q > 0 && x < p * q
    ensures 0 <= x / p < q && 0 <= x % p < p
  {
    assert x == x / p * p + x % p;
    if x / p >= q { MulMono(q, x / p, p); }
    if x / p < 0 { MulMono(x / p, -1, p); }
  }

  function Ch(x: u32, y: u32, z: u32): u32 { Xor32(And32(x, y), AndNot32(z, x)) }
  function Maj(x: u32, y: u32, z: u32): u32 { Xor32(Xor32(And32(x, y), And32(x, z)), And32(y, z)) }

  /** The functions of section 4.1.2. */
  function BigSigma0(x: u32): u32 { Xor32(Xor32(RotR(2, x), RotR(13, x)), RotR(22, x)) }
  function BigSigma1(x: u32): u32 { Xor32(Xor32(RotR(6, x), RotR(11, x)), RotR(25, x)) }
  function SmallSigma0(x: u32): u32 { Xor32(Xor32(RotR(7, x), RotR(18, x)), x / 0x8) }
  function SmallSigma1(x: u32): u32 { Xor32(Xor32(RotR(17, x), RotR(19, x)), x / 0x400) }

  const K0: seq<u32> := [0x428a2f98, 0x71374491, 0xb5c0fbcf, 0xe9b5dba5, 0x3956c25b, 0x59f111f1, 0x923f82a4, 0xab1c5ed5]
  const K1: seq<u32> := [0xd807aa98, 0x12835b01, 0x243185be, 0x550c7dc3, 0x72be5d74, 0x80deb1fe, 0x9bdc06a7, 0xc19bf174]
  const K2: seq<u32> := [0xe49b69c1, 0xefbe4786, 0x0fc19dc6, 0x240ca1cc, 0x2de92c6f, 0x4a7484aa, 0x5cb0a9dc, 0x76f988da]
  const K3: seq<u32> := [0x983e5152, 0xa831c66d, 0xb00327c8, 0xbf597fc7, 0xc6e00bf3, 0xd5a79147, 0x06ca6351, 0x14292967]
  const K4: seq<u32> := [0x27b70a85, 0x2e1b2138, 0x4d2c6dfc, 0x53380d13, 0x650a7354, 0x766a0abb, 0x81c2c92e, 0x92722c85]
  const K5: seq<u32> := [0xa2bfe8a1, 0xa81a664b, 0xc24b8b70, 0xc76c51a3, 0xd192e819, 0xd6990624, 0xf40e3585, 0x106aa070]
  const K6: seq<u32> := [0x19a4c116, 0x1e376c08, 0x2748774c, 0x34b0bcb5, 0x391c0cb3, 0x4ed8aa4a, 0x5b9cca4f, 0x682e6ff3]
  const K7: seq<u32> := [0x748f82ee, 0x78a5636f, 0x84c87814, 0x8cc70208, 0x90befffa, 0xa4506ceb, 0xbef9a3f7, 0xc67178f2]
  const K: seq<u32> := K0 + K1 + K2 + K3 + K4 + K5 + K6 + K7

  /** The round constant of section 4.2.2. */
  function KAt(i: nat): u32
    requires i < 64
  {
    K[i]
  }

  datatype State = State(a: u32, b: u32, c: u32, d: u32, e: u32, f: u32, g: u32, h: u32)

  const H0: State := State(0x6a09e667, 0xbb67ae85, 0x3c6ef372, 0xa54ff53a, 0x510e527f, 0x9b05688c, 0x1f83d9ab, 0x5be0cd19)

  /** A big-endian word. */
  function BigWord(s: seq<byte>, off: nat): u32
    requires off + 4 <= |s|
  {
    var a: nat, b: nat, c: nat, d: nat := s[off], s[off + 1], s[off + 2], s[off + 3];
    a * 0x100_0000 + b * 0x1_0000 + c * 0x100 + d
  }

  /** Word `t` of the message schedule (section 6.2.2, step 1). */
  function Schedule(block: seq<byte>, t: nat): u32
    requires |block| == BLOCK && t < 64
  {
    if t < 16 then BigWord(block, 4 * t)
    else
      Add(Add(Add(SmallSigma1(Schedule(block, t - 2)), Schedule(block, t - 7)), SmallSigma0(Schedule(block, t - 15))),
          Schedule(block, t - 16))
  }

  /** One round (step 3). */
  function Round(s: State, k: u32, w: u32): State
  {
    var t1 := Add(Add(Add(Add(s.h, BigSigma1(s.e)), Ch(s.e, s.f, s.g)), k), w);
    var t2 := Add(BigSigma0(s.a), Maj(s.a, s.b, s.c));
    State(Add(t1, t2), s.a, s.b, s.c, Add(s.d, t1), s.e, s.f, s.g)
  }

  /** The working variables after `t` rounds. */
  function Rounds(s: State, block: seq<byte>, t: nat): State
    requires |block| == BLOCK && t <= 64
  {
    if t == 0 then s else Round(Rounds(s, block, t - 1), KAt(t - 1), Schedule(block, t - 1))
  }

  /** The next hash value (step 4). */
  function Compress(s: State, block: seq<byte>): State
    requires |block| == BLOCK
  {
    var r := Rounds(s, block, 64);
    State(Add(s.a, r.a), Add(s.b, r.b), Add(s.c, r.c), Add(s.d, r.d), Add(s.e, r.e), Add(s.f, r.f), Add(s.g, r.g), Add(s.h, r.h))
  }

  /** The low `n` bytes of `v`, most significant first. */
  function Be(n: nat, v: nat): (r: seq<byte>)
    ensures |r| == n
  {
    if n == 0 then [] else Be(n - 1, v / 0x100) + [v % 0x100]
  }

  /** The zero bytes of the padding: the fewest that leave eight bytes in the last block. */
  function ZeroPad(length: nat): (k: nat)
    ensures k < 64 && (length + 1 + k) % 64 == 56
  {
    (119 - length % 64) % 64
  }

  /** The message padded (section 5.1.1). The standard defines it for bit counts that fit the 64 bits
      they are stored in. */
  function Padded(message: seq<byte>): (r: seq<byte>)
    ensures |r| % BLOCK == 0 && |message| < |r|
  {
    PaddedLength(|message|);
    message + [0x80] + Zeros(ZeroPad(|message|)) + Be(8, 8 * |message|)
  }

  lemma PaddedLength(n: nat)
    ensures (n + 1 + ZeroPad(n) + 8) % 64 == 0
  {
  }

  /** The hash value after `k` blocks (section 6.2). */
  function HashTo(s: seq<byte>, k: nat): State
    requires BLOCK * k <= |s|
  {
    if k == 0 then H0 else Compress(HashTo(s, k - 1), s[BLOCK * (k - 1)..BLOCK * k])
  }

  function Digest(s: State): seq<byte>
  {
    Be(4, s.a) + Be(4, s.b) + Be(4, s.c) + Be(4, s.d) + Be(4, s.e) + Be(4, s.f) + Be(4, s.g) + Be(4, s.h)
  }

  function Fips180(message: seq<byte>): (r: seq<byte>)
    ensures |r| == 32
  {
    Digest(HashTo(Padded(message), |Padded(message)| / BLOCK))
  }

  // ---- The implementation ----

  /** Shifting both ways and combining rotates. */
  function Ror(v: u32, n: nat): (r: u32)
    requires 0 < n < 32
  {
    RotationFits(n, v);
    Or32(v / Pow2(n), v * Pow2(32 - n) % 0x1_0000_0000)
  }

  lemma {:induction false} OrOfParts(m: nat, k: nat, low: nat, high: nat)
    requires low < Pow2(k) && high < Pow2(m)
    ensures Bitwise(Or, k + m, low, high * Pow2(k)) == low + high * Pow2(k)
  {
    hide Bitwise;
    if k == 0 {
      assert Pow2(0) == 1 && low == 0;
      OrZeroLeft(m, high);
    } else {
      OrOfParts(m, k - 1, low / 2, high);
      Unfold(Or, k + m, low, high * Pow2(k));
      HalvesOf(high, Pow2(k - 1));
    }
  }

  lemma HalvesOf(high: nat, p: nat)
    ensures high * (2 * p) == 2 * (high * p) && high * (2 * p) / 2 == high * p && high * (2 * p) % 2 == 0
  {
    var x := high * p;
    assert high * (2 * p) == 2 * x;
  }

  lemma {:induction false} OrZeroLeft(n: nat, x: nat)
    requires x < Pow2(n)
    ensures Bitwise(Or, n, 0, x) == x
  {
    if n > 0 { OrZeroLeft(n - 1, x / 2); }
  }

  lemma RorRotates(v: u32, n: nat)
    requires 0 < n < 32
    ensures Ror(v, n) == RotR(n, v)
  {
    hide Pow2, Bitwise;
    RotationFits(n, v);
    var p, q, low, high := Pow2(n), Pow2(32 - n), v % Pow2(n), v / Pow2(n);
    Pow2Add(n, 32 - n);
    Pow2Of32();
    ShiftedOut(v, p, q);
    OrOfParts(n, 32 - n, high, low);
  }

  /** Shifting left drops the high part. */
  lemma ShiftedOut(v: nat, p: nat, q: nat)
    requires p > 0 && q > 0 && p * q == 0x1_0000_0000
    ensures v * q % 0x1_0000_0000 == v % p * q
  {
    var high, low := v / p, v % p;
    assert v == high * p + low;
    Distributes(high * p, low, q);
    assert high * p * q == high * (p * q);
    MulMono(low + 1, p, q);
    Distributes(low, 1, q);
    MulMono(0, low, q);
    DivModUnique(v * q, 0x1_0000_0000, high, low * q);
  }

  function Combine(h: seq<u32>): State
    requires |h| == 8
  {
    State(h[0], h[1], h[2], h[3], h[4], h[5], h[6], h[7])
  }

  /** Modular sums in any order. */
  lemma AddReorders(a: u32, b: u32, c: u32, d: u32)
    ensures Add(Add(Add(a, b), c), d) == Add(Add(Add(d, c), b), a)
  {
    AddIsSum(a, b, c, d);
    AddIsSum(d, c, b, a);
  }

  lemma AddIsSum(a: u32, b: u32, c: u32, d: u32)
    ensures Add(Add(Add(a, b), c), d) == (a + b + c + d) % 0x1_0000_0000
  {
    AddTwice(a + b, c);
    AddTwice(a + b + c, d);
  }

  lemma AddTwice(x: int, y: int)
    ensures (x % 0x1_0000_0000 + y) % 0x1_0000_0000 == (x + y) % 0x1_0000_0000
  {
    ModShift(x % 0x1_0000_0000 + y, x / 0x1_0000_0000, 0x1_0000_0000);
  }

  lemma ScheduleAt(block: seq<byte>, t: nat)
    requires |block| == BLOCK && t < 64
    ensures t < 16 ==> Schedule(block, t) == BigWord(block, 4 * t)
    ensures t >= 16 ==>
              Schedule(block, t) == Add(Add(Add(SmallSigma1(Schedule(block, t - 2)), Schedule(block, t - 7)),
                                            SmallSigma0(Schedule(block, t - 15))), Schedule(block, t - 16))
  {
    hide SmallSigma0, SmallSigma1, Add, BigWord;
  }

  /** Fills the schedule of one block. */
  method Expand(block: seq<byte>) returns (w: array<u32>)
    requires |block| == BLOCK
    ensures fresh(w) && w.Length == 64 && forall t :: 0 <= t < 64 ==> w[t] == Schedule(block, t)
  {
    hide SmallSigma0, SmallSigma1, LowerSigma, Add, BigWord, Schedule;
    w := new u32[64](_ => 0);
    for i := 0 to 16
      invariant forall t :: 0 <= t < i ==> w[t] == Schedule(block, t)
    {
      ScheduleAt(block, i);
      w[i] := BigWord(block, 4 * i);
    }
    for i := 16 to 64
      invariant forall t :: 0 <= t < i ==> w[t] == Schedule(block, t)
    {
      var s0 := LowerSigma(w[i - 15], 7, 18, 0x8);
      var s1 := LowerSigma(w[i - 2], 17, 19, 0x400);
      SigmasAre(w[i - 15], w[i - 2]);
      AddReorders(w[i - 16], s0, w[i - 7], s1);
      ScheduleAt(block, i);
      w[i] := Add(Add(Add(w[i - 16], s0), w[i - 7]), s1);
    }
  }

  function LowerSigma(x: u32, r: nat, s: nat, shift: nat): u32
    requires 0 < r < 32 && 0 < s < 32 && shift > 1
  {
    Shifts(x, shift);
    Xor32(Xor32(Ror(x, r), Ror(x, s)), x / shift)
  }

  lemma Shifts(x: u32, shift: nat)
    requires shift > 1
    ensures 0 <= x / shift < 0x1_0000_0000
  {
  }

  lemma SigmasAre(x: u32, y: u32)
    ensures LowerSigma(x, 7, 18, 0x8) == SmallSigma0(x)
    ensures LowerSigma(y, 17, 19, 0x400) == SmallSigma1(y)
  {
    hide Ror, RotR, Combine32;
    RorRotates(x, 7);
    RorRotates(x, 18);
    RorRotates(y, 17);
    RorRotates(y, 19);
  }

  function UpperSigma(x: u32, r: nat, s: nat, t: nat): u32
    requires 0 < r < 32 && 0 < s < 32 && 0 < t < 32
  {
    Xor32(Xor32(Ror(x, r), Ror(x, s)), Ror(x, t))
  }

  lemma UpperSigmasAre(x: u32, y: u32)
    ensures UpperSigma(x, 2, 13, 22) == BigSigma0(x)
    ensures UpperSigma(y, 6, 11, 25) == BigSigma1(y)
  {
    hide Ror, RotR, Combine32;
    RorRotates(x, 2);
    RorRotates(x, 13);
    RorRotates(x, 22);
    RorRotates(y, 6);
    RorRotates(y, 11);
    RorRotates(y, 25);
  }

  /** One block into the hash value, in place. */
  method Transform(block: seq<byte>, h: array<u32>)
    requires |block| == BLOCK && h.Length == 8
    modifies h
    ensures Combine(h[..]) == Compress(Combine(old(h[..])), block)
  {
    hide UpperSigma, BigSigma0, BigSigma1, Ch, Maj, Add, KAt, Schedule;
    var w := Expand(block);
    var a, b, c, d, e, f, g, hh := h[0], h[1], h[2], h[3], h[4], h[5], h[6], h[7];
    ghost var start := State(a, b, c, d, e, f, g, hh);
    for i := 0 to 64
      invariant State(a, b, c, d, e, f, g, hh) == Rounds(start, block, i)
      invariant h[..] == old(h[..])
      invariant forall t :: 0 <= t < 64 ==> w[t] == Schedule(block, t)
    {
      UpperSigmasAre(a, e);
      var s1 := UpperSigma(e, 6, 11, 25);
      var ch := Ch(e, f, g);
      var t1 := Add(Add(Add(Add(hh, s1), ch), KAt(i)), w[i]);
      var s0 := UpperSigma(a, 2, 13, 22);
      var maj := Maj(a, b, c);
      var t2 := Add(s0, maj);
      hh, g, f, e, d, c, b, a := g, f, e, Add(d, t1), c, b, a, Add(t1, t2);
    }
    h[0], h[1], h[2], h[3] := Add(h[0], a), Add(h[1], b), Add(h[2], c), Add(h[3], d);
    h[4], h[5], h[6], h[7] := Add(h[4], e), Add(h[5], f), Add(h[6], g), Add(h[7], hh);
  }

  /** One more byte in front of those already stored. */
  lemma ByteBefore(was: seq<byte>, end: nat, low: seq<byte>, now: seq<byte>, b: byte)
    requires |low| < end <= |was| && now == was[..end - |low|] + low + was[end..]
    ensures now[end - 1 - |low| := b] == was[..end - 1 - |low|] + ([b] + low) + was[end..]
  {
  }

  /** Stores a number big-endian so that it ends at `end`, last byte first. */
  method StoreBe(buffer: array<byte>, end: nat, n: nat, value: nat)
    requires n <= end <= buffer.Length
    modifies buffer
    ensures buffer[..] == old(buffer[..end - n]) + Be(n, value) + old(buffer[end..])
  {
    var rest := value;
    ghost var was := buffer[..];
    assert Suffix(n, value, 0) == [] && Suffix(n, value, n) == Be(n, value);
    assert was == was[..end] + [] + was[end..];
    hide Be, Suffix;
    for i := 0 to n
      invariant |Suffix(n, value, i)| == i && buffer[..] == was[..end - i] + Suffix(n, value, i) + was[end..]
      invariant i < n ==> Be(n, value)[..n - i] == Be(n - i, rest)
    {
      SuffixStep(n, value, i, rest);
      ByteBefore(was, end, Suffix(n, value, i), buffer[..], rest % 0x100);
      buffer[end - 1 - i] := rest % 0x100;
      rest := rest / 0x100;
    }
  }

  /** The last `i` bytes of a big-endian number. */
  function Suffix(n: nat, value: nat, i: nat): seq<byte>
    requires i <= n
  {
    Be(n, value)[n - i..]
  }

  lemma SuffixStep(n: nat, value: nat, i: nat, rest: nat)
    requires i < n && Be(n, value)[..n - i] == Be(n - i, rest)
    ensures Suffix(n, value, i + 1) == [rest % 0x100] + Suffix(n, value, i)
    ensures i + 1 < n ==> Be(n, value)[..n - (i + 1)] == Be(n - (i + 1), rest / 0x100)
  {
    var s, p := Be(n, value), Be(n - i, rest);
    assert p[n - i - 1] == rest % 0x100 && p[..n - i - 1] == Be(n - i - 1, rest / 0x100);
    assert s[n - i - 1] == s[..n - i][n - i - 1];
    assert s[..n - i - 1] == s[..n - i][..n - i - 1];
  }

  /** Copies the last partial block and lays the padding behind it: one block, or two when the length
      does not fit beside it. */
  method PadTail(rest: seq<byte>, bitLength: u64) returns (tail: seq<byte>)
    requires |rest| < BLOCK
    ensures tail == rest + [0x80] + Zeros(ZeroPad(|rest|)) + Be(8, bitLength)
  {
    hide Be, Zeros, ZeroPad;
    var buffer := StoreFront(rest);
    var totalTail := if |rest| < 56 then 64 else 128;
    StoreBe(buffer, totalTail, 8, bitLength);
    TailIs(buffer[..], rest, bitLength, totalTail);
    tail := buffer[..totalTail];
  }

  /** A zeroed tail with the message's last bytes and the closing bit. */
  method StoreFront(rest: seq<byte>) returns (buffer: array<byte>)
    requires |rest| < BLOCK
    ensures fresh(buffer) && buffer[..] == rest + [0x80] + Zeros(127 - |rest|)
  {
    hide Zeros, Splice;
    buffer := new byte[128](_ => 0);
    AllZeros(buffer[..]);
    assert [] + Zeros(128) == Zeros(128) && [] + rest == rest;
    SpliceZeros([], 128, rest);
    CopyInto(buffer, 0, rest);
    SpliceZeros(rest, 128 - |rest|, [0x80]);
    CopyInto(buffer, |rest|, [0x80]);
  }

  lemma TailIs(s: seq<byte>, rest: seq<byte>, bitLength: u64, total: nat)
    requires |rest| < BLOCK && total == (if |rest| < 56 then 64 else 128)
    requires var was := rest + [0x80] + Zeros(127 - |rest|);
      s == was[..total - 8] + Be(8, bitLength) + was[total..]
    ensures |s| >= total && s[..total] == rest + [0x80] + Zeros(ZeroPad(|rest|)) + Be(8, bitLength)
  {
    hide Be;
    var was := rest + [0x80] + Zeros(127 - |rest|);
    assert was[..total - 8] == rest + [0x80] + Zeros(ZeroPad(|rest|));
  }

  /** The padded message is its whole blocks followed by the padded tail. */
  lemma PaddedSplits(p: seq<byte>, rest: seq<byte>)
    requires |p| % BLOCK == 0
    ensures Padded(p + rest) == p + (rest + [0x80] + Zeros(ZeroPad(|rest|)) + Be(8, 8 * (|p| + |rest|)))
  {
    hide Be, Zeros, ZeroPad, Padded;
    ZeroPadSame(|p| + |rest|, |p|);
    PaddedIs(p + rest);
    PrefixJoins(p, rest, [0x80], Zeros(ZeroPad(|rest|)), Be(8, 8 * (|p| + |rest|)));
  }

  lemma ZeroPadSame(n: nat, off: nat)
    requires off <= n && off % BLOCK == 0
    ensures ZeroPad(n - off) == ZeroPad(n)
  {
    assert n % 64 == (n - off) % 64;
  }

  lemma PaddedIs(data: seq<byte>)
    ensures Padded(data) == data + [0x80] + Zeros(ZeroPad(|data|)) + Be(8, 8 * |data|)
  {
  }

  lemma PrefixJoins(p: seq<byte>, a: seq<byte>, b: seq<byte>, c: seq<byte>, d: seq<byte>)
    ensures (p + a) + b + c + d == p + (a + b + c + d)
  {
  }

  /** Hashing depends only on the blocks it has reached. */
  lemma {:induction false} HashPrefix(a: seq<byte>, b: seq<byte>, k: nat)
    requires BLOCK * k <= |a|
    ensures HashTo(a + b, k) == HashTo(a, k)
  {
    hide Compress;
    if k > 0 {
      HashPrefix(a, b, k - 1);
      SliceLeft(a, b, BLOCK * (k - 1), BLOCK);
    }
  }

  lemma HashStep(s: seq<byte>, k: nat, block: seq<byte>)
    requires |block| == BLOCK && BLOCK * k + BLOCK <= |s| && s[BLOCK * k..BLOCK * k + BLOCK] == block
    ensures HashTo(s, k + 1) == Compress(HashTo(s, k), block)
  {
    hide Compress;
  }

  /** Big-endian words of the hash value, in order. */
  function WordsTo(h: seq<u32>, k: nat): (r: seq<byte>)
    requires k <= |h|
    ensures |r| == 4 * k
  {
    if k == 0 then [] else WordsTo(h, k - 1) + Be(4, h[k - 1])
  }

  lemma DigestIs(h: seq<u32>)
    requires |h| == 8
    ensures WordsTo(h, 8) == Digest(Combine(h))
  {
    hide Be, WordsTo;
    FirstWord(h);
    assert WordsTo(h, 1) == Be(4, h[0]);
    WordsStep(h, 1);
    WordsStep(h, 2);
    WordsStep(h, 3);
    WordsStep(h, 4);
    WordsStep(h, 5);
    WordsStep(h, 6);
    WordsStep(h, 7);
  }

  lemma FirstWord(h: seq<u32>)
    requires |h| > 0
    ensures WordsTo(h, 1) == Be(4, h[0])
  {
    assert WordsTo(h, 0) == [];
  }

  lemma WordsStep(h: seq<u32>, k: nat)
    requires k < |h|
    ensures WordsTo(h, k + 1) == WordsTo(h, k) + Be(4, h[k])
  {
  }

  method WriteDigest(h: seq<u32>) returns (out: seq<byte>)
    requires |h| == 8
    ensures out == Digest(Combine(h))
  {
    hide Be;
    var buffer := new byte[32](_ => 0);
    for i := 0 to 8
      invariant buffer[..4 * i] == WordsTo(h, i)
    {
      StoreBe(buffer, 4 * i + 4, 4, h[i]);
    }
    DigestIs(h);
    assert buffer[..32] == buffer[..];
    out := buffer[..];
  }

  /** The digest is the standard's. */
  method Sha256(data: seq<byte>) returns (digest: seq<byte>)
    ensures digest == Fips180(data)
  {
    hide Compress, HashTo, Be, Zeros, ZeroPad;
    var h := new u32[8][0x6a09e667, 0xbb67ae85, 0x3c6ef372, 0xa54ff53a, 0x510e527f, 0x9b05688c, 0x1f83d9ab, 0x5be0cd19];
    HashNone(data);
    var off := 0;
    while |data| - off >= BLOCK
      invariant 0 <= off <= |data| && off % BLOCK == 0
      invariant Combine(h[..]) == HashTo(data, off / BLOCK)
    {
      HashStep(data, off / BLOCK, data[off..off + BLOCK]);
      Transform(data[off..off + BLOCK], h);
      off := off + BLOCK;
    }
    HashTail(data, off, h);
    digest := WriteDigest(h[..]);
  }

  /** The padded tail, one block or two, into the hash value. */
  method HashTail(data: seq<byte>, off: nat, h: array<u32>)
    requires h.Length == 8 && off <= |data| < off + BLOCK && off % BLOCK == 0
    requires Combine(h[..]) == HashTo(data, off / BLOCK)
    modifies h
    ensures Combine(h[..]) == HashTo(Padded(data), |Padded(data)| / BLOCK)
  {
    hide Compress, HashTo, Be, Zeros, ZeroPad, Padded;
    var tail := PadTail(data[off..], |data| * 8 % 0x1_0000_0000_0000_0000);
    PaddedLength(|data| - off);
    ghost var whole := data[..off] + tail;
    HashWhole(data, off, tail);
    HashStep(whole, off / BLOCK, tail[..BLOCK]);
    Transform(tail[..BLOCK], h);
    if |tail| == 2 * BLOCK {
      HashStep(whole, off / BLOCK + 1, tail[BLOCK..2 * BLOCK]);
      Transform(tail[BLOCK..2 * BLOCK], h);
    }
    PaddedSplits(data[..off], data[off..]);
    assert data == data[..off] + data[off..];
    LengthWraps(8 * |data|);
  }

  /** A big-endian field keeps only its low bytes. */
  lemma {:induction false} BeKeepsLow(n: nat, v: nat)
    ensures Be(n, v % Pow256(n)) == Be(n, v)
  {
    if n > 0 {
      var p := Pow256(n - 1);
      ModOfMod(v, 0x100, p);
      QuotientOfRest(v, p);
      BeKeepsLow(n - 1, v / 0x100);
    }
  }

  lemma QuotientOfRest(v: nat, p: nat)
    requires p > 0
    ensures v % (0x100 * p) / 0x100 == v / 0x100 % p
  {
    var high, low := v / 0x100, v % 0x100;
    var q, r := high / p, high % p;
    assert high == q * p + r && (q * p) * 0x100 == q * (0x100 * p);
    DivModUnique(v, 0x100 * p, q, r * 0x100 + low);
  }

  lemma LengthWraps(bits: nat)
    ensures Be(8, bits % 0x1_0000_0000_0000_0000) == Be(8, bits)
  {
    Pow256Values();
    BeKeepsLow(8, bits);
  }

  lemma HashNone(s: seq<byte>)
    ensures HashTo(s, 0) == H0
  {
  }

  lemma HashWhole(data: seq<byte>, off: nat, tail: seq<byte>)
    requires off <= |data| && off % BLOCK == 0
    ensures BLOCK * (off / BLOCK) == off
    ensures HashTo(data[..off] + tail, off / BLOCK) == HashTo(data, off / BLOCK)
  {
    hide HashTo;
    HashPrefix(data[..off], data[off..], off / BLOCK);
    HashPrefix(data[..off], tail, off / BLOCK);
    assert data[..off] + data[off..] == data;
  }

  // ---- Comparing digests ----

  lemma OrIsZero(a: u32, b: u32)
    ensures Or32(a, b) == 0 <==> a == 0 && b == 0
  {
    Bits32(Or, a, b);
    forall i | 0 <= i < 32 ensures !Bit(0, i) { ZeroHasNoBits(i); }
    if Or32(a, b) == 0 {
      Equal32(a, 0);
      Equal32(b, 0);
    } else if a == 0 && b == 0 {
      Equal32(Or32(a, b), 0);
    }
  }

  /** Accumulates differences without branching on them. */
  method Sha256Equal(a: seq<byte>, b: seq<byte>) returns (equal: bool)
    requires |a| == 32 && |b| == 32
    ensures equal <==> a == b
  {
    hide Combine32;
    var diff: u32 := 0;
    for i := 0 to 32
      invariant diff == 0 <==> forall k :: 0 <= k < i ==> a[k] == b[k]
    {
      OrIsZero(diff, Xor32(a[i], b[i]));
      XorCancels(a[i], b[i]);
      diff := Or32(diff, Xor32(a[i], b[i]));
    }
    equal := diff == 0;
  }
}
