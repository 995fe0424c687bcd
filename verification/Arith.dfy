/** Divisibility facts stated on quotients, so that no proof has to search for them. */
module Arith {

  /** Adding a multiple of the modulus changes no remainder. */
  lemma ModShift(x: int, k: int, m: int)
    requires m > 0
    ensures (x + k * m) % m == x % m
    ensures (x + k * m) / m == x / m + k
  {
    var q, r := x / m, x % m;
    assert x + k * m == (q + k) * m + r by {
      assert (q + k) * m == q * m + k * m;
    }
    DivModUnique(x + k * m, m, q + k, r);
  }

  lemma DivModUnique(x: int, m: int, q: int, r: int)
    requires m > 0 && 0 <= r < m && x == q * m + r
    ensures x / m == q && x % m == r
  {
    var d := x / m - q;
    assert d >= 1 ==> d * m >= m;
    assert d <= -1 ==> d * m <= -m;
    assert x == (x / m) * m + x % m;
    assert d * m == (x / m) * m - q * m;
  }

  /** A remainder modulo a multiple of `m` has the same remainder modulo `m`. */
  lemma ModOfMod(x: int, m: int, k: int)
    requires m > 0 && k > 0 && k * m > 0
    ensures (x % (k * m)) % m == x % m
  {
    var big := k * m;
    var q := x / big;
    assert x == q * big + x % big;
    assert q * big == (q * k) * m;
    ModShift(x % big, q * k, m);
  }

  lemma ModSum(x: int, y: int, m: int)
    requires m > 0 && x % m == 0
    ensures (x + y) % m == y % m
    ensures (y - x) % m == y % m
  {
    var k := x / m;
    assert x == k * m;
    ModShift(y, k, m);
    ModShift(y, -k, m);
    assert y + (-k) * m == y - x;
  }

  lemma MulMono(a: int, b: int, m: nat)
    requires a <= b
    ensures a * m <= b * m
  {
    assert (b - a) * m >= 0;
    assert (b - a) * m == b * m - a * m;
  }

  /** The largest count of `m` that fits in `x` is the quotient. */
  lemma QuotientBound(x: nat, m: nat, c: nat)
    requires m > 0 && c * m <= x
    ensures c <= x / m
  {
    assert (x / m + 1) * m == x / m * m + m;
    assert x == x / m * m + x % m;
    if c > x / m {
      MulMono(x / m + 1, c, m);
    }
  }

  lemma Distributes(a: int, b: int, m: int)
    ensures (a + b) * m == a * m + b * m
  {
  }

  lemma MulCancels(a: int, b: int, m: nat)
    requires a * m < b * m
    ensures a < b
  {
    if a >= b { MulMono(b, a, m); }
  }
}
