/** Quotients and remainders of natural numbers. */
module Arithmetic {

  lemma MultipleSize(k: int, m: int)
    requires m > 0
    ensures k >= 1 ==> k * m >= m
    ensures k <= -1 ==> k * m <= -m
  {
  }

  lemma DivMod(q: int, r: int, n: int)
    requires 0 <= r < n
    ensures (q * n + r) / n == q && (q * n + r) % n == r
  {
    var d := (q * n + r) / n - q;
    assert d * n == r - (q * n + r) % n;
    MultipleSize(d, n);
  }

  /** Quotients and then remainders order numbers. */
  lemma QuotientOrder(u: nat, v: nat, n: nat)
    requires n > 0 && u < v
    ensures u / n < v / n || (u / n == v / n && u % n < v % n)
  {
    var d := v / n - u / n;
    assert d * n == (v - v % n) - (u - u % n);
    MultipleSize(d, n);
  }

  lemma QuotientBound(v: nat, n: nat, p: nat)
    requires n > 0 && v < n * p
    ensures v / n < p
  {
    var d := v / n - p;
    assert d * n == v - v % n - n * p;
    MultipleSize(d, n);
  }

  /** A remainder modulo a multiple of t has the same remainder modulo t. */
  lemma RemainderOfRemainder(x: nat, m: nat, t: nat)
    requires m > 0 && t > 0 && m % t == 0
    ensures (x % m) % t == x % t
  {
    var y := x % m;
    var q := (x / m) * (m / t) + y / t;
    assert x == (x / m) * m + y && m == (m / t) * t && y == (y / t) * t + y % t;
    assert (x / m) * m == (x / m) * (m / t) * t by {
      assert (x / m) * ((m / t) * t) == (x / m) * (m / t) * t;
    }
    assert q * t == (x / m) * (m / t) * t + (y / t) * t;
    DivMod(q, y % t, t);
  }

  lemma SameRemainderPlus(a: nat, b: nat, d: nat, t: nat)
    requires t > 0 && a % t == b % t
    ensures (a + d) % t == (b + d) % t
  {
    var q, r := (b + d) / t, (b + d) % t;
    var k := a / t - b / t;
    assert a == b + k * t;
    assert a + d == (q + k) * t + r;
    DivMod(q + k, r, t);
  }

  lemma SmallRemainder(x: nat, t: nat)
    requires x < t
    ensures x % t == x
  {
  }
}
