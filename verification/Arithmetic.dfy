/** Powers and modular arithmetic, from the ground up. */
module Arithmetic {

  function Pow(b: nat, e: nat): nat {
    if e == 0 then 1 else b * Pow(b, e - 1)
  }

  predicate Divides(d: int, n: int)
    requires d != 0
  {
    n % d == 0
  }

  lemma MulSwap(x: int, y: int, z: int)
    ensures y * (x * z) == x * (y * z)
  {
    assert y * (x * z) == (x * y) * z;
  }

  lemma MulAtLeast(z: int, n: int)
    requires z >= 1 && n >= 0
    ensures z * n >= n
  {
    assert z * n == n + (z - 1) * n;
  }

  lemma QuotientZero(z: int, n: int)
    requires n > 0
    requires -n < z * n < n
    ensures z == 0
  {
    if z >= 1 {
      MulAtLeast(z, n);
    } else if z <= -1 {
      MulAtLeast(-z, n);
    }
  }

  lemma DivModUnique(x: int, n: int, q: int, r: int)
    requires 0 <= r < n
    requires x == q * n + r
    ensures x / n == q && x % n == r
  {
    var z, d := q - x / n, x % n - r;
    assert x == x / n * n + x % n;
    assert z * n == q * n - x / n * n;
    assert z * n == d && -n < d < n;
    QuotientZero(z, n);
  }

  lemma ModShift(x: int, k: int, n: int)
    requires n > 0
    ensures (x + k * n) % n == x % n
  {
    assert x + k * n == (x / n + k) * n + x % n;
    DivModUnique(x + k * n, n, x / n + k, x % n);
  }

  lemma ModZeroMultiple(k: int, n: int)
    requires n > 0
    ensures (k * n) % n == 0
    ensures (n * k) % n == 0
  {
    ModShift(0, k, n);
    assert n * k == 0 + k * n;
  }

  lemma ModSmall(x: int, n: int)
    requires 0 <= x < n
    ensures x % n == x
  {
    DivModUnique(x, n, 0, x);
  }

  lemma ModMulLeft(a: int, b: int, n: int)
    requires n > 0
    ensures ((a % n) * b) % n == (a * b) % n
  {
    var q, r := a / n, a % n;
    assert a == q * n + r;
    assert a * b == r * b + (q * b) * n;
    ModShift(r * b, q * b, n);
  }

  lemma ModMul(a: int, b: int, n: int)
    requires n > 0
    ensures ((a % n) * (b % n)) % n == (a * b) % n
  {
    ModMulLeft(a, b % n, n);
    ModMulLeft(b, a, n);
    assert a * (b % n) == (b % n) * a;
    assert a * b == b * a;
  }

  /** Two numbers with the same residue differ by a multiple of the modulus, and back. */
  lemma ModEqualIffDifference(x: int, y: int, n: int)
    requires n > 0
    ensures x % n == y % n <==> (x - y) % n == 0
  {
    var k := x / n - y / n;
    if x % n == y % n {
      assert x - y == k * n;
      ModZeroMultiple(k, n);
    }
    if (x - y) % n == 0 {
      var m := (x - y) / n;
      assert x == y + m * n;
      ModShift(y, m, n);
    }
  }

  // ---------- powers ----------

  lemma {:induction false} PowAdd(b: nat, x: nat, y: nat)
    ensures Pow(b, x + y) == Pow(b, x) * Pow(b, y)
  {
    if x == 0 {
    } else {
      PowAdd(b, x - 1, y);
      assert b * (Pow(b, x - 1) * Pow(b, y)) == (b * Pow(b, x - 1)) * Pow(b, y);
    }
  }

  lemma {:induction false} PowMul(b: nat, x: nat, y: nat)
    ensures Pow(Pow(b, x), y) == Pow(b, x * y)
  {
    if y == 0 {
      assert x * y == 0;
    } else {
      PowMul(b, x, y - 1);
      assert x * y == x + x * (y - 1);
      PowAdd(b, x, x * (y - 1));
    }
  }

  lemma {:induction false} PowPositive(b: nat, e: nat)
    requires b > 0
    ensures Pow(b, e) > 0
  {
    if e > 0 { PowPositive(b, e - 1); }
  }

  /** Reducing the base first does not change a modular power. */
  lemma {:induction false} PowMod(b: nat, e: nat, n: nat)
    requires n > 0
    ensures Pow(b % n, e) % n == Pow(b, e) % n
  {
    if e > 0 {
      PowMod(b, e - 1, n);
      ModMul(b, Pow(b, e - 1), n);
      ModMul(b % n, Pow(b % n, e - 1), n);
      assert (b % n) % n == b % n by { ModSmall(b % n, n); }
    }
  }

  lemma PowSquare(b: nat, e: nat)
    ensures Pow(b, 2 * e) == Pow(b, e) * Pow(b, e)
  {
    PowAdd(b, e, e);
    assert 2 * e == e + e;
  }
}
