/** Primes, Euclid's lemma, Fermat's little theorem and the square roots of one. */
module NumberTheory {
  import opened Arithmetic

  ghost predicate IsPrime(n: int) {
    n >= 2 && forall d :: 2 <= d < n ==> !Divides(d, n)
  }

  lemma EuclidStep(p: nat, q: nat, x: nat, y: nat, r: nat)
    requires p > 0 && p == q * x + r
    requires Divides(p, x * y)
    ensures Divides(p, r * y)
  {
    var k := x * y / p;
    assert x * y == k * p;
    assert r * y == p * y - (q * x) * y == p * y - q * (x * y) == p * y - q * (k * p);
    assert q * (k * p) == (q * k) * p;
    assert r * y == (y - q * k) * p;
    ModZeroMultiple(y - q * k, p);
  }

  /** Euclid's lemma: a prime that divides x * y but not x divides y. */
  lemma {:induction false} EuclidLemma(p: nat, x: nat, y: nat)
    requires IsPrime(p) && !Divides(p, x)
    requires Divides(p, x * y)
    ensures Divides(p, y)
    decreases x
  {
    if x >= p {
      ModMulLeft(x, y, p);
      ModSmall(x % p, p);
      EuclidLemma(p, x % p, y);
    } else if x == 1 {
    } else {
      assert x != 0 && !Divides(x, p);
      var q, r := p / x, p % x;
      EuclidStep(p, q, x, y, r);
      ModSmall(r, p);
      EuclidLemma(p, r, y);
    }
  }

  // ---------- products over sets ----------

  ghost function SetProduct(s: set<nat>): nat {
    if s == {} then 1 else var x :| x in s; x * SetProduct(s - {x})
  }

  lemma {:induction false} SetProductRemove(s: set<nat>, x: nat)
    requires x in s
    ensures SetProduct(s) == x * SetProduct(s - {x})
  {
    var y :| y in s && SetProduct(s) == y * SetProduct(s - {y});
    if x != y {
      SetProductRemove(s - {y}, x);
      SetProductRemove(s - {x}, y);
      assert s - {y} - {x} == s - {x} - {y};
      MulSwap(x, y, SetProduct(s - {x} - {y}));
    }
  }

  lemma SetProductAdd(s: set<nat>, x: nat)
    requires x !in s
    ensures SetProduct(s + {x}) == x * SetProduct(s)
  {
    SetProductRemove(s + {x}, x);
    assert s + {x} - {x} == s;
  }

  function Factorial(n: nat): nat {
    if n == 0 then 1 else n * Factorial(n - 1)
  }

  /** The numbers from 1 to n. */
  function UpTo(n: nat): set<nat> {
    if n == 0 then {} else UpTo(n - 1) + {n}
  }

  lemma {:induction false} UpToProperties(n: nat)
    ensures |UpTo(n)| == n
    ensures forall i: nat :: i in UpTo(n) <==> 1 <= i <= n
    ensures SetProduct(UpTo(n)) == Factorial(n)
  {
    if n > 0 {
      UpToProperties(n - 1);
      SetProductAdd(UpTo(n - 1), n);
    }
  }

  lemma {:induction false} SubsetOfSameSize<T>(a: set<T>, b: set<T>)
    requires a <= b && |a| == |b|
    ensures a == b
  {
    if a != b {
      var x :| x in b && x !in a;
      SubsetCardinality(a, b - {x});
    }
  }

  lemma {:induction false} SubsetCardinality<T>(a: set<T>, b: set<T>)
    requires a <= b
    ensures |a| <= |b|
  {
    if a != {} {
      var x :| x in a;
      SubsetCardinality(a - {x}, b - {x});
    }
  }

  // ---------- Fermat's little theorem ----------

  /** The residues of a, 2a, ..., na. */
  function Multiples(a: nat, n: nat, p: nat): set<nat>
    requires p > 0
  {
    if n == 0 then {} else Multiples(a, n - 1, p) + {(a * n) % p}
  }

  lemma MultiplesDistinct(a: nat, i: nat, j: nat, p: nat)
    requires IsPrime(p) && !Divides(p, a)
    requires 1 <= i < j < p
    ensures (a * i) % p != (a * j) % p
  {
    if (a * i) % p == (a * j) % p {
      ModEqualIffDifference(a * j, a * i, p);
      assert a * j - a * i == a * (j - i);
      EuclidLemma(p, a, j - i);
      ModSmall(j - i, p);
    }
  }

  lemma {:induction false} MultiplesMember(a: nat, n: nat, p: nat, x: nat) returns (i: nat)
    requires p > 0 && x in Multiples(a, n, p)
    ensures 1 <= i <= n && x == (a * i) % p
  {
    if x == (a * n) % p {
      i := n;
    } else {
      i := MultiplesMember(a, n - 1, p, x);
    }
  }

  /** The next residue is not among the earlier ones. */
  lemma MultiplesFresh(a: nat, n: nat, p: nat)
    requires IsPrime(p) && !Divides(p, a) && 0 < n < p
    ensures (a * n) % p !in Multiples(a, n - 1, p)
  {
    hide Multiples;
    if (a * n) % p in Multiples(a, n - 1, p) {
      var i := MultiplesMember(a, n - 1, p, (a * n) % p);
      MultiplesDistinct(a, i, n, p);
    }
  }

  lemma MultipleInRange(a: nat, i: nat, p: nat)
    requires IsPrime(p) && !Divides(p, a) && 1 <= i < p
    ensures 1 <= (a * i) % p <= p - 1
  {
    if (a * i) % p == 0 {
      EuclidLemma(p, a, i);
      ModSmall(i, p);
    }
  }

  lemma MultiplesInRange(a: nat, n: nat, p: nat)
    requires IsPrime(p) && !Divides(p, a) && n < p
    ensures Multiples(a, n, p) <= UpTo(p - 1)
  {
    hide Multiples, Divides, UpTo, IsPrime;
    UpToProperties(p - 1);
    forall x | x in Multiples(a, n, p) ensures x in UpTo(p - 1) {
      var i := MultiplesMember(a, n, p, x);
      MultipleInRange(a, i, p);
    }
  }

  lemma {:induction false} MultiplesProperties(a: nat, n: nat, p: nat)
    requires IsPrime(p) && !Divides(p, a) && n < p
    ensures |Multiples(a, n, p)| == n
    ensures SetProduct(Multiples(a, n, p)) % p == (Pow(a, n) * Factorial(n)) % p
  {
    hide Divides, IsPrime, SetProduct;
    if n == 0 {
      EmptyProduct();
    } else {
      var before := Multiples(a, n - 1, p);
      MultiplesProperties(a, n - 1, p);
      MultiplesFresh(a, n, p);
      SetProductAdd(before, (a * n) % p);
      MultiplesStep(a, n, p, SetProduct(before));
    }
  }

  lemma EmptyProduct()
    ensures SetProduct({}) == 1
  {
  }

  lemma MultiplesStep(a: nat, n: nat, p: nat, s: nat)
    requires n > 0 && p > 0
    requires s % p == (Pow(a, n - 1) * Factorial(n - 1)) % p
    ensures ((a * n) % p * s) % p == (Pow(a, n) * Factorial(n)) % p
  {
    var u, f := Pow(a, n - 1), Factorial(n - 1);
    ModMulLeft(a * n, s, p);
    ModMul(a * n, s, p);
    ModMul(a * n, u * f, p);
    ProductRegroup(a, n, u, f);
  }

  lemma ProductRegroup(a: int, n: int, u: int, f: int)
    ensures (a * n) * (u * f) == (a * u) * (n * f)
  {
    MulSwap(n, a * u, f);
    assert (a * n) * (u * f) == n * (a * (u * f)) && a * (u * f) == (a * u) * f;
  }

  lemma {:induction false} PrimeNotDividesFactorial(p: nat, n: nat)
    requires IsPrime(p) && n < p
    ensures !Divides(p, Factorial(n))
  {
    if n == 0 {
      ModSmall(1, p);
    } else {
      PrimeNotDividesFactorial(p, n - 1);
      ModSmall(n, p);
      if Divides(p, Factorial(n)) {
        EuclidLemma(p, n, Factorial(n - 1));
      }
    }
  }

  lemma CancelFactor(p: nat, w: nat, f: nat)
    requires IsPrime(p) && !Divides(p, f) && w >= 1
    requires (w * f) % p == f % p
    ensures w % p == 1
  {
    ModEqualIffDifference(w * f, f, p);
    assert w * f - f == f * (w - 1);
    EuclidLemma(p, f, w - 1);
    ModEqualIffDifference(w, 1, p);
    ModSmall(1, p);
  }

  /** Fermat's little theorem. */
  lemma FermatLittle(a: nat, p: nat)
    requires IsPrime(p) && !Divides(p, a)
    ensures Pow(a, p - 1) % p == 1
  {
    assert p >= 2;
    if a == 0 { ModZeroMultiple(0, p); }
    MultiplesProperties(a, p - 1, p);
    MultiplesInRange(a, p - 1, p);
    PrimeNotDividesFactorial(p, p - 1);
    hide Divides, IsPrime, Multiples, SetProduct, UpTo, Pow, Factorial;
    UpToProperties(p - 1);
    SubsetOfSameSize(Multiples(a, p - 1, p), UpTo(p - 1));
    PowPositive(a, p - 1);
    CancelFactor(p, Pow(a, p - 1), Factorial(p - 1));
  }

  /** Modulo a prime, one has no square roots but 1 and p - 1. */
  lemma SquareRootsOfOne(x: nat, p: nat)
    requires IsPrime(p) && x < p
    requires (x * x) % p == 1
    ensures x == 1 || x == p - 1
  {
    ModEqualIffDifference(x * x, 1, p);
    ModSmall(1, p);
    if x == 0 {
      ModSmall(0, p);
    } else if x + 1 < p {
      assert x * x - 1 == (x + 1) * (x - 1);
      ModSmall(x + 1, p);
      EuclidLemma(p, x + 1, x - 1);
      ModSmall(x - 1, p);
    }
  }
}
