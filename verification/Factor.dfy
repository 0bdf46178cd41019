/** Factoring of pq (kosta/src/factor.rs): trial division, the sieve, and the rho stage. */
module Factor {
  import opened Wrappers
  import opened Arithmetic
  import opened NumberTheory
  import opened Bytes
  import opened DhChecks

  const SMALL_LIMIT := 100000

  datatype FactorError = NotAboveOne | RhoFailed

  // ---------- divisors ----------

  lemma DivisorBound(d: nat, n: nat)
    requires d >= 1 && n >= 1 && Divides(d, n)
    ensures d * (n / d) == n && 1 <= n / d <= n && d <= n
  {
    assert n == d * (n / d);
    if n / d >= 1 {
      MulAtLeast(n / d, d);
      MulAtLeast(d, n / d);
    }
  }

  lemma MultipleDivides(k: nat, d: nat)
    requires d >= 1
    ensures Divides(d, k * d) && Divides(d, d * k) && (k * d) / d == k && (d * k) / d == k
  {
    DivModUnique(k * d, d, k, 0);
    assert d * k == k * d;
  }

  lemma DivisorOfDivisor(e: nat, d: nat, n: nat)
    requires e >= 1 && d >= 1 && Divides(e, d) && Divides(d, n)
    ensures Divides(e, n)
  {
    var j, k := d / e, n / d;
    assert d == j * e && n == k * d;
    assert n == (k * j) * e;
    ModZeroMultiple(k * j, e);
  }

  ghost predicate NoDivisorBelow(n: nat, bound: nat) {
    forall e :: 2 <= e < bound && e < n ==> !Divides(e, n)
  }

  /** A number with no divisor up to its square root is prime. */
  lemma NoSmallDivisorIsPrime(n: nat, root: nat)
    requires n >= 2 && (root + 1) * (root + 1) > n
    requires NoDivisorBelow(n, root + 1)
    ensures IsPrime(n)
  {
    forall d | 2 <= d < n
      ensures !Divides(d, n)
    {
      if Divides(d, n) {
        CofactorIsSmall(d, n, root);
      }
    }
  }

  lemma CofactorIsSmall(d: nat, n: nat, root: nat)
    requires 2 <= d < n && Divides(d, n)
    requires (root + 1) * (root + 1) > n && d > root
    ensures 2 <= n / d <= root && n / d < n && Divides(n / d, n)
  {
    DivisorBound(d, n);
    var q := n / d;
    MultipleDivides(d, q);
    if q > root {
      MulMonotone(root + 1, d, root + 1, q);
    }
    assert d * 1 == d;
    assert q < n by {
      assert d * q == 2 * q + (d - 2) * q;
    }
  }

  lemma MulMonotone(a: nat, b: nat, c: nat, d: nat)
    requires a <= b && c <= d
    ensures a * c <= b * d
  {
    assert b * d == a * c + a * (d - c) + (b - a) * d;
  }

  lemma LeastDivisorIsPrime(d: nat, n: nat)
    requires 2 <= d <= n && Divides(d, n) && NoDivisorBelow(n, d)
    ensures IsPrime(d)
  {
    forall e | 2 <= e < d
      ensures !Divides(e, d)
    {
      if Divides(e, d) { DivisorOfDivisor(e, d, n); }
    }
  }

  /** The only proper divisors of a product of two primes are the two primes. */
  lemma SemiprimeDivisors(p: nat, q: nat, d: nat)
    requires IsPrime(p) && IsPrime(q)
    requires 2 <= d < p * q && Divides(d, p * q)
    ensures d == p || d == q
  {
    var e := p * q / d;
    DivisorBound(d, p * q);
    MultipleDivides(q, p);
    if !Divides(p, d) {
      EuclidLemma(p, d, e);
      CofactorOfPrime(p, q, e, d);
    } else {
      CofactorOfPrime(p, q, d, e);
      if d / p == 1 {
        assert d == p * 1;
      }
    }
  }

  lemma PrimeDivisor(k: nat, q: nat)
    requires IsPrime(q) && 1 <= k <= q && Divides(k, q)
    ensures k == 1 || k == q
  {
  }

  lemma MulRegroup(x: nat, y: nat, z: nat)
    ensures (x * y) * z == x * (y * z)
  {
  }

  lemma FactorDivides(k: nat, y: nat, q: nat)
    requires k >= 1 && q >= 1 && k * y == q
    ensures Divides(k, q) && k <= q
  {
    MultipleDivides(y, k);
    assert k * y == y * k;
    DivisorBound(k, q);
  }

  /** If x * y is p * q and p divides x, then x / p is a divisor of q: one or q itself. */
  lemma CofactorOfPrime(p: nat, q: nat, x: nat, y: nat)
    requires IsPrime(p) && IsPrime(q)
    requires x >= 1 && y >= 1 && x * y == p * q && Divides(p, x)
    ensures x / p == 1 || x / p == q
    ensures x / p == 1 ==> y == q
    ensures x / p == q ==> y == 1
  {
    assert p >= 2 && q >= 2;
    hide IsPrime, Divides;
    DivisorBound(p, x);
    var k := x / p;
    MulRegroup(p, k, y);
    CancelLeft(p, k * y, q);
    FactorDivides(k, y, q);
    PrimeDivisor(k, q);
    if k == q { CancelLeft(q, y, 1); }
  }

  lemma CancelLeft(p: nat, a: nat, b: nat)
    requires p > 0 && p * a == p * b
    ensures a == b
  {
    assert p * (a - b) == 0;
  }

  predicate IsRoot(root: nat, n: nat) {
    root <= n && (root + 1) * (root + 1) > n
  }

  /** The floating-point square root cut to an integer: no more is assumed than that n is below
      the next square. */
  method TruncatedSqrt(n: nat) returns (root: nat)
    ensures IsRoot(root, n)
  {
    MulAtLeast(n + 1, n + 1);
    assert IsRoot(n, n);
    root :| IsRoot(root, n);
  }

  // ---------- trial division for 64-bit numbers ----------

  method FactorU64(n: nat) returns (r: Option<(nat, nat)>)
    requires n < TWO_64
    ensures r.None? <==> n <= 1 || IsPrime(n)
    ensures r.Some? ==> var (p, q) := r.value;
      p * q == n && IsPrime(p) && 2 <= p <= q && NoDivisorBelow(n, p)
  {
    hide IsPrime, NoDivisorBelow, Divides;
    if n <= 1 { return None; }
    FirstDivisors(n);
    if n % 2 == 0 {
      var p := 2;
      var q := n / 2;
      if q > 1 {
        DividesIs(2, n);
        FoundLeastDivisor(2, n);
        return Some((p, q));
      }
    }
    var limit := TruncatedSqrt(n);
    var d := 3;
    while d <= limit
      invariant d % 2 == 1 && d >= 3
      invariant NoDivisorBelow(n, d)
      invariant n > 2 ==> n % 2 == 1
    {
      DividesIs(d, n);
      if n % d == 0 {
        var p := d;
        var q := n / d;
        if q > 1 {
          FoundLeastDivisor(d, n);
          return Some((p, q));
        }
      }
      NextOddDivisor(n, d);
      d := d + 2;
    }
    NoDivisorUpTo(n, limit, d);
    NoSmallDivisorIsPrime(n, limit);
    return None;
  }

  lemma DividesIs(d: nat, n: nat)
    requires d > 0
    ensures Divides(d, n) <==> n % d == 0
  {
  }

  lemma FirstDivisors(n: nat)
    ensures NoDivisorBelow(n, 2) && (n == 2 || n % 2 == 1 ==> NoDivisorBelow(n, 3))
    ensures n % 2 == 0 && n / 2 <= 1 ==> n <= 2
  {
  }

  lemma NoDivisorUpTo(n: nat, limit: nat, d: nat)
    requires NoDivisorBelow(n, d) && limit < d
    ensures NoDivisorBelow(n, limit + 1)
  {
  }

  /** Two more candidates are ruled out: d divides n only if it is n, and an odd n has no even divisor. */
  lemma NextOddDivisor(n: nat, d: nat)
    requires n >= 2 && (n > 2 ==> n % 2 == 1) && d >= 3 && d % 2 == 1
    requires NoDivisorBelow(n, d) && (Divides(d, n) ==> n / d <= 1)
    ensures NoDivisorBelow(n, d + 2)
  {
    if n > 2 { OddSkipsEven(d + 1, n); }
    if Divides(d, n) { DivisorBound(d, n); }
  }

  lemma OddSkipsEven(e: nat, n: nat)
    requires n % 2 == 1 && e > 0 && e % 2 == 0
    ensures !Divides(e, n)
  {
    if Divides(e, n) {
      assert Divides(2, e);
      DivisorOfDivisor(2, e, n);
    }
  }

  lemma FoundLeastDivisor(d: nat, n: nat)
    requires 2 <= d && n >= 1 && Divides(d, n) && n / d > 1 && NoDivisorBelow(n, d)
    ensures d * (n / d) == n && d < n && IsPrime(d) && d <= n / d && !IsPrime(n)
  {
    DivisorBound(d, n);
    var q := n / d;
    assert d * q == 2 * q + (d - 2) * q;
    assert d * q == 2 * d + (q - 2) * d;
    MultipleDivides(d, q);
    LeastDivisorIsPrime(d, n);
  }

  // ---------- the sieve of Eratosthenes ----------

  ghost predicate StrictlyAscending(s: seq<nat>) {
    forall i, j :: 0 <= i < j < |s| ==> s[i] < s[j]
  }

  lemma CofactorBelow(i: nat, x: nat)
    requires 2 <= i < x < i * i && Divides(i, x)
    ensures 2 <= x / i < i && x / i < x && Divides(x / i, x)
  {
    DivisorBound(i, x);
    var k := x / i;
    MultipleDivides(i, k);
    assert i * 1 == i;
    if k >= i { MulMonotone(i, i, i, k); }
  }

  /** Crossing out multiples of i from i * i on is enough: smaller ones are crossed out already. */
  lemma MultipleBelowSquare(i: nat, x: nat)
    requires 2 <= i < x < i * i && NoDivisorBelow(x, i)
    ensures !Divides(i, x)
  {
    if Divides(i, x) { CofactorBelow(i, x); }
  }

  /** The state of the table once every i below `done` has been handled. */
  ghost predicate Sieved(table: seq<bool>, done: nat) {
    forall x :: 2 <= x < |table| ==> (table[x] <==> NoDivisorBelow(x, done))
  }

  /** Crossing out the multiples of i from i * i to below j. */
  ghost predicate CrossedOut(table: seq<bool>, before: seq<bool>, i: nat, j: nat)
    requires i >= 2
  {
    |table| == |before| &&
    forall x :: 0 <= x < |table| ==> (table[x] <==> before[x] && !(i * i <= x < j && Divides(i, x)))
  }

  lemma SieveStep(table: seq<bool>, before: seq<bool>, i: nat, j: nat)
    requires 2 <= i < |before| && before[i]
    requires Sieved(before, i) && CrossedOut(table, before, i, j) && j >= |table|
    ensures Sieved(table, i + 1)
  {
    hide Divides;
    forall x | 2 <= x < |table|
      ensures table[x] <==> NoDivisorBelow(x, i + 1)
    {
      if i < x {
        if NoDivisorBelow(x, i) && x < i * i { MultipleBelowSquare(i, x); }
        assert NoDivisorBelow(x, i + 1) <==> NoDivisorBelow(x, i) && !Divides(i, x);
      } else {
        BelowSquare(i, x);
        assert NoDivisorBelow(x, i + 1) <==> NoDivisorBelow(x, i);
      }
    }
  }

  lemma BelowSquare(i: nat, x: nat)
    requires 2 <= i && x <= i
    ensures x < i * i
  {
    MulAtLeast(i, i);
    assert i * i == 2 * i + (i - 2) * i;
  }

  /** A composite i adds nothing: its multiples have a smaller divisor. */
  lemma SieveSkip(table: seq<bool>, i: nat)
    requires 2 <= i < |table| && !table[i] && Sieved(table, i)
    ensures Sieved(table, i + 1)
  {
    var e :| 2 <= e < i && Divides(e, i);
    forall x | 2 <= x < |table|
      ensures NoDivisorBelow(x, i + 1) <==> NoDivisorBelow(x, i)
    {
      if i < x && Divides(i, x) {
        DivisorOfDivisor(e, i, x);
        assert !NoDivisorBelow(x, i);
      }
    }
  }

  lemma SieveDone(table: seq<bool>, root: nat)
    requires |table| >= 1 && (root + 1) * (root + 1) > |table| - 1
    requires Sieved(table, root + 1)
    ensures forall x: nat :: 2 <= x < |table| ==> (table[x] <==> IsPrime(x))
  {
    forall x: nat | 2 <= x < |table|
      ensures table[x] <==> IsPrime(x)
    {
      if table[x] { NoSmallDivisorIsPrime(x, root); }
    }
  }

  method CrossOut(sieve: array<bool>, i: nat)
    requires 2 <= i < sieve.Length && sieve[i] && Sieved(sieve[..], i)
    modifies sieve
    ensures Sieved(sieve[..], i + 1)
    ensures sieve[0] == old(sieve[0]) && sieve[1] == old(sieve[1])
  {
    ghost var before := sieve[..];
    MulAtLeast(i, i);
    assert i * i >= 4 by { MulMonotone(2, i, 2, i); }
    var j := i * i;
    ghost var k := i;
    while j < sieve.Length
      invariant j == k * i && j >= i * i
      invariant CrossedOut(sieve[..], before, i, j)
    {
      MultipleDivides(k, i);
      NextMultiple(i, k);
      ghost var prev := sieve[..];
      sieve[j] := false;
      assert sieve[..] == prev[j := false];
      j := j + i;
      k := k + 1;
    }
    SieveStep(sieve[..], before, i, j);
    assert !(i * i <= 0) && !(i * i <= 1);
    assert sieve[..][0] == before[0] && sieve[..][1] == before[1];
  }

  lemma NextMultiple(i: nat, k: nat)
    requires i >= 2
    ensures (k + 1) * i == k * i + i
    ensures forall x :: k * i < x < k * i + i ==> !Divides(i, x)
  {
    forall x | k * i < x < k * i + i ensures !Divides(i, x) {
      DivModUnique(x, i, k, x - k * i);
    }
  }

  /** The table after all crossing out. */
  method Sieve(limit: nat) returns (sieve: array<bool>)
    ensures fresh(sieve) && sieve.Length == limit + 1
    ensures limit >= 2 ==> forall x: nat :: x <= limit ==> (sieve[x] <==> IsPrime(x))
    ensures limit < 2 ==> forall x: nat :: x <= limit ==> (sieve[x] <==> x == limit)
  {
    sieve := new bool[limit + 1](_ => true);
    if limit > 0 { sieve[0] := false; }
    if limit > 1 { sieve[1] := false; }
    var sqrtLimit := TruncatedSqrt(limit);
    var i := 2;
    while i <= sqrtLimit
      invariant 2 <= i && (i <= sqrtLimit + 1 || i == 2)
      invariant Sieved(sieve[..], i)
      invariant limit < 2 ==> forall x: nat :: x <= limit ==> (sieve[x] <==> x == limit)
      invariant limit >= 2 ==> !sieve[0] && !sieve[1]
    {
      if sieve[i] {
        CrossOut(sieve, i);
      } else {
        SieveSkip(sieve[..], i);
      }
      i := i + 1;
    }
    if limit >= 2 {
      SievedFurther(sieve[..], i, sqrtLimit);
      SieveDone(sieve[..], sqrtLimit);
      assert sieve[..][0] == sieve[0] && sieve[..][1] == sieve[1];
      assert forall x: nat :: 2 <= x <= limit ==> sieve[..][x] == sieve[x];
    }
  }

  lemma SievedFurther(table: seq<bool>, i: nat, root: nat)
    requires Sieved(table, i) && i >= 2 && (i == root + 1 || (i == 2 && root < 2))
    ensures Sieved(table, root + 1)
  {
  }

  /** All primes up to the limit, ascending; below two the table's leftovers come out instead. */
  method PrimesUpTo(limit: nat) returns (r: seq<nat>)
    ensures StrictlyAscending(r)
    ensures limit >= 2 ==> forall x: nat :: x in r <==> x <= limit && IsPrime(x)
    ensures limit < 2 ==> r == [limit]
  {
    var sieve := Sieve(limit);
    r := [];
    for x := 0 to limit + 1
      invariant StrictlyAscending(r)
      invariant forall y: nat :: y in r <==> y < x && sieve[y]
      invariant limit < 2 ==> r == if x == limit + 1 then [limit] else []
    {
      assert forall j :: 0 <= j < |r| ==> r[j] in r;
      if sieve[x] { r := r + [x]; }
    }
  }

  // ---------- the rho stage ----------

  function Gcd(a: nat, b: nat): nat
    decreases b
  {
    if b == 0 then a else Gcd(b, a % b)
  }

  lemma DividesRest(d: nat, a: nat, b: nat)
    requires d > 0 && b > 0 && Divides(d, b)
    ensures Divides(d, a) <==> Divides(d, a % b)
  {
    var k := b / d;
    assert b == d * k && a == a % b + (a / b) * b;
    assert (a / b) * b == ((a / b) * k) * d by { assert (a / b) * (d * k) == ((a / b) * k) * d; }
    ModShift(a % b, (a / b) * k, d);
  }

  /** The greatest common divisor: its divisors are exactly the common ones. */
  lemma {:induction false} GcdIs(a: nat, b: nat, d: nat)
    requires d > 0
    ensures Divides(d, Gcd(a, b)) <==> Divides(d, a) && Divides(d, b)
    decreases b
  {
    hide Divides;
    if b == 0 {
      DividesZero(d);
    } else {
      GcdIs(b, a % b, d);
      if Divides(d, b) { DividesRest(d, a, b); }
    }
  }

  lemma DividesZero(d: nat)
    requires d > 0
    ensures Divides(d, 0)
  {
  }

  lemma GcdOfOne(x: nat)
    ensures Gcd(1, x) == 1
  {
    if x > 1 {
      ModSmall(1, x);
      assert Gcd(x, 1) == Gcd(1, x % 1);
    }
  }

  /** One attempt. d starts at one and is only ever replaced by a divisor of itself. */
  method RhoAttempt(n: nat, c: nat, x0: nat) returns (d: nat)
    requires n > 1
    ensures d == 1
  {
    var x, y := x0, x0;
    d := 1;
    var power, iteration := 1, 0;
    while iteration < 200_000 && d == 1
      invariant d == 1
      decreases 200_000 - iteration
    {
      if iteration == power {
        y := x;
        power := power * 2;
      }
      x := (x * x + c) % n;
      var diff := if x > y then x - y else y - x;
      GcdOfOne(diff);
      d := Gcd(d, diff);
      iteration := iteration + 1;
    }
  }

  // ---------- factor_pq ----------

  method RandomDraws() returns (draws: seq<nat>)
    ensures |draws| == ROUNDS
  {
    var some := seq(ROUNDS, i => 0);
    draws :| |draws| == |some|;
  }

  /** The two numbers a factorisation reports, smaller first, as big-endian bytes. */
  function Report(p: nat, q: nat): (bytes, bytes) {
    if p < q then (ToBytesBe(p), ToBytesBe(q)) else (ToBytesBe(q), ToBytesBe(p))
  }

  /** What every accepted factorisation satisfies. */
  ghost predicate Factorisation(n: nat, small: nat, big: nat) {
    small * big == n && 1 < small <= big && ProbablePrime(small) && ProbablePrime(big)
    && (n < TWO_64 || small <= SMALL_LIMIT)
  }

  ghost predicate Semiprime(n: nat, p: nat, q: nat) {
    IsPrime(p) && IsPrime(q) && p <= q && p * q == n
  }

  /** Both factors prime, and one division away: what the first two stages can reach. */
  ghost predicate Reachable(n: nat, p: nat, q: nat) {
    Semiprime(n, p, q) && (n < TWO_64 || p <= SMALL_LIMIT)
  }

  lemma SemiprimeFacts(n: nat, p: nat, q: nat)
    requires Semiprime(n, p, q)
    ensures n >= 4 && p < n && Divides(p, n) && !IsPrime(n)
  {
    MulMonotone(2, p, 2, q);
    MultipleDivides(q, p);
    assert p * q == p + p * (q - 1) && p * (q - 1) > 0;
    assert 2 <= p < n;
  }

  lemma PrimesAreNotReachable(n: nat)
    ensures n <= 1 || IsPrime(n) ==> forall p, q :: !Reachable(n, p, q)
  {
    forall p, q | Reachable(n, p, q)
      ensures n > 1 && !IsPrime(n)
    {
      SemiprimeFacts(n, p, q);
    }
  }

  /** A split with a prime first factor is the split of a semiprime, up to order. */
  lemma SplitOfSemiprime(n: nat, p: nat, q: nat, p': nat, q': nat)
    requires Semiprime(n, p', q')
    requires p * q == n && 2 <= p < n
    ensures (p == p' && q == q') || (p == q' && q == p')
  {
    MultipleDivides(q, p);
    SemiprimeDivisors(p', q', p);
    if p == p' {
      CancelLeft(p, q, q');
    } else {
      assert q' * p' == q' * q;
      CancelLeft(p, q, p');
    }
  }

  lemma LeastSplitOfSemiprime(n: nat, p: nat, q: nat)
    requires p * q == n && 2 <= p <= q
    ensures forall p', q' :: Reachable(n, p', q') ==> p == p' && q == q'
  {
    forall p', q' | Reachable(n, p', q')
      ensures p == p' && q == q'
    {
      assert p * q == p + p * (q - 1) && p * (q - 1) > 0;
      SplitOfSemiprime(n, p, q, p', q');
    }
  }

  /** Whatever is accepted for a semiprime is its own factorisation, so it was within reach. */
  lemma AcceptedMeansReachable(n: nat, small: nat, big: nat)
    requires Factorisation(n, small, big)
    ensures forall p, q :: Semiprime(n, p, q) ==> Reachable(n, p, q) && small == p && big == q
  {
    forall p, q | Semiprime(n, p, q)
      ensures Reachable(n, p, q) && small == p && big == q
    {
      assert small * big == small + small * (big - 1) && small * (big - 1) > 0;
      SplitOfSemiprime(n, small, big, p, q);
    }
  }

  lemma InPrefix(s: seq<nat>, i: nat, j: nat)
    requires j < i <= |s|
    ensures s[j] in s[..i]
  {
    assert s[..i][j] == s[j];
  }

  /** The first small prime that divides a semiprime is its smaller factor. */
  lemma FirstSmallPrime(n: nat, primes: seq<nat>, i: nat)
    requires StrictlyAscending(primes) && i < |primes| && primes[i] >= 1 && Divides(primes[i], n)
    requires forall x: nat :: x in primes <==> x <= SMALL_LIMIT && IsPrime(x)
    requires forall p, q :: Reachable(n, p, q) ==> n >= TWO_64 && p !in primes[..i]
    ensures forall p, q :: Reachable(n, p, q) ==> p == primes[i] && q == n / primes[i]
  {
    var d := primes[i];
    forall p, q | Reachable(n, p, q)
      ensures p == d && q == n / d
    {
      SemiprimeFacts(n, p, q);
      DivisorBound(d, n);
      assert d in primes;
      SplitOfSemiprime(n, d, n / d, p, q);
      assert p in primes;
      var j :| 0 <= j < |primes| && primes[j] == p;
      if j < i { InPrefix(primes, i, j); }
    }
  }

  lemma ReportRoundTrip(p: nat, q: nat)
    ensures FromBytesBe(Report(p, q).0) == (if p < q then p else q)
    ensures FromBytesBe(Report(p, q).1) == (if p < q then q else p)
    ensures p == q ==> Report(p, q) == (ToBytesBe(p), ToBytesBe(q))
  {
    BigEndianRoundTrip(p);
    BigEndianRoundTrip(q);
  }

  method FactorPq(n: nat) returns (r: Result<(bytes, bytes), FactorError>)
    ensures forall p, q :: Reachable(n, p, q) ==> r == Ok((ToBytesBe(p), ToBytesBe(q)))
    ensures r.Ok? ==> Factorisation(n, FromBytesBe(r.value.0), FromBytesBe(r.value.1))
    ensures forall p, q :: Semiprime(n, p, q) ==> (r.Ok? <==> Reachable(n, p, q))
    ensures n <= 1 <==> r == Err(NotAboveOne)
  {
    PrimesAreNotReachable(n);
    if n <= 1 { return Err(NotAboveOne); }
    if n < TWO_64 {
      var found := FactorU64(n);
      if found.Some? {
        var (p, q) := found.value;
        LeastSplitOfSemiprime(n, p, q);
        var accepted := BothPrime(p, q);
        if accepted {
          ReportRoundTrip(p, q);
          AcceptedMeansReachable(n, p, q);
          return Ok(Report(p, q));
        }
      }
    }
    var divided := DivideBySmallPrimes(n);
    if divided.Some? {
      AcceptedMeansReachable(n, FromBytesBe(divided.value.0), FromBytesBe(divided.value.1));
      return Ok(divided.value);
    }
    for attempt := 0 to 500 {
      var c, x0 := RandomSeeds();
      var d := RhoAttempt(n, c, x0);
      // d is one, so the branch that would divide n by d is never entered
      assert !(d != 1 && d != n);
    }
    return Err(RhoFailed);
  }

  /** Trial division by every prime up to 100000. */
  method DivideBySmallPrimes(n: nat) returns (r: Option<(bytes, bytes)>)
    requires n > 1
    requires forall p, q :: Reachable(n, p, q) ==> n >= TWO_64
    ensures forall p, q :: Reachable(n, p, q) ==> r == Some((ToBytesBe(p), ToBytesBe(q)))
    ensures r.Some? ==> Factorisation(n, FromBytesBe(r.value.0), FromBytesBe(r.value.1))
  {
    var smallPrimes := PrimesUpTo(SMALL_LIMIT);
    for i := 0 to |smallPrimes|
      invariant forall p, q :: Reachable(n, p, q) ==> n >= TWO_64 && p !in smallPrimes[..i]
    {
      var prime := smallPrimes[i];
      assert prime in smallPrimes;
      assert smallPrimes[..i + 1] == smallPrimes[..i] + [prime];
      if n % prime == 0 {
        var q := n / prime;
        DivisorBound(prime, n);
        FirstSmallPrime(n, smallPrimes, i);
        if prime > 1 && q > 1 {
          var accepted := BothPrime(prime, q);
          if accepted {
            SmallFactorisation(n, prime, q);
            return Some(Report(prime, q));
          }
        }
      } else {
        NotAFactor(n, prime);
      }
    }
    assert smallPrimes[..|smallPrimes|] == smallPrimes;
    return None;
  }

  lemma NotAFactor(n: nat, d: nat)
    requires d >= 1 && !Divides(d, n)
    ensures forall p, q :: Reachable(n, p, q) ==> p != d
  {
    forall p, q | Reachable(n, p, q) ensures p != d {
      SemiprimeFacts(n, p, q);
    }
  }

  lemma SmallFactorisation(n: nat, p: nat, q: nat)
    requires p * q == n && 1 < p <= SMALL_LIMIT && 1 < q && ProbablePrime(p) && ProbablePrime(q)
    ensures Factorisation(n, FromBytesBe(Report(p, q).0), FromBytesBe(Report(p, q).1))
    ensures p <= q ==> Report(p, q) == (ToBytesBe(p), ToBytesBe(q))
  {
    ReportRoundTrip(p, q);
    assert p * q == q * p;
  }

  method RandomSeeds() returns (c: nat, x0: nat)
    ensures 1 <= c < 1000 && 2 <= x0 < 100
  {
    assert 1 <= 1 < 1000 && 2 <= 2 < 100;
    c :| 1 <= c < 1000;
    x0 :| 2 <= x0 < 100;
  }

  method BothPrime(p: nat, q: nat) returns (accepted: bool)
    ensures IsPrime(p) && IsPrime(q) ==> accepted
    ensures accepted ==> ProbablePrime(p) && ProbablePrime(q)
  {
    var draws := RandomDraws();
    var first := IsPrimeTest(p, draws);
    if !first { return false; }
    var more := RandomDraws();
    accepted := IsPrimeTest(q, more);
  }
}
