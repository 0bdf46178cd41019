/** The primality test and parameter guards of the client (kosta/src/dh_checks.rs). */
module DhChecks {
  import opened Wrappers
  import opened Arithmetic
  import opened NumberTheory

  const ROUNDS := 20

  /** The odd factor of m. */
  function OddPart(m: nat): nat
    requires m > 0
  {
    if m % 2 == 1 then m else OddPart(m / 2)
  }

  /** How many times two divides m. */
  function TwoExponent(m: nat): nat
    requires m > 0
  {
    if m % 2 == 1 then 0 else TwoExponent(m / 2) + 1
  }

  /** m == d * 2^s with d odd: the decomposition the test is defined on. */
  lemma {:induction false} OddTimesPowerOfTwo(m: nat)
    requires m > 0
    ensures m == OddPart(m) * Pow(2, TwoExponent(m))
    ensures OddPart(m) % 2 == 1
    ensures m % 2 == 0 ==> TwoExponent(m) >= 1
  {
    if m % 2 == 0 {
      OddTimesPowerOfTwo(m / 2);
      MulSwap(OddPart(m), 2, Pow(2, TwoExponent(m / 2)));
    }
  }

  /** The base a round draws: any number read from the random bytes, folded into the range. */
  function Base(n: nat, draw: nat): nat
    requires n > 3
  {
    if n <= 4 then 2 else draw % (n - 3) + 2
  }

  lemma BaseInRange(n: nat, draw: nat)
    requires n > 3
    ensures 2 <= Base(n, draw) <= n - 2
  {
  }

  /** a raised to d * 2^i modulo n. */
  function Squared(n: nat, a: nat, i: nat): nat
    requires n > 1
  {
    Pow(a, OddPart(n - 1) * Pow(2, i)) % n
  }

  /** n is a strong probable prime to the base a (Appendix C.3.1 of FIPS 186-4). */
  ghost predicate StrongProbablePrime(n: nat, a: nat)
    requires n > 1
  {
    Squared(n, a, 0) == 1 || exists i :: 0 <= i < TwoExponent(n - 1) && Squared(n, a, i) == n - 1
  }

  ghost predicate PassesMillerRabin(n: nat, draws: seq<nat>)
    requires |draws| == ROUNDS
  {
    if n <= 1 then false
    else if n % 2 == 0 then n == 2
    else if n % 3 == 0 then n == 3
    else forall i :: 0 <= i < ROUNDS ==> StrongProbablePrime(n, Base(n, draws[i]))
  }

  /** Some choice of the random bases makes the test accept n. */
  ghost predicate ProbablePrime(n: nat) {
    exists draws: seq<nat> :: |draws| == ROUNDS && PassesMillerRabin(n, draws)
  }

  lemma SquaredStep(n: nat, a: nat, i: nat)
    requires n > 1
    ensures Squared(n, a, i + 1) == (Squared(n, a, i) * Squared(n, a, i)) % n
  {
    var e := OddPart(n - 1) * Pow(2, i);
    assert OddPart(n - 1) * Pow(2, i + 1) == 2 * e;
    PowSquare(a, e);
    ModMul(Pow(a, e), Pow(a, e), n);
  }

  /** Below a power that is one, a prime modulus leaves only one all the way down, or n - 1 on the way. */
  lemma {:induction false} DescendSquares(n: nat, a: nat, i: nat)
    requires IsPrime(n)
    requires i <= TwoExponent(n - 1) && Squared(n, a, i) == 1
    ensures StrongProbablePrime(n, a)
  {
    if i > 0 {
      SquaredStep(n, a, i - 1);
      SquareRootsOfOne(Squared(n, a, i - 1), n);
      if Squared(n, a, i - 1) == 1 {
        DescendSquares(n, a, i - 1);
      }
    }
  }

  lemma PrimeIsStrongProbablePrime(n: nat, a: nat)
    requires IsPrime(n) && 1 <= a < n
    ensures StrongProbablePrime(n, a)
  {
    ModSmall(a, n);
    FermatLittle(a, n);
    OddTimesPowerOfTwo(n - 1);
    DescendSquares(n, a, TwoExponent(n - 1));
  }

  /** The test never rejects a prime, whatever bases are drawn. */
  lemma PrimeAlwaysPasses(n: nat, draws: seq<nat>)
    requires IsPrime(n) && |draws| == ROUNDS
    ensures PassesMillerRabin(n, draws)
  {
    if n % 2 == 0 {
      assert n != 2 ==> Divides(2, n);
    } else if n % 3 == 0 {
      assert n != 3 ==> Divides(3, n);
    } else {
      forall i | 0 <= i < ROUNDS
        ensures StrongProbablePrime(n, Base(n, draws[i]))
      {
        BaseInRange(n, draws[i]);
        PrimeIsStrongProbablePrime(n, Base(n, draws[i]));
      }
    }
  }

  lemma PrimePassesIfPrime(n: nat, draws: seq<nat>)
    requires |draws| == ROUNDS
    ensures IsPrime(n) ==> PassesMillerRabin(n, draws)
  {
    if IsPrime(n) { PrimeAlwaysPasses(n, draws); }
  }

  // ---------- what a surviving base means ----------

  /** The decomposition is the only one. */
  lemma {:induction false} DecompositionUnique(d: nat, s: nat)
    requires d % 2 == 1
    ensures d * Pow(2, s) > 0 && OddPart(d * Pow(2, s)) == d && TwoExponent(d * Pow(2, s)) == s
  {
    if s == 0 {
      assert d * Pow(2, 0) == d;
    } else {
      DecompositionUnique(d, s - 1);
      assert d * Pow(2, s) == 2 * (d * Pow(2, s - 1)) by { MulSwap(d, 2, Pow(2, s - 1)); }
      Doubled(d * Pow(2, s - 1));
    }
  }

  lemma Doubled(m: nat)
    requires m > 0
    ensures OddPart(2 * m) == OddPart(m) && TwoExponent(2 * m) == TwoExponent(m) + 1
  {
    assert (2 * m) / 2 == m;
  }

  /** Once a square is one, all later squares are. */
  lemma {:induction false} OnesStay(n: nat, a: nat, i: nat, j: nat)
    requires n > 2 && i <= j && Squared(n, a, i) == 1
    ensures Squared(n, a, j) == 1
    decreases j - i
  {
    hide Squared;
    if i < j {
      SquaredStep(n, a, i);
      ModSmall(1, n);
      OnesStay(n, a, i + 1, j);
    }
  }

  lemma MinusOneSquared(n: nat)
    requires n > 2
    ensures ((n - 1) * (n - 1)) % n == 1
  {
    DivModUnique((n - 1) * (n - 1), n, n - 2, 1);
  }

  /** Between one square and the next no square root of one other than 1 and n - 1 is met. */
  ghost predicate OnlyTrivialRoots(n: nat, a: nat, s: nat)
    requires n > 1
  {
    forall i: nat :: i < s && Squared(n, a, i + 1) == 1 ==> Squared(n, a, i) == 1 || Squared(n, a, i) == n - 1
  }

  lemma {:induction false} TrivialRootsDescend(n: nat, a: nat, i: nat)
    requires n > 2 && i <= TwoExponent(n - 1) && OnlyTrivialRoots(n, a, TwoExponent(n - 1)) && Squared(n, a, i) == 1
    ensures StrongProbablePrime(n, a)
  {
    if i > 0 {
      assert Squared(n, a, i - 1 + 1) == 1;
      if Squared(n, a, i - 1) == 1 { TrivialRootsDescend(n, a, i - 1); }
    }
  }

  lemma SurvivorHasTrivialRoots(n: nat, a: nat)
    requires n > 2 && StrongProbablePrime(n, a)
    ensures Squared(n, a, TwoExponent(n - 1)) == 1 && OnlyTrivialRoots(n, a, TwoExponent(n - 1))
  {
    var s := TwoExponent(n - 1);
    hide Squared;
    if Squared(n, a, 0) == 1 {
      forall i: nat ensures Squared(n, a, i) == 1 { OnesStay(n, a, 0, i); }
    } else {
      var k :| 0 <= k < s && Squared(n, a, k) == n - 1;
      SquaredStep(n, a, k);
      MinusOneSquared(n);
      OnesStay(n, a, k + 1, s);
      forall i: nat | i < s && Squared(n, a, i + 1) == 1
        ensures Squared(n, a, i) == 1 || Squared(n, a, i) == n - 1
      {
        if i < k { OnesStay(n, a, i + 1, k); } else if i > k { OnesStay(n, a, k + 1, i); }
      }
    }
  }

  lemma SurvivesIffTrivialRoots(n: nat, a: nat)
    requires n > 2
    ensures StrongProbablePrime(n, a) <==>
      Squared(n, a, TwoExponent(n - 1)) == 1 && OnlyTrivialRoots(n, a, TwoExponent(n - 1))
  {
    hide Squared, OnlyTrivialRoots, StrongProbablePrime;
    if StrongProbablePrime(n, a) {
      SurvivorHasTrivialRoots(n, a);
    } else if Squared(n, a, TwoExponent(n - 1)) == 1 && OnlyTrivialRoots(n, a, TwoExponent(n - 1)) {
      TrivialRootsDescend(n, a, TwoExponent(n - 1));
    }
  }

  /** a raised to d * 2^i, modulo n. */
  function Raised(n: nat, a: nat, d: nat, i: nat): nat
    requires n > 0
  {
    Pow(a, d * Pow(2, i)) % n
  }

  /** The base a lets an odd n = d * 2^s + 1 pass if and only if a^(n-1) is 1 modulo n and none of the squares on
      the way there turns into one except from 1 or n - 1. */
  lemma SurvivesIff(n: nat, a: nat, d: nat, s: nat)
    requires n > 2 && d % 2 == 1 && n - 1 == d * Pow(2, s)
    ensures StrongProbablePrime(n, a) <==>
      && Pow(a, n - 1) % n == 1
      && forall i: nat :: i < s && Raised(n, a, d, i + 1) == 1 ==> Raised(n, a, d, i) == 1 || Raised(n, a, d, i) == n - 1
  {
    hide StrongProbablePrime, Pow;
    DecompositionUnique(d, s);
    SurvivesIffTrivialRoots(n, a);
    assert forall i: nat :: Raised(n, a, d, i) == Squared(n, a, i);
    hide Raised, Squared;
    assert Raised(n, a, d, s) == Pow(a, n - 1) % n by { LastRaised(n, a, d, s); }
  }

  lemma LastRaised(n: nat, a: nat, d: nat, s: nat)
    requires n > 2 && n - 1 == d * Pow(2, s)
    ensures Raised(n, a, d, s) == Pow(a, n - 1) % n
  {
  }

  // ---------- composites ----------

  lemma ProductDivisible(p: nat, a: nat, y: nat)
    requires p > 0 && Divides(p, a)
    ensures Divides(p, a * y)
  {
    var k := a / p;
    assert a == k * p;
    assert a * y == (k * y) * p by { assert (k * p) * y == (k * y) * p; }
    ModZeroMultiple(k * y, p);
  }

  lemma PowerKeepsDivisor(p: nat, a: nat, e: nat)
    requires p > 0 && Divides(p, a) && e > 0
    ensures Divides(p, Pow(a, e))
  {
    hide Divides;
    ProductDivisible(p, a, Pow(a, e - 1));
  }

  /** Reducing modulo a multiple of p does not change the remainder modulo p. */
  lemma ModDivisor(x: nat, n: nat, p: nat)
    requires p > 0 && n > 0 && Divides(p, n)
    ensures (x % n) % p == x % p
  {
    var k := n / p;
    assert n == k * p;
    assert x == x % n + (x / n) * n;
    assert (x / n) * n == ((x / n) * k) * p;
    ModShift(x % n, (x / n) * k, p);
  }

  lemma NeighboursIndivisible(n: nat, p: nat)
    requires 2 <= p < n && Divides(p, n)
    ensures !Divides(p, 1) && !Divides(p, n - 1)
  {
    ModSmall(1, p);
    var k := n / p;
    assert n == k * p;
    DivModUnique(n - 1, p, k - 1, p - 1);
  }

  /** A base that shares a divisor with an odd composite number exposes it. */
  lemma SharedDivisorExposes(n: nat, a: nat, p: nat)
    requires n > 2 && n % 2 == 1 && 2 <= p < n && Divides(p, n) && Divides(p, a)
    ensures !StrongProbablePrime(n, a)
  {
    hide Divides, Squared;
    forall i: nat ensures Squared(n, a, i) != 1 && Squared(n, a, i) != n - 1 {
      SquaredDivisible(n, a, p, i);
      NeighboursIndivisible(n, p);
    }
  }

  lemma SquaredDivisible(n: nat, a: nat, p: nat, i: nat)
    requires n > 2 && p > 0 && Divides(p, n) && Divides(p, a)
    ensures Divides(p, Squared(n, a, i))
  {
    OddTimesPowerOfTwo(n - 1);
    PowPositive(2, i);
    var e := OddPart(n - 1) * Pow(2, i);
    MulAtLeast(OddPart(n - 1), Pow(2, i));
    PowerKeepsDivisor(p, a, e);
    ModDivisor(Pow(a, e), n, p);
  }

  /** The base drawn in round i has a divisor in common with n. */
  ghost predicate SharesDivisor(n: nat, draw: nat) {
    n > 3 && exists p :: 2 <= p < n && Divides(p, n) && Divides(p, Base(n, draw))
  }

  lemma ExposedBy(n: nat, draws: seq<nat>, i: nat)
    requires |draws| == ROUNDS && i < ROUNDS && SharesDivisor(n, draws[i])
    ensures !PassesMillerRabin(n, draws)
  {
    if n % 2 == 1 && n % 3 != 0 {
      var p :| 2 <= p < n && Divides(p, n) && Divides(p, Base(n, draws[i]));
      SharedDivisorExposes(n, Base(n, draws[i]), p);
    }
  }

  lemma SharedDivisorFails(n: nat, draws: seq<nat>)
    requires |draws| == ROUNDS
    ensures (exists i :: 0 <= i < 20 && SharesDivisor(n, draws[i])) ==> !PassesMillerRabin(n, draws)
  {
    if i :| 0 <= i < 20 && SharesDivisor(n, draws[i]) { ExposedBy(n, draws, i); }
  }

  /** The draw that makes p the base. */
  lemma DrawOf(n: nat, p: nat)
    requires n > 4 && 2 <= p <= n - 2
    ensures Base(n, p - 2) == p
  {
    ModSmall(p - 2, n - 3);
  }

  /** A number passes with every choice of bases if and only if it is prime: each composite number is exposed by
      some of them. */
  lemma PassesAlwaysIffPrime(n: nat)
    ensures IsPrime(n) <==> forall draws: seq<nat> :: |draws| == ROUNDS ==> PassesMillerRabin(n, draws)
  {
    if IsPrime(n) {
      forall draws: seq<nat> | |draws| == ROUNDS ensures PassesMillerRabin(n, draws) { PrimeAlwaysPasses(n, draws); }
    } else if n > 4 {
      var p :| 2 <= p < n && Divides(p, n);
      NeighboursIndivisible(n, p);
      assert p != n - 1 by { DividesItself(n - 1); }
      DrawOf(n, p);
      DividesItself(p);
      var draws := seq(ROUNDS, _ => p - 2);
      assert SharesDivisor(n, draws[0]);
      ExposedBy(n, draws, 0);
    } else {
      assert !PassesMillerRabin(n, seq(ROUNDS, _ => 0)) by { FourAndBelow(n); }
    }
  }

  lemma DividesItself(d: nat)
    requires d > 0
    ensures Divides(d, d)
  {
  }

  lemma FourAndBelow(n: nat)
    requires n <= 4 && !IsPrime(n)
    ensures n == 0 || n == 1 || n == 4
  {
    assert IsPrime(2);
    if n == 3 { ThreeIsPrime(); }
  }

  lemma ThreeIsPrime()
    ensures IsPrime(3)
  {
    assert !Divides(2, 3);
  }

  /** For particular bases a composite number does pass: 25, when every draw is 5 and so every base 7. */
  lemma SomeCompositePasses()
    ensures !IsPrime(25) && PassesMillerRabin(25, seq(20, _ => 5))
  {
    assert Divides(5, 25);
    SevenSurvives();
    assert Base(25, 5) == 7;
    hide StrongProbablePrime;
  }

  lemma SevenSurvives()
    ensures StrongProbablePrime(25, 7)
  {
    SquaresOfSeven();
    Decomposition24();
    hide Squared, TwoExponent;
    assert 0 <= 1 < TwoExponent(24) && Squared(25, 7, 1) == 24;
  }

  lemma Decomposition24()
    ensures OddPart(24) == 3 && TwoExponent(24) == 3
  {
    assert OddPart(6) == OddPart(3) && TwoExponent(6) == TwoExponent(3) + 1;
    assert OddPart(12) == OddPart(6) && TwoExponent(12) == TwoExponent(6) + 1;
  }

  lemma SquaresOfSeven()
    ensures Squared(25, 7, 0) == 18 && Squared(25, 7, 1) == 24
  {
    Decomposition24();
    hide OddPart;
    assert Pow(7, 3) == 343 && Pow(2, 0) == 1;
    assert Squared(25, 7, 0) == 18;
    SquaredStep(25, 7, 0);
  }

  /** Miller-Rabin; draws[i] is the number read from the random bytes of round i. */
  method IsPrimeTest(n: nat, draws: seq<nat>) returns (r: bool)
    requires |draws| == ROUNDS
    ensures r == PassesMillerRabin(n, draws)
    ensures IsPrime(n) ==> r
    ensures (exists i :: 0 <= i < 20 && SharesDivisor(n, draws[i])) ==> !r
  {
    SharedDivisorFails(n, draws);
    hide StrongProbablePrime, IsPrime, SharesDivisor;
    PrimePassesIfPrime(n, draws);
    if n <= 1 { return false; }
    if n % 2 == 0 { return n == 2; }
    if n % 3 == 0 { return n == 3; }
    var d, s := n - 1, 0;
    while d % 2 == 0
      invariant d > 0
      invariant OddPart(d) == OddPart(n - 1) && s + TwoExponent(d) == TwoExponent(n - 1)
      decreases d
    {
      d, s := d / 2, s + 1;
    }
    OddTimesPowerOfTwo(n - 1);
    for round := 0 to ROUNDS
      invariant forall i :: 0 <= i < round ==> StrongProbablePrime(n, Base(n, draws[i]))
    {
      var a := if n <= 4 then 2 else draws[round] % (n - 3) + 2;
      var survives := Round(n, a, d, s);
      if !survives { return false; }
    }
    return true;
  }

  /** One round of the test: whether the base a fails to expose n. */
  method Round(n: nat, a: nat, d: nat, s: nat) returns (survives: bool)
    requires n > 2 && n % 2 == 1
    requires d == OddPart(n - 1) && s == TwoExponent(n - 1)
    ensures survives <==> StrongProbablePrime(n, a)
  {
    OddTimesPowerOfTwo(n - 1);
    assert d * Pow(2, 0) == d;
    var x := Pow(a, d) % n;
    if x == 1 || x == n - 1 {
      assert x == Squared(n, a, 0);
      return true;
    }
    for i := 0 to s - 1
      invariant x == Squared(n, a, i)
      invariant Squared(n, a, 0) != 1
      invariant forall j :: 0 <= j <= i ==> Squared(n, a, j) != n - 1
    {
      SquaredStep(n, a, i);
      x := (x * x) % n;
      if x == n - 1 {
        return true;
      }
    }
    return false;
  }

  // ---------- guards ----------

  datatype ParameterError = NotPrime | TooSmall | GeneratorOutOfRange | PublicValueOutOfRange

  /** The number of binary digits, as BigUint counts them. */
  function Bits(n: nat): nat {
    if n == 0 then 0 else Bits(n / 2) + 1
  }

  /** Which check a rejected group fails first. */
  ghost function GroupError(prime: nat, draws: seq<nat>): ParameterError
    requires |draws| == ROUNDS
  {
    if !PassesMillerRabin(prime, draws) then NotPrime
    else if prime < Pow(2, 2047) then TooSmall else GeneratorOutOfRange
  }

  method ValidateDhParams(dhPrime: nat, g: nat, draws: seq<nat>) returns (r: Result<(), ParameterError>)
    requires |draws| == ROUNDS
    ensures r.Ok? <==> PassesMillerRabin(dhPrime, draws) && Pow(2, 2047) <= dhPrime && 1 < g < dhPrime - 1
    ensures r.Err? ==> r.error == GroupError(dhPrime, draws)
    ensures r == Err(NotPrime) <==> !PassesMillerRabin(dhPrime, draws)
    ensures r == Err(TooSmall) <==> PassesMillerRabin(dhPrime, draws) && dhPrime < Pow(2, 2047)
    ensures r.Err? && IsPrime(dhPrime) ==> r.error != NotPrime
  {
    var prime := IsPrimeTest(dhPrime, draws);
    if !prime { return Err(NotPrime); }
    BitsBound(dhPrime, 2047);
    if Bits(dhPrime) < 2048 { return Err(TooSmall); }
    if g <= 1 || g >= dhPrime - 1 { return Err(GeneratorOutOfRange); }
    return Ok(());
  }

  /** A number has more than e binary digits exactly when it is at least 2^e. */
  lemma {:induction false} BitsBound(n: nat, e: nat)
    ensures Bits(n) > e <==> n >= Pow(2, e)
  {
    if e > 0 && n > 0 {
      BitsBound(n / 2, e - 1);
    } else if n == 0 {
      PowPositive(2, e);
    }
  }

  function ValidatePublicValue(public: nat, p: nat): (r: Result<(), ParameterError>)
  {
    if public <= 1 || public >= p - 1 then Err(PublicValueOutOfRange) else Ok(())
  }
}
