/**
 * The integer helpers at the top of `barlicity.py`: Euclid's gcd and the lcm
 * built on it, the trial-division primality test, the prime factorisation by
 * trial division, and the n-th prime with its cache of the primes found so far.
 */
module BarlicityNumbers {
  import opened Wrappers
  import MathUtil
  import Barlicity

  /* ---------------------------------------------------------------- gcd, lcm */

  /** Euclid's algorithm with Python's `%`, as `_gcd` runs it on any integers. */
  function EuclidGcd(a: int, b: int): int
    decreases MathUtil.Abs(b)
  {
    if b == 0 then a
    else
      MathUtil.FloorDivModIdentity(a, b);
      EuclidGcd(b, MathUtil.PyMod(a, b))
  }

  /** `_gcd`: swap in the remainder until it is 0. */
  method Gcd(a0: int, b0: int) returns (a: int)
    ensures a == EuclidGcd(a0, b0)
  {
    a := a0;
    var b := b0;
    while b != 0
      invariant EuclidGcd(a, b) == EuclidGcd(a0, b0)
      decreases MathUtil.Abs(b)
    {
      MathUtil.FloorDivModIdentity(a, b);
      a, b := b, MathUtil.PyMod(a, b);
    }
  }

  /** A common divisor of `x` and `y` divides `x + y * q`. */
  lemma DividesCombination(d: int, x: int, y: int, q: int)
    ensures MathUtil.Divides(d, x) && MathUtil.Divides(d, y) ==> MathUtil.Divides(d, x + y * q)
  {
    if MathUtil.Divides(d, x) && MathUtil.Divides(d, y) {
      var s :| x == d * s;
      var t :| y == d * t;
      assert x + y * q == d * (s + t * q);
    }
  }

  /**
   * On any integers, the result of `_gcd` divides both arguments and every
   * common divisor divides it; it is 0 exactly for `_gcd(0, 0)`.
   */
  lemma {:induction false} EuclidGcdDivisors(a: int, b: int)
    ensures MathUtil.Divides(EuclidGcd(a, b), a) && MathUtil.Divides(EuclidGcd(a, b), b)
    ensures forall d :: MathUtil.Divides(d, a) && MathUtil.Divides(d, b) ==> MathUtil.Divides(d, EuclidGcd(a, b))
    ensures EuclidGcd(a, b) == 0 <==> a == 0 && b == 0
    decreases MathUtil.Abs(b)
  {
    if b == 0 {
      assert a == a * 1 && 0 == a * 0;
    } else {
      MathUtil.FloorDivModIdentity(a, b);
      var q, r := MathUtil.FloorDiv(a, b), MathUtil.PyMod(a, b);
      var g := EuclidGcd(b, r);
      EuclidGcdDivisors(b, r);
      assert a == r + b * q;
      assert r == a + b * -q;
      DividesCombination(g, r, b, q);
      forall d | MathUtil.Divides(d, a) && MathUtil.Divides(d, b)
        ensures MathUtil.Divides(d, g)
      {
        DividesCombination(d, a, b, -q);
      }
      DividesZero(b);
    }
  }

  /** On naturals `_gcd` is `math.gcd`. */
  lemma {:induction false} EuclidGcdNatural(a: int, b: int)
    requires a >= 0 && b >= 0
    ensures EuclidGcd(a, b) == MathUtil.Gcd(a, b)
    decreases b
  {
    if b != 0 {
      assert MathUtil.PyMod(a, b) == a % b;
      EuclidGcdNatural(b, a % b);
    }
  }

  /** `_lcm(a, b) = a * b // _gcd(a, b)`, a ZeroDivisionError when the gcd is 0. */
  function EuclidLcm(a: int, b: int): (r: Result<int, MathUtil.MathError>)
    ensures r.Failure? <==> a == 0 && b == 0
  {
    EuclidGcdDivisors(a, b);
    var g := EuclidGcd(a, b);
    if g == 0 then Failure(MathUtil.ZeroDivisionError) else Success(MathUtil.FloorDiv(a * b, g))
  }

  /** On naturals `_lcm` agrees with the `lcm` of the math utilities. */
  lemma EuclidLcmNatural(a: int, b: int)
    requires a >= 0 && b >= 0
    ensures EuclidLcm(a, b) == MathUtil.Lcm(a, b)
  {
    EuclidGcdNatural(a, b);
  }

  /** For positive arguments `_lcm` is a common multiple, and `lcm * gcd == a * b`. */
  lemma EuclidLcmPositive(a: int, b: int)
    requires a > 0 && b > 0
    ensures EuclidLcm(a, b).Success?
    ensures EuclidLcm(a, b).value * EuclidGcd(a, b) == a * b
    ensures MathUtil.Divides(a, EuclidLcm(a, b).value) && MathUtil.Divides(b, EuclidLcm(a, b).value)
  {
    EuclidLcmNatural(a, b);
    EuclidGcdNatural(a, b);
    MathUtil.LcmIsCommonMultiple(a, b);
  }

  /* -------------------------------------------------------------- primality */

  /** `p` is prime: at least 2, and no number from 2 to p - 1 divides it. */
  predicate IsPrime(p: int)
  {
    p >= 2 && forall d :: 2 <= d < p ==> p % d != 0
  }

  /** The integer square root searched upward from `r`. */
  function IsqrtFrom(a: nat, r: nat): (s: nat)
    requires r * r <= a
    ensures s * s <= a < (s + 1) * (s + 1)
    decreases a - r
  {
    if (r + 1) * (r + 1) > a then r
    else
      assert r + 1 <= (r + 1) * (r + 1);
      IsqrtFrom(a, r + 1)
  }

  /** `int(a ** 0.5)`, read as the exact integer square root. */
  function Isqrt(a: nat): (r: nat)
    ensures r * r <= a < (r + 1) * (r + 1)
  {
    IsqrtFrom(a, 0)
  }

  /** `_is_prime`: below 2, or a divisor from 2 up to the square root, means not prime. */
  predicate IsPrimeTest(a: int)
  {
    !(a < 2 || exists x :: 2 <= x <= Isqrt(a) && a % x == 0)
  }

  /** Multiplying by a natural keeps the order. */
  lemma MulMono(x: int, y: int, z: int)
    requires x >= 0
    ensures y <= z ==> x * y <= x * z
  {
    if y <= z {
      assert x * z - x * y == x * (z - y);
    }
  }

  /** `d` can divide 0 only. */
  lemma DividesZero(n: int)
    ensures MathUtil.Divides(0, n) ==> n == 0
  {
    if MathUtil.Divides(0, n) {
      var k :| n == 0 * k;
    }
  }

  /** A divisor of `n` above `b`, where `n < b * b`, has its co-divisor below `b`. */
  lemma CoFactor(n: int, d: int, b: int)
    requires 2 <= d < n && 0 < b <= d && n < b * b
    ensures n % d == 0 ==> 2 <= n / d < b && n % (n / d) == 0
  {
    if n % d == 0 {
      var q := n / d;
      assert n == d * q;
      MulMono(d, q, 1);
      MulMono(b, b, q);
      MulMono(q, b, d);
      MathUtil.ExactDivision(q, d);
      assert q * d == n;
    }
  }

  /** A number from 2 up with no divisor below `i`, where `n < i * i`, is prime. */
  lemma NoFactorBelowRoot(n: int, i: int)
    requires n >= 2 && i >= 1 && n < i * i
    requires forall d :: 2 <= d < i ==> n % d != 0
    ensures IsPrime(n)
  {
    forall d | 2 <= d < n
      ensures n % d != 0
    {
      if d >= i {
        CoFactor(n, d, i);
      }
    }
  }

  /** `_is_prime` decides primality: the square-root bound loses no divisor. */
  lemma IsPrimeTestCorrect(a: int)
    ensures IsPrimeTest(a) <==> IsPrime(a)
  {
    if a >= 2 {
      var r := Isqrt(a);
      MulMono(r, a, r);
      MulMono(a, a, r);
      MulMono(a, 2, a);
      if IsPrimeTest(a) {
        NoFactorBelowRoot(a, r + 1);
      }
    }
  }

  /* ------------------------------------------------------- prime factoring */

  /** `d | i` and `i | n` give `d | n`. */
  lemma DivisorTransitive(d: int, i: int, n: int)
    requires d > 0 && i > 0
    ensures i % d == 0 && n % i == 0 ==> n % d == 0
  {
    if i % d == 0 && n % i == 0 {
      var a, b := i / d, n / i;
      assert n == d * (a * b) by {
        assert i == d * a && n == i * b;
      }
      MathUtil.ExactDivision(d, a * b);
    }
  }

  /** A divisor of the quotient `n / i` divides `n`. */
  lemma QuotientDivisor(n: int, i: int, d: int)
    requires n >= 1 && i >= 1 && d >= 1 && n % i == 0
    ensures (n / i) % d == 0 ==> n % d == 0
  {
    if (n / i) % d == 0 {
      var c := (n / i) / d;
      assert n == d * (i * c) by {
        assert n == i * (n / i) && n / i == d * c;
      }
      MathUtil.ExactDivision(d, i * c);
    }
  }

  /** Dividing out a factor `i >= 2` leaves a smaller positive quotient. */
  lemma DivideStep(n: int, i: int)
    requires n >= 1 && i >= 2 && n % i == 0
    ensures n == i * (n / i) && 1 <= n / i < n
  {
    MulMono(n / i, 1, i);
  }

  /** Moving a factor from the cofactor `n` into the list keeps the product. */
  lemma ProdAppend(primes: seq<int>, i: int, m: int, n0: int)
    requires Barlicity.Prod(primes) * (i * m) == n0
    ensures Barlicity.Prod(primes + [i]) * m == n0
  {
    assert (primes + [i])[..|primes|] == primes;
    var p := Barlicity.Prod(primes);
    assert p * (i * m) == (p * i) * m;
  }

  /** The least divisor from 2 up of `n` that trial division meets is prime. */
  lemma SmallestDivisorPrime(n: int, i: int)
    requires i >= 2 && n % i == 0
    requires forall d :: 2 <= d < i ==> n % d != 0
    ensures IsPrime(i)
  {
    forall d | 2 <= d < i
      ensures i % d != 0
    {
      DivisorTransitive(d, i, n);
    }
  }

  /**
   * `_prime_factor`: trial division by 2, 3, 4, ... while `i * i <= n`, then
   * the remaining cofactor if it is not 1. For n >= 1 the factors are primes
   * in ascending order whose product is n; 1 gives no factors, and a number
   * below 1 is returned on its own.
   */
  method PrimeFactor(n0: int) returns (primes: seq<int>)
    ensures n0 >= 1 ==> Barlicity.Prod(primes) == n0
    ensures n0 >= 1 ==> forall k :: 0 <= k < |primes| ==> IsPrime(primes[k])
    ensures forall k1, k2 :: 0 <= k1 < k2 < |primes| ==> primes[k1] <= primes[k2]
    ensures n0 == 1 <==> primes == []
    ensures n0 < 1 ==> primes == [n0]
  {
    var i := 2;
    var n := n0;
    primes := [];
    while i * i <= n
      invariant i >= 2
      invariant n0 >= 1 ==> n >= 1
      invariant n0 < 4 ==> n == n0 && primes == []
      invariant Barlicity.Prod(primes) * n == n0
      invariant forall k :: 0 <= k < |primes| ==> IsPrime(primes[k]) && primes[k] < i
      invariant forall k1, k2 :: 0 <= k1 < k2 < |primes| ==> primes[k1] <= primes[k2]
      invariant forall d :: 2 <= d < i ==> n % d != 0
      decreases n - i
    {
      assert n >= 4 && n0 >= 4 by {
        MulMono(i, 2, i);
      }
      ghost var before := n;
      while n % i == 0
        invariant n >= 1 && n0 >= 1
        invariant Barlicity.Prod(primes) * n == n0
        invariant forall k :: 0 <= k < |primes| ==> IsPrime(primes[k]) && primes[k] <= i
        invariant forall k1, k2 :: 0 <= k1 < k2 < |primes| ==> primes[k1] <= primes[k2]
        invariant forall d :: 2 <= d < i ==> n % d != 0
        invariant n <= before
        decreases n
      {
        SmallestDivisorPrime(n, i);
        var m := n / i;
        DivideStep(n, i);
        forall d | 2 <= d < i
          ensures m % d != 0
        {
          QuotientDivisor(n, i, d);
        }
        ProdAppend(primes, i, m, n0);
        n := m;
        primes := primes + [i];
      }
      i := i + 1;
    }
    if n != 1 {
      if n0 >= 1 {
        NoFactorBelowRoot(n, i);
        assert n % n == 0;
      }
      ProdAppend(primes, n, 1, n0);
      primes := primes + [n];
    }
  }

  /* -------------------------------------------------------- the n-th prime */

  /** `ps` lists the first |ps| primes in increasing order, from 2 on. */
  ghost predicate ConsecutivePrimes(ps: seq<int>)
  {
    && |ps| > 0 && ps[0] == 2
    && (forall k :: 0 <= k < |ps| ==> IsPrime(ps[k]))
    && (forall k1, k2 :: 0 <= k1 < k2 < |ps| ==> ps[k1] < ps[k2])
    && (forall q :: 2 <= q <= ps[|ps| - 1] && IsPrime(q) ==> q in ps)
  }

  /** Entry k of such a list is the k-th prime: the primes below it are exactly the k entries before it. */
  lemma PrimesBelow(ps: seq<int>, k: int)
    requires ConsecutivePrimes(ps) && 0 <= k < |ps|
    ensures forall p :: IsPrime(p) && p < ps[k] <==> p in ps[..k]
  {
    forall p
      ensures IsPrime(p) && p < ps[k] <==> p in ps[..k]
    {
      if p in ps[..k] {
        var j :| 0 <= j < k && ps[..k][j] == p;
        assert ps[j] == p;
      }
      if IsPrime(p) && p < ps[k] {
        assert ps[k] <= ps[|ps| - 1];
        assert p in ps;
        var j :| 0 <= j < |ps| && ps[j] == p;
        assert ps[..k][j] == p;
      }
    }
  }

  /** A multiple of a number from 2 up has a prime divisor no larger than it. */
  lemma {:induction false} PrimeDivisor(k: int, d: int)
    requires d >= 2
    ensures k % d == 0 ==> exists p :: 2 <= p <= d && IsPrime(p) && k % p == 0
    decreases d
  {
    if k % d == 0 {
      if IsPrime(d) {
        assert 2 <= d <= d && IsPrime(d) && k % d == 0;
      } else {
        var e :| 2 <= e < d && d % e == 0;
        DivisorTransitive(e, d, k);
        PrimeDivisor(k, e);
      }
    }
  }

  /** A number past the last listed prime that none of them divides, with no prime in between, is the next prime. */
  lemma FoundIsPrime(ps: seq<int>, k: int)
    requires ConsecutivePrimes(ps) && ps[|ps| - 1] < k
    requires forall p :: ps[|ps| - 1] < p < k ==> !IsPrime(p)
    requires forall j :: 0 <= j < |ps| ==> k % ps[j] != 0
    ensures IsPrime(k)
  {
    forall d | 2 <= d < k
      ensures k % d != 0
    {
      PrimeDivisor(k, d);
    }
  }

  /** A found `k` extends the list of consecutive primes. */
  lemma PrimeFound(ps: seq<int>, k: int)
    requires ConsecutivePrimes(ps) && ps[|ps| - 1] <= k
    requires forall p :: ps[|ps| - 1] < p < k ==> !IsPrime(p)
    requires forall j :: 0 <= j < |ps| ==> k % ps[j] != 0
    ensures ConsecutivePrimes(ps + [k])
  {
    assert ps[|ps| - 1] % ps[|ps| - 1] == 0;
    FoundIsPrime(ps, k);
    var ps' := ps + [k];
    forall x | 2 <= x <= k && IsPrime(x)
      ensures x in ps'
    {
      if x <= ps[|ps| - 1] {
        assert x in ps;
      }
    }
  }

  /** A `k` some listed prime divides is no new prime, and lies below the next one. */
  lemma NoPrimeFound(ps: seq<int>, k: int, j: int, q: int)
    requires ConsecutivePrimes(ps) && ps[|ps| - 1] <= k
    requires forall p :: ps[|ps| - 1] < p < k ==> !IsPrime(p)
    requires 0 <= j < |ps| && k % ps[j] == 0
    requires IsPrime(q) && ps[|ps| - 1] < q && k <= q
    ensures forall p :: ps[|ps| - 1] < p < k + 1 ==> !IsPrime(p)
    ensures k + 1 <= q
  {
    var last := ps[|ps| - 1];
    assert ps[j] <= last;
    assert last < k ==> !IsPrime(k);
  }

  /** A listed factor divides the product. */
  lemma {:induction false} ProdCofactor(ps: seq<int>, p: int) returns (t: int)
    requires p in ps
    ensures Barlicity.Prod(ps) == p * t
  {
    var n := |ps|;
    var init := ps[..n - 1];
    if ps[n - 1] == p {
      t := Barlicity.Prod(init);
    } else {
      var j :| 0 <= j < n && ps[j] == p;
      assert init[j] == p;
      var t0 := ProdCofactor(init, p);
      t := t0 * ps[n - 1];
    }
  }

  /** One more than a multiple of `p >= 2` leaves remainder 1. */
  lemma SuccessorOfMultiple(p: int, t: int)
    requires p >= 2
    ensures (p * t + 1) % p == 1
  {
    var q, r := (p * t + 1) / p, (p * t + 1) % p;
    assert p * (q - t) == 1 - r;
    MathUtil.MultipleBound(p, q - t);
  }

  /** Euclid: the product of the listed primes plus one has a prime factor past them. */
  lemma ExistsLargerPrime(ps: seq<int>) returns (q: int)
    requires ConsecutivePrimes(ps)
    ensures IsPrime(q) && q > ps[|ps| - 1]
  {
    var m := Barlicity.Prod(ps);
    Barlicity.ProdPositiveOf(ps);
    assert (m + 1) % (m + 1) == 0;
    PrimeDivisor(m + 1, m + 1);
    q :| 2 <= q <= m + 1 && IsPrime(q) && (m + 1) % q == 0;
    if q in ps {
      var t := ProdCofactor(ps, q);
      SuccessorOfMultiple(q, t);
    }
  }

  /**
   * The `for` loop of `_get_nth_prime`: the position of the first listed
   * prime that divides k, or the length of the list when none does.
   */
  method FirstDivisor(ps: seq<int>, k: int) returns (j: int)
    requires forall i :: 0 <= i < |ps| ==> ps[i] != 0
    ensures 0 <= j <= |ps|
    ensures j < |ps| ==> k % ps[j] == 0
    ensures forall i :: 0 <= i < j ==> k % ps[i] != 0
  {
    j := 0;
    while j < |ps| && k % ps[j] != 0
      invariant 0 <= j <= |ps|
      invariant forall i :: 0 <= i < j ==> k % ps[i] != 0
    {
      j := j + 1;
    }
  }

  /**
   * The `while` loop of `_get_nth_prime`: trial division of the candidates
   * after the last prime found by every prime found so far, appending each
   * candidate no prime divides, until the list holds n + 1 primes.
   */
  method ExtendPrimes(found: seq<int>, n: int) returns (ps: seq<int>, k: int)
    requires ConsecutivePrimes(found) && |found| <= n
    ensures ConsecutivePrimes(ps) && found <= ps
    ensures |ps| == n + 1 && k == ps[n]
  {
    ps := found;
    k := ps[|ps| - 1] + 1;
    ghost var q := ExistsLargerPrime(ps);
    while |ps| <= n
      invariant ConsecutivePrimes(ps) && found <= ps
      invariant ps[|ps| - 1] <= k <= q
      invariant IsPrime(q) && ps[|ps| - 1] < q
      invariant forall p :: ps[|ps| - 1] < p < k ==> !IsPrime(p)
      invariant |ps| <= n || k == ps[|ps| - 1]
      invariant |ps| <= n + 1
      decreases n - |ps|, q - k
    {
      var j := FirstDivisor(ps, k);
      if j == |ps| {
        PrimeFound(ps, k);
        var extended := ps + [k];
        assert extended[|extended| - 1] == k;
        assert found <= extended;
        ps := extended;
        q := ExistsLargerPrime(ps);
      } else {
        NoPrimeFound(ps, k, j, q);
        k := k + 1;
      }
    }
  }

  /** `primes[n]` for n below `-len(primes)`. */
  datatype PrimeError = IndexError

  /**
   * `_get_nth_prime` together with the list of primes it keeps as its own
   * attribute: empty until the first call with n != 0, then the first
   * primes in order. Prime 0 is 2.
   */
  class PrimeCache {
    var primes: seq<int>

    ghost predicate Valid()
      reads this
    {
      primes == [] || ConsecutivePrimes(primes)
    }

    constructor ()
      ensures primes == [] && Valid()
    {
      primes := [];
    }

    /**
     * The n-th prime, extending the list by trial division with the primes
     * found so far. A negative n indexes the list from its end, and on the
     * very first call gives 3.
     */
    method NthPrime(n: int) returns (r: Result<int, PrimeError>)
      requires Valid()
      modifies this
      ensures Valid()
      ensures n == 0 ==> r == Success(2) && primes == old(primes)
      ensures n > 0 ==> n < |primes| && r == Success(primes[n]) && old(primes) <= primes
      ensures n < 0 && old(primes) == [] ==> r == Success(3) && primes == [2]
      ensures n < 0 && old(primes) != [] ==> primes == old(primes)
      ensures n < 0 && old(primes) != [] ==>
        r == if -n <= |primes| then Success(primes[|primes| + n]) else Failure(IndexError)
    {
      if n == 0 {
        return Success(2);
      }
      if primes != [] && n < |primes| {
        if n >= 0 {
          return Success(primes[n]);
        } else if -n <= |primes| {
          return Success(primes[|primes| + n]);
        } else {
          return Failure(IndexError);
        }
      }
      if primes == [] {
        primes := [2];
        if n < 0 {
          return Success(3);
        }
      }
      var ps, k := ExtendPrimes(primes, n);
      primes := ps;
      return Success(k);
    }
  }
}
