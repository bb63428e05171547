/**
 The primality test and the search for table sizes of cpp-test/test-prime.cpp.
 */
module PrimeSearch {
  import Arithmetic
  import FastMod

  const INT32_MAX: nat := 0x7FFF_FFFF

  ghost predicate Prime(n: nat) {
    n >= 2 && forall d :: 2 <= d < n ==> !Divides(d, n)
  }

  predicate Divides(d: nat, n: nat) {
    d > 0 && n % d == 0
  }

  /** The integer square root. */
  function Sqrt(n: nat): (r: nat)
    ensures r * r <= n < (r + 1) * (r + 1)
  {
    if n == 0 then 0
    else
      var r := Sqrt(n - 1);
      if (r + 1) * (r + 1) <= n then SqrtStep(r); r + 1 else r
  }

  lemma SqrtStep(r: nat)
    ensures (r + 1) * (r + 1) + 1 <= (r + 2) * (r + 2)
  {
  }

  /** A divisor with its cofactor. */
  lemma Cofactor(d: nat, n: nat)
    requires 2 <= d < n && Divides(d, n)
    ensures n == d * (n / d) && 2 <= n / d < n && Divides(n / d, n)
  {
    var e := n / d;
    Arithmetic.Euclid(n, d);
    assert e != 0 && e != 1;
    Arithmetic.AtLeastOnce(d - 1, e);
    Arithmetic.Distribute(d - 1, 1, e);
    Arithmetic.DivIs(n, d, 0, e);
  }

  /** Of a divisor and its cofactor one is at most the square root. */
  lemma OneIsSmall(d: nat, e: nat, n: nat, limit: nat)
    requires n == d * e && n < (limit + 1) * (limit + 1)
    ensures d <= limit || e <= limit
  {
    if d > limit && e > limit {
      Arithmetic.MulMonotone(limit + 1, e, limit + 1);
      Arithmetic.MulMonotone(limit + 1, d, e);
    }
  }

  /** A divisor of an odd number is odd. */
  lemma OddDivisor(d: nat, n: nat)
    requires Divides(d, n) && n % 2 == 1
    ensures d % 2 == 1
  {
    var e, h := n / d, d / 2;
    Arithmetic.Euclid(n, d);
    assert d % 2 == 0 ==> d == h * 2;
    Arithmetic.Swap(h, 2, e);
    Arithmetic.DivIs((h * e) * 2, h * e, 0, 2);
  }

  /** Odd trial divisors up to the square root are enough for an odd number. */
  lemma TrialDivisionSuffices(n: nat, limit: nat)
    requires n >= 2 && n % 2 == 1 && n < (limit + 1) * (limit + 1)
    requires forall d :: 3 <= d <= limit && d % 2 == 1 ==> !Divides(d, n)
    ensures Prime(n)
  {
    forall d | 2 <= d < n
      ensures !Divides(d, n)
    {
      if Divides(d, n) {
        Cofactor(d, n);
        OddDivisor(d, n);
        OddDivisor(n / d, n);
        OneIsSmall(d, n / d, n, limit);
      }
    }
  }

  /** No odd number from 3 up to below `bound` divides n. */
  ghost predicate NoneBelow(n: nat, bound: int) {
    forall d :: 3 <= d < bound && d % 2 == 1 ==> !Divides(d, n)
  }

  /**
   helper_IsPrime: right for every number except 1, which it takes for a prime.  For a negative odd
   number the C code converts the square root, which is no number, to an integer: that is undefined.
   */
  method IsPrime(candidate: int) returns (p: bool)
    requires candidate >= 0 || candidate % 2 == 0
    ensures p <==> candidate >= 0 && (Prime(candidate) || candidate == 1)
  {
    if candidate % 2 != 0 {
      var limit := Sqrt(candidate);
      var divisor: int := 3;
      while divisor <= limit
        invariant divisor % 2 == 1 && 3 <= divisor
        invariant NoneBelow(candidate, divisor)
        decreases limit - divisor
      {
        if candidate % divisor == 0 {
          assert Divides(divisor, candidate);
          return false;
        }
        divisor := divisor + 2;
      }
      if candidate >= 2 {
        TrialDivisionSuffices(candidate, limit);
      }
      return true;
    }
    assert candidate > 2 ==> Divides(2, candidate);
    return candidate == 2;
  }

  /** What GenPrime looks for. */
  ghost predicate Wanted(k: nat) {
    k % 2 == 1 && (k - 1) % 101 != 0 && Prime(k)
  }

  lemma NotWanted(start: nat, k: nat)
    requires NoneWantedBelow(start, k) && k % 2 == 1 && !Wanted(k)
    ensures NoneWantedBelow(start, k + 2)
  {
  }

  /** The least wanted number from `start` on, or nothing below INT32_MAX. */
  method Search(start: nat) returns (found: bool, k: nat)
    ensures if found then IsFirstWanted(start, k) else NoneWantedBelow(start, INT32_MAX)
  {
    k := if start % 2 == 1 then start else start + 1;
    while k < INT32_MAX
      invariant k % 2 == 1 && start <= k
      invariant NoneWantedBelow(start, k)
    {
      var p := IsPrime(k);
      if (k - 1) % 101 != 0 && p {
        return true, k;
      }
      NotWanted(start, k);
      k := k + 2;
    }
    found := false;
  }

  /** The first wanted number from `start` on. */
  ghost predicate IsFirstWanted(start: nat, k: nat) {
    start <= k < INT32_MAX && Wanted(k) && NoneWantedBelow(start, k)
  }

  ghost predicate NoneWantedBelow(start: nat, bound: nat) {
    forall j :: start <= j < bound ==> !Wanted(j)
  }

  /**
   GenPrime with its start values given: for each start the first wanted number is emitted, unless
   there is none; each comes with a multiplier that makes the fast remainder exact.
   */
  method GenPrime(starts: seq<nat>) returns (primes: seq<nat>, multipliers: seq<nat>)
    ensures Emits(starts, primes)
    ensures |multipliers| == |primes|
    ensures forall i :: 0 <= i < |primes| ==> Wanted(primes[i]) && FastMod.IsExactFor(primes[i], multipliers[i])
  {
    primes := [];
    for i := 0 to |starts|
      invariant Emits(starts[..i], primes)
      invariant forall k :: 0 <= k < |primes| ==> Wanted(primes[k]) && primes[k] < INT32_MAX
    {
      var found, k := Search(starts[i]);
      assert starts[..i + 1][..i] == starts[..i];
      if found {
        assert (primes + [k])[..|primes|] == primes;
        primes := primes + [k];
      }
    }
    assert starts[..|starts|] == starts;
    multipliers := [];
    for i := 0 to |primes|
      invariant |multipliers| == i
      invariant forall k :: 0 <= k < i ==> FastMod.IsExactFor(primes[k], multipliers[k])
    {
      FastMod.MultiplierIsExact(primes[i]);
      multipliers := multipliers + [((FastMod.TWO64 - 1) / primes[i] + 1) % FastMod.TWO64];
    }
  }

  /** The emitted numbers are the first wanted ones of the starts that have one, in order. */
  ghost predicate Emits(starts: seq<nat>, primes: seq<nat>) {
    if starts == [] then primes == []
    else
      var n := |starts| - 1;
      || (NoneWantedBelow(starts[n], INT32_MAX) && Emits(starts[..n], primes))
      || (primes != [] && IsFirstWanted(starts[n], primes[|primes| - 1]) && Emits(starts[..n], primes[..|primes| - 1]))
  }
}
