/**
 The primality helpers `is_prime` and `find_next_prime`.

 `is_prime` is 6k +/- 1 trial division over a 32-bit `int`; the model
 proves it equal to the textbook definition, "greater than one and no
 divisor in [2, n)". `find_next_prime` searches upwards from `start` for
 the first prime that is not in a list of primes already handed out.
 */
module Primes {
  import opened Arith
  import opened LinearScan

  /** Every input up to this bound keeps each `i * i` computed by the trial
      loop within `Int32Max`: the loop only reaches `i` when
      `(i - 6) * (i - 6) <= n`, and 46337 * 46337 exceeds the bound. */
  const MaxTrialInput: int := 46337 * 46337 - 1

  /** The definition `is_prime` implements: no divisor strictly between 1 and `n`. */
  predicate IsPrime(n: int) {
    n > 1 && forall d :: 2 <= d < n ==> n % d != 0
  }

  /** 6k +/- 1 trial division, as `is_prime` writes it. */
  method IsPrimeTrial(n: int) returns (b: bool)
    requires Int32Min <= n <= MaxTrialInput
    ensures b <==> IsPrime(n)
  {
    if n <= 1 {
      return false;
    }
    if n <= 3 {
      return true;
    }
    if n % 2 == 0 || n % 3 == 0 {
      DivisorRefutes(n, if n % 2 == 0 then 2 else 3);
      return false;
    }
    var i := 5;
    ghost var k := 0;
    NoDivisorBelowFive(n);
    while i * i <= n
      invariant k >= 0 && i == 6 * k + 5
      invariant i == 5 || (i - 6) * (i - 6) <= n
      invariant i * i <= Int32Max
      invariant forall d :: 2 <= d < i ==> n % d != 0
      decreases n - i
    {
      SquareDominates(i);
      if n % i == 0 || n % (i + 2) == 0 {
        DivisorRefutes(n, if n % i == 0 then i else i + 2);
        return false;
      }
      WheelStep(n, i, k);
      SquareStaysInRange(n, i, k);
      i, k := i + 6, k + 1;
    }
    NoSmallDivisor(n, i);
    return true;
  }

  /** Odd and not a multiple of 3 means no divisor in [2, 5). */
  lemma NoDivisorBelowFive(n: int)
    requires n >= 5 && n % 2 != 0 && n % 3 != 0
    ensures forall d :: 2 <= d < 5 ==> n % d != 0
  {
    if n % 4 == 0 {
      DividesTransitive(2, 4, n);
    }
  }

  /** A candidate's square exceeds both candidates the loop body tests. */
  lemma SquareDominates(i: int)
    requires i >= 5
    ensures i + 2 < i * i
  {
    MulMonotone(5, i, i, i);
  }

  /** A divisor strictly between 1 and `n` shows `n` is not prime. */
  lemma DivisorRefutes(n: int, d: int)
    requires 2 <= d < n && n % d == 0
    ensures !IsPrime(n)
  {
  }

  /** Between two 6k +/- 1 candidates only multiples of 2 or 3 lie, so an odd
      `n` that 3 does not divide, with no divisor in [2, i] or at `i + 2`,
      has none in [2, i + 6). */
  lemma WheelStep(n: int, i: int, k: int)
    requires n >= 5 && n % 2 != 0 && n % 3 != 0
    requires k >= 0 && i == 6 * k + 5
    requires forall d :: 2 <= d < i ==> n % d != 0
    requires n % i != 0 && n % (i + 2) != 0
    ensures forall d :: 2 <= d < i + 6 ==> n % d != 0
  {
    forall d | i <= d < i + 6
      ensures n % d != 0
    {
      if d == i + 1 || d == i + 3 || d == i + 5 {
        assert d == 2 * (3 * k + (d - i + 5) / 2);
        ModOfMultiple(2, 3 * k + (d - i + 5) / 2);
        if n % d == 0 {
          DividesTransitive(2, d, n);
        }
      } else if d == i + 4 {
        assert d == 3 * (2 * k + 3);
        ModOfMultiple(3, 2 * k + 3);
        if n % d == 0 {
          DividesTransitive(3, d, n);
        }
      }
    }
  }

  /** The next candidate's square still fits in 32 bits. */
  lemma SquareStaysInRange(n: int, i: int, k: int)
    requires n <= MaxTrialInput
    requires k >= 0 && i == 6 * k + 5 && i * i <= n
    ensures (i + 6) * (i + 6) <= Int32Max
  {
    if i >= 46337 {
      MulMonotone(46337, 46337, i, i);
    }
    assert i <= 46331;
    MulMonotone(i + 6, i + 6, 46337, 46337);
  }

  /** Once `i * i` exceeds `n`, a divisor-free prefix [2, i) rules out every
      divisor: a factorisation `n == d * e` has a factor below `i`. */
  lemma NoSmallDivisor(n: int, i: int)
    requires n >= 2 && i >= 2 && i * i > n
    requires forall d :: 2 <= d < i ==> n % d != 0
    ensures IsPrime(n)
  {
    forall d | 2 <= d < n
      ensures n % d != 0
    {
      if n % d == 0 {
        Cofactor(n, d);
        var e := n / d;
        if d >= i && e >= i {
          MulMonotone(i, i, d, e);
        }
      }
    }
  }

  /** True when some prime in [start, MaxTrialInput] is not in `seen`, so the
      upward search stops before its candidate leaves the range `is_prime`
      handles without overflow. */
  ghost predicate HasAdmissiblePrime(start: int, seen: seq<int>) {
    exists p :: start <= p <= MaxTrialInput && IsPrime(p) && p !in seen
  }

  /** `find_next_prime`: the least prime at or above `start` missing from `seen`. */
  method FindNextPrime(start: int, seen: seq<int>) returns (r: int)
    requires Int32Min <= start
    requires HasAdmissiblePrime(start, seen)
    ensures start <= r && IsPrime(r) && r !in seen
    ensures forall c :: start <= c < r ==> !IsPrime(c) || c in seen
  {
    ghost var bound :| start <= bound <= MaxTrialInput && IsPrime(bound) && bound !in seen;
    var candidate := start;
    while true
      invariant start <= candidate <= bound
      invariant forall c :: start <= c < candidate ==> !IsPrime(c) || c in seen
      decreases bound - candidate
    {
      var prime := IsPrimeTrial(candidate);
      if prime {
        var found := Contains(seen, candidate);
        if !found {
          return candidate;
        }
      }
      candidate := candidate + 1;
    }
  }

  function Factorial(n: nat): (f: nat)
    ensures f >= 1
  {
    if n == 0 then 1 else n * Factorial(n - 1)
  }

  /** Every number from 1 to `n` divides `n!`. */
  lemma {:induction false} FactorialDivisible(n: nat, d: int)
    requires 1 <= d <= n
    ensures Factorial(n) % d == 0
  {
    if d == n {
      ModOfMultiple(n, Factorial(n - 1));
    } else {
      FactorialDivisible(n - 1, d);
      assert Factorial(n) == Factorial(n - 1) * n;
      ModOfMultiple(Factorial(n - 1), n);
      DividesTransitive(d, Factorial(n - 1), Factorial(n));
    }
  }

  /** Every number above one has a prime divisor. */
  lemma {:induction false} PrimeDivisorExists(n: int)
    requires n >= 2
    ensures exists p :: IsPrime(p) && n % p == 0
    decreases n
  {
    if IsPrime(n) {
      ModOfMultiple(n, 1);
    } else {
      var d :| 2 <= d < n && n % d == 0;
      PrimeDivisorExists(d);
      var p :| IsPrime(p) && d % p == 0;
      DividesTransitive(p, d, n);
    }
  }

  /** Euclid: above any finite list there is a prime it misses. This is why
      the unbounded search in `find_next_prime` stops on mathematical
      integers for every `start` and every `seen`. */
  lemma AdmissiblePrimeExists(start: int, seen: seq<int>)
    ensures exists p :: start <= p && IsPrime(p) && p !in seen
  {
    var m := MaxOf(seen, if start < 1 then 1 else start);
    var n := Factorial(m) + 1;
    PrimeDivisorExists(n);
    var p :| IsPrime(p) && n % p == 0;
    if p <= m {
      FactorialDivisible(m, p);
      DividesDifference(p, n, Factorial(m));
    }
    assert start <= p && IsPrime(p) && p !in seen;
  }

  /** The largest of `lo` and the elements of `xs`. */
  function MaxOf(xs: seq<int>, lo: nat): (m: nat)
    ensures lo <= m
    ensures forall q :: q in xs ==> q <= m
  {
    if xs == [] then lo
    else
      var rest := MaxOf(xs[1..], lo);
      assert forall q :: q in xs ==> q == xs[0] || q in xs[1..];
      if xs[0] > rest then xs[0] else rest
  }
}
