/**
 32-bit `int` bounds, and divisibility facts over Dafny's built-in `%` and
 `/` used by the primality and hash proofs. The lemmas are about
 divisibility (`x % m == 0` for a positive `m`), which means the same under
 Dafny's Euclidean `%` and C's truncating `%`, whatever the sign of `x`.
 */
module Arith {

  const Int32Min: int := -0x8000_0000
  const Int32Max: int := 0x7fff_ffff

  /** `x` is representable as a C `int`. */
  predicate IsInt32(x: int) {
    Int32Min <= x <= Int32Max
  }

  /** A multiple of `m` leaves no remainder modulo `m`. */
  lemma ModOfMultiple(m: int, k: int)
    requires m > 0
    ensures (m * k) % m == 0
  {
    var x := m * k;
    var q := x / m;
    assert x == m * q + x % m;
    assert m * (k - q) == x % m;
    if k - q >= 1 {
      MulAtLeast(m, k - q);
    } else if k - q <= -1 {
      MulAtLeast(m, q - k);
    }
  }

  /** A product with a positive left factor grows with the right factor. */
  lemma MulAtLeast(m: int, t: int)
    requires m > 0 && t >= 1
    ensures m * t >= m
  {
    assert m * t == m + m * (t - 1);
  }

  /** If `d` divides the positive `n`, then so does the cofactor `n / d`. */
  lemma Cofactor(n: int, d: int)
    requires n > 0 && d > 0 && n % d == 0
    ensures n == d * (n / d)
    ensures n / d > 0
    ensures n % (n / d) == 0
  {
    var e := n / d;
    assert n == d * e;
    assert n == e * d;
    ModOfMultiple(e, d);
  }

  /** Divisibility is transitive: `a | b` and `b | c` give `a | c`. */
  lemma DividesTransitive(a: int, b: int, c: int)
    requires a > 0 && b > 0
    requires b % a == 0 && c % b == 0
    ensures c % a == 0
  {
    var j := b / a;
    var k := c / b;
    assert b == a * j;
    assert c == b * k;
    assert c == a * (j * k);
    ModOfMultiple(a, j * k);
  }

  /** A common divisor of `x` and `y` divides their difference. */
  lemma DividesDifference(p: int, x: int, y: int)
    requires p > 0 && x % p == 0 && y % p == 0
    ensures (x - y) % p == 0
  {
    var i := x / p;
    var j := y / p;
    assert x == p * i;
    assert y == p * j;
    assert x - y == p * (i - j);
    ModOfMultiple(p, i - j);
  }

  /** Multiplication of non-negative numbers is monotone in both factors. */
  lemma MulMonotone(a: int, b: int, c: int, d: int)
    requires 0 <= a <= c && 0 <= b <= d
    ensures a * b <= c * d
  {
    assert a * b <= c * b;
    assert c * b <= c * d;
  }
}
