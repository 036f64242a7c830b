/**
 The multiplicative helper hash `simple_hash(a, b) = (a * 10007 + b) % 1000000007`
 on 32-bit `int`s. C's `%` truncates toward zero, so a negative sum gives a
 non-positive remainder; Dafny's `%` is Euclidean, so the truncation is
 written out.
 */
module Hash {
  import opened Arith

  const Multiplier: int := 10007
  const Modulus: int := 1000000007

  /** C's `x % m` for a positive `m`: the remainder takes the sign of `x`. */
  function TruncatedRem(x: int, m: int): (r: int)
    requires m > 0
    ensures -m < r < m
    ensures x >= 0 ==> r >= 0
    ensures x <= 0 ==> r <= 0
    ensures (x - r) % m == 0
  {
    RemainderCongruent(x, m);
    if x >= 0 then x % m else -((-x) % m)
  }

  /** Both branches of `TruncatedRem` differ from `x` by a multiple of `m`. */
  lemma RemainderCongruent(x: int, m: int)
    requires m > 0
    ensures x >= 0 ==> (x - x % m) % m == 0
    ensures x < 0 ==> (x + (-x) % m) % m == 0
  {
    if x >= 0 {
      var q := x / m;
      assert x - x % m == m * q;
      ModOfMultiple(m, q);
    } else {
      var q := (-x) / m;
      assert -x == m * q + (-x) % m;
      assert x + (-x) % m == m * (-q);
      ModOfMultiple(m, -q);
    }
  }

  /** `simple_hash`, defined when neither `a * 10007` nor the sum overflows. */
  function SimpleHash(a: int, b: int): (h: int)
    requires IsInt32(a) && IsInt32(b)
    requires IsInt32(a * Multiplier) && IsInt32(a * Multiplier + b)
    ensures -Modulus < h < Modulus
    ensures (a * Multiplier + b - h) % Modulus == 0
    ensures a * Multiplier + b >= 0 ==> 0 <= h
    ensures a * Multiplier + b <= 0 ==> h <= 0
    ensures a >= 0 && b >= 0 ==> 0 <= h < Modulus
  {
    TruncatedRem(a * Multiplier + b, Modulus)
  }

  /** On a non-negative sum the hash agrees with the mathematical residue,
      so it is one of the `Modulus` buckets [0, Modulus). */
  lemma HashIsResidue(a: int, b: int)
    requires IsInt32(a) && IsInt32(b)
    requires IsInt32(a * Multiplier) && IsInt32(a * Multiplier + b)
    requires a * Multiplier + b >= 0
    ensures SimpleHash(a, b) == (a * Multiplier + b) % Modulus
  {
    var x := a * Multiplier + b;
    var h := SimpleHash(a, b);
    ResidueUnique(x, h, Modulus);
  }

  /** A value in [0, m) congruent to `x` is `x % m`. */
  lemma ResidueUnique(x: int, h: int, m: int)
    requires m > 0 && 0 <= h < m && (x - h) % m == 0
    ensures h == x % m
  {
    var k := (x - h) / m;
    assert x - h == m * k;
    var q := x / m;
    assert x == m * q + x % m;
    assert m * (k - q) == x % m - h;
    if k - q >= 1 {
      MulAtLeast(m, k - q);
    } else if k - q <= -1 {
      MulAtLeast(m, q - k);
    }
  }
}
