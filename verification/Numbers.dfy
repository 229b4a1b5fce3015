/** Python's conversions from floats to integers, over the reals, and powers. */
module Numbers {

  /** `round`: to the nearest integer, ties to even. */
  function RoundHalfEven(x: real): int {
    var f := x.Floor;
    var d := x - f as real;
    if d < 0.5 || (d == 0.5 && f % 2 == 0) then f else f + 1
  }

  lemma RoundMonotone(x: real, y: real)
    requires x <= y
    ensures RoundHalfEven(x) <= RoundHalfEven(y)
    ensures x - 0.5 <= RoundHalfEven(x) as real <= x + 0.5
  {
  }

  /** Rounding reaches an integer from half a point below on, at the half point itself if it is even. */
  lemma RoundReaches(x: real, n: int)
    ensures RoundHalfEven(x) >= n <==> x > n as real - 0.5 || (x == n as real - 0.5 && n % 2 == 0)
  {
    if x == n as real - 0.5 {
      assert x.Floor == n - 1;
    }
  }

  /** `int`: towards zero. */
  function Truncate(x: real): int {
    if x >= 0.0 then x.Floor else -((-x).Floor)
  }

  lemma TruncateMonotone(x: real, y: real)
    requires x <= y
    ensures Truncate(x) <= Truncate(y)
    ensures x >= 0.0 ==> 0.0 <= Truncate(x) as real <= x < Truncate(x) as real + 1.0
    ensures x <= 0.0 ==> Truncate(x) as real - 1.0 < x <= Truncate(x) as real <= 0.0
  {
  }

  function Pow(x: real, n: nat): real {
    if n == 0 then 1.0 else x * Pow(x, n - 1)
  }

  /** A product with a name: proofs can match it as a whole. */
  function Times(x: real, y: real): real {
    x * y
  }

  lemma ProductSign(x: real, y: real)
    requires x >= 0.0 && y >= 0.0
    ensures x * y >= 0.0
  {
  }

  lemma FactorSign(y: real, p: real)
    requires p > 0.0 && y * p >= 0.0
    ensures y >= 0.0
  {
  }

  lemma ProductMonotone(x: real, y: real, k: real)
    requires x <= y && k >= 0.0
    ensures x * k <= y * k && k * x <= k * y
  {
    ProductSign(y - x, k);
  }

  lemma TimesMonotone(x: real, y: real, k: real)
    requires x <= y && k >= 0.0
    ensures Times(x, k) <= Times(y, k)
  {
    ProductMonotone(x, y, k);
  }

  lemma QuotientBound(a: real, d: real, k: real)
    requires d > 0.0
    ensures a >= d * k ==> a / d >= k
    ensures a <= d * k ==> a / d <= k
  {
    var q := a / d;
    assert (q - k) * d == a - d * k;
    if a >= d * k {
      FactorSign(q - k, d);
    }
    if a <= d * k {
      assert (k - q) * d == d * k - a;
      FactorSign(k - q, d);
    }
  }

  lemma {:induction false} PowPositive(x: real, n: nat)
    requires x >= 0.0
    ensures Pow(x, n) >= 0.0
  {
    if n > 0 {
      PowPositive(x, n - 1);
      ProductSign(x, Pow(x, n - 1));
    }
  }

  /** Powers of a factor of at most one fall, of at least one grow. */
  lemma PowStep(x: real, n: nat)
    requires x >= 0.0
    ensures x <= 1.0 ==> Pow(x, n + 1) <= Pow(x, n)
    ensures x >= 1.0 ==> Pow(x, n + 1) >= Pow(x, n)
  {
    PowPositive(x, n);
    if x <= 1.0 {
      ProductMonotone(x, 1.0, Pow(x, n));
    } else {
      ProductMonotone(1.0, x, Pow(x, n));
    }
  }

  /** `int(n * factor)`. */
  function Scaled(n: int, factor: real): int {
    Truncate(n as real * factor)
  }

  lemma ScaledMonotone(n: int, x: real, y: real)
    requires n >= 0 && x <= y
    ensures Scaled(n, x) <= Scaled(n, y)
  {
    ProductMonotone(x, y, n as real);
    TruncateMonotone(n as real * x, n as real * y);
  }

  lemma ScaledByOne(n: int)
    ensures Scaled(n, 1.0) == n
  {
  }
}
