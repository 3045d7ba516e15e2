/**
 * Transcendental functions and distribution functions the application takes
 * from its platform (`Math.sqrt`, `Math.exp`, `Math.log`, jStat's CDFs,
 * Java's `Math.sqrt`).  They are not defined here: every operation that
 * needs them receives a `MathLib` record, and states what it proves under
 * the handful of facts collected in `Sound`.  The record also carries the
 * platform's floating-point division where a divisor can be zero: its
 * result there (an infinity or NaN) is not a real number, so the model only
 * knows that it agrees with exact division elsewhere.  Rounding, which the
 * model does need exactly, is defined on `real` below.
 */
module Numerics {

  datatype MathLib = MathLib(
    sqrt: real -> real,
    exp: real -> real,
    log: real -> real,
    /** Student t cumulative distribution function, `jStat.studentt.cdf(x, df)`. */
    studentTCdf: (real, int) -> real,
    /** Fisher F cumulative distribution function, `jStat.centralF.cdf(x, df1, df2)`. */
    centralFCdf: (real, int, int) -> real,
    /** Chi-square cumulative distribution function, `jStat.chisquare.cdf(x, df)`. */
    chiSquareCdf: (real, int) -> real,
    /** IEEE division `a / b`; only its value for a non-zero divisor is known. */
    divide: (real, real) -> real
  )

  /** The facts about the platform functions that the proofs rely on. */
  ghost predicate Sound(m: MathLib)
  {
    m.sqrt(0.0) == 0.0
    && (forall x :: 0.0 < x ==> 0.0 < m.sqrt(x))
    && (forall x :: 0.0 < m.exp(x))
    && (forall x, d :: 0.0 <= m.studentTCdf(x, d) <= 1.0)
    && (forall x, d1, d2 :: 0.0 <= m.centralFCdf(x, d1, d2) <= 1.0)
    && (forall x, d :: 0.0 <= m.chiSquareCdf(x, d) <= 1.0)
    && (forall a, b :: b != 0.0 ==> m.divide(a, b) == a / b)
  }

  lemma SqrtNonNegative(m: MathLib, x: real)
    requires Sound(m)
    requires 0.0 <= x
    ensures 0.0 <= m.sqrt(x)
    ensures m.sqrt(x) == 0.0 <==> x == 0.0
  {
  }

  /** `Math.floor`. */
  function Floor(x: real): (r: int)
    ensures r as real <= x < r as real + 1.0
  {
    x.Floor
  }

  /** `Math.ceil` (Java and JavaScript agree). */
  function Ceil(x: real): (r: int)
    ensures x <= r as real < x + 1.0
  {
    -((-x).Floor)
  }

  /** JavaScript `Math.round`: the nearest integer, halves rounded towards +infinity. */
  function Round(x: real): (r: int)
    ensures x - 0.5 < r as real <= x + 0.5
  {
    (x + 0.5).Floor
  }

  /** Integer division truncating towards zero, as Java's `/` on `long` and `ChronoUnit.between`. */
  function TruncDiv(a: int, b: int): (q: int)
    requires b > 0
    ensures a >= 0 ==> q == a / b
    ensures a >= 0 ==> q >= 0
    ensures a <= 0 ==> q <= 0
  {
    if a >= 0 then a / b else -((-a) / b)
  }

  /** Truncation is symmetric about zero, where Dafny's Euclidean division is not. */
  lemma TruncDivOdd(a: int, b: int)
    requires b > 0
    ensures TruncDiv(-a, b) == -TruncDiv(a, b)
  {
  }

  /** `Math.pow(x, n)` for a natural exponent. */
  function Pow(x: real, n: nat): (r: real)
    ensures n == 0 ==> r == 1.0
    ensures 0.0 <= x ==> 0.0 <= r
  {
    if n == 0 then 1.0 else x * Pow(x, n - 1)
  }

  lemma {:induction false} PowBelowOne(x: real, n: nat)
    requires 0.0 <= x <= 1.0
    ensures 0.0 <= Pow(x, n) <= 1.0
  {
    if n > 0 {
      PowBelowOne(x, n - 1);
      assert x * Pow(x, n - 1) <= 1.0 * Pow(x, n - 1);
    }
  }

  function Abs(x: real): (r: real)
    ensures 0.0 <= r && (r == x || r == -x)
  {
    if x < 0.0 then -x else x
  }

  function MaxR(a: real, b: real): (r: real)
    ensures a <= r && b <= r && (r == a || r == b)
  {
    if a < b then b else a
  }

  function MinR(a: real, b: real): (r: real)
    ensures r <= a && r <= b && (r == a || r == b)
  {
    if b < a then b else a
  }

  lemma MulAtLeast(a: int, p: nat)
    requires a >= 1
    ensures a * p >= p
  {
    assert a * p == (a - 1) * p + p;
    assert (a - 1) * p >= 0;
  }

  /** Euclidean division is determined by its defining equation. */
  lemma DivModUnique(x: int, p: nat, q: int, r: int)
    requires p >= 1 && 0 <= r < p && x == q * p + r
    ensures x % p == r && x / p == q
  {
    var q', r' := x / p, x % p;
    assert x == q' * p + r';
    if q > q' {
      assert (q - q') * p == q * p - q' * p;
      MulAtLeast(q - q', p);
    } else if q < q' {
      assert (q' - q) * p == q' * p - q * p;
      MulAtLeast(q' - q, p);
    }
  }

  // Sign facts about products and quotients of reals, stated over a named
  // result so that callers can hand the solver the exact term they hold.

  lemma ProductPositive(a: real, b: real, p: real)
    requires a > 0.0 && b > 0.0 && p == a * b
    ensures p > 0.0
  {
  }

  lemma ProductNonNegative(a: real, b: real, p: real)
    requires a >= 0.0 && b >= 0.0 && p == a * b
    ensures p >= 0.0
  {
  }

  lemma QuotientNonNegative(a: real, b: real, q: real)
    requires a >= 0.0 && b > 0.0 && q == a / b
    ensures q >= 0.0
  {
  }

  lemma QuotientPositive(a: real, b: real, q: real)
    requires a > 0.0 && b > 0.0 && q == a / b
    ensures q > 0.0
  {
  }

  lemma QuotientAtMostOne(a: real, b: real, q: real)
    requires 0.0 <= a <= b && b > 0.0 && q == a / b
    ensures q <= 1.0
  {
  }

  /** A non-negative part of a positive total of two non-negative parts is a proportion. */
  lemma ShareOfTotal(m: MathLib, a: real, b: real)
    requires Sound(m) && a >= 0.0 && b >= 0.0 && a + b > 0.0
    ensures 0.0 <= m.divide(a, a + b) <= 1.0
  {
    var q := m.divide(a, a + b);
    QuotientNonNegative(a, a + b, q);
    QuotientAtMostOne(a, a + b, q);
  }

  /** A platform quotient of a non-negative total by a positive count is non-negative, and times the count gives the total back. */
  lemma DivideByCount(m: MathLib, total: real, n: real)
    requires Sound(m) && n > 0.0 && total >= 0.0
    ensures m.divide(total, n) >= 0.0 && n * m.divide(total, n) == total
  {
    QuotientNonNegative(total, n, m.divide(total, n));
    QuotientTimes(m.divide(total, n), total, n);
  }

  lemma DifferenceOfQuotients(a: real, b: real, d: real)
    requires d != 0.0
    ensures a / d - b / d == (a - b) / d
  {
  }

  lemma QuotientOfSelf(a: real, q: real)
    requires a != 0.0 && q == a / a
    ensures q == 1.0
  {
  }

  lemma AtLeastOne(s: real, n: real)
    requires n > 0.0 && s >= n * 1.0
    ensures s / n >= 1.0
  {
  }

  /** A quotient times its divisor gives back the dividend. */
  lemma QuotientTimes(q: real, a: real, b: real)
    requires b != 0.0 && q == a / b
    ensures q * b == a && b * q == a
  {
  }

  lemma RatioAgainstOne(q: real, a: real, b: real)
    requires b > 0.0 && q == a / b
    ensures q > 1.0 <==> a > b
    ensures q == 1.0 <==> a == b
  {
  }

  lemma NoneTimes(k: real, m: real)
    requires k == 0.0
    ensures k * m == 0.0
  {
  }

  /** Adding `more` to a count adds `more` copies of m. */
  lemma MoreTimes(k: real, count: real, more: real, m: real)
    requires count == k + more
    ensures count * m == k * m + more * m
  {
  }

  /** Dividing n copies of c by n gives c back. */
  lemma QuotientOfMultiple(s: real, n: real, c: real)
    requires n != 0.0 && s == n * c
    ensures s / n == c
  {
  }

  lemma AtMost(s: real, n: real, c: real)
    requires n > 0.0 && s <= n * c
    ensures s / n <= c
  {
  }

  /** w copies of c + 1 are w copies of c and one more w. */
  lemma Distribute(w: int, c: int)
    ensures w * (c + 1) == w * c + w
  {
  }
}
