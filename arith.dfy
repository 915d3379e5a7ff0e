/** Python 2 number conversions used by the heatmap code, and the facts about
    floor division that the block partition rests on. */
module Arith {

  /** Python's `int()` applied to a float: truncation toward zero. */
  function Truncate(x: real): (n: int)
    ensures 0.0 <= x ==> 0 <= n && n as real <= x < n as real + 1.0
    ensures x < 0.0 ==> n <= 0 && n as real - 1.0 < x <= n as real
  {
    if x >= 0.0 then x.Floor else -((-x).Floor)
  }

  /** Python 2's built-in `round()`: nearest integer, halves away from zero. */
  function RoundHalfAway(x: real): (n: int)
    ensures 0.0 <= x ==> x - 0.5 < n as real <= x + 0.5
    ensures x < 0.0 ==> x - 0.5 <= n as real < x + 0.5
  {
    if x >= 0.0 then (x + 0.5).Floor else -((-x + 0.5).Floor)
  }

  /** Python 2's `a / n` on non-negative integers is the floor of the real quotient
      (and so is Dafny's Euclidean `/` for a positive divisor). */
  lemma DivIsFloor(a: int, n: int)
    requires n > 0
    ensures a / n == (a as real / n as real).Floor
  {
    var q, r := a / n, a % n;
    var x := a as real / n as real;
    assert a == n * q + r && 0 <= r < n;
    assert x * n as real == a as real;
    assert q as real * n as real <= a as real;
    assert a as real < (q as real + 1.0) * n as real;
    MulLeCancel(q as real, x, n as real);
    MulLtCancel(x, q as real + 1.0, n as real);
  }

  lemma MulLeCancel(a: real, b: real, n: real)
    requires n > 0.0 && a * n <= b * n
    ensures a <= b
  {
  }

  lemma MulLtCancel(a: real, b: real, n: real)
    requires n > 0.0 && a * n < b * n
    ensures a < b
  {
  }

  lemma MulMonotone(a: int, b: int, c: int)
    requires a <= b && c >= 0
    ensures a * c <= b * c
  {
    assert b * c - a * c == (b - a) * c;
  }

  lemma MulDivCancel(n: int, t: int)
    requires n > 0
    ensures (n * t) / n == t
  {
    DivIsFloor(n * t, n);
    assert (n * t) as real == n as real * t as real;
    assert (n * t) as real / n as real == t as real;
  }

  lemma MulSucc(i: int, t: int)
    ensures i * t + t == (i + 1) * t
  {
  }

  /** A fraction below one of a positive quantity is smaller than the quantity. */
  lemma FractionBelow(u: real, t: real)
    requires 0.0 <= u < 1.0 && t > 0.0
    ensures u * t < t
  {
    assert t - u * t == (1.0 - u) * t;
    PositiveProduct(1.0 - u, t);
  }

  lemma CastMul(a: int, b: int)
    ensures (a * b) as real == a as real * b as real
  {
  }

  /** An integer in [0, bound * n] divided by n, as reals, lies in [0, bound]. */
  lemma QuotientInRange(s: int, n: int, bound: int)
    requires n > 0 && 0 <= s <= bound * n
    ensures 0.0 <= s as real / n as real <= bound as real
  {
    CastMul(bound, n);
    var q := s as real / n as real;
    assert q * n as real == s as real;
    MulLeCancel(q, bound as real, n as real);
  }

  /** The integer product n * v, divided by n as reals, is v. */
  lemma MulDivCancelCast(n: int, v: int)
    requires n > 0
    ensures (n * v) as real / n as real == v as real
  {
    CastMul(n, v);
    MulDivCancelReal(n as real, v as real);
  }

  lemma MulDivCancelReal(n: real, k: real)
    requires n > 0.0
    ensures (n * k) / n == k
  {
  }

  /** The sign of a positive multiple. */
  lemma ScaleSign(factor: real, d: real)
    requires factor > 0.0
    ensures d < 0.0 ==> factor * d < 0.0
    ensures d > 0.0 ==> factor * d > 0.0
  {
    if d < 0.0 {
      PositiveProduct(factor, -d);
    } else if d > 0.0 {
      PositiveProduct(factor, d);
    }
  }

  lemma PositiveProduct(a: real, b: real)
    requires a > 0.0 && b > 0.0
    ensures a * b > 0.0
  {
  }

  lemma DivStrictMonotone(a: real, b: real, m: real)
    requires a < b && m > 0.0
    ensures a / m < b / m
  {
    MulLtCancel(a / m, b / m, m);
  }

  /** Floor division is superadditive: a / n + b / n <= (a + b) / n. */
  lemma DivSuperadditive(a: int, b: int, n: int)
    requires n > 0
    ensures a / n + b / n <= (a + b) / n
  {
    DivIsFloor(a, n);
    DivIsFloor(b, n);
    DivIsFloor(a + b, n);
    var x, y := a as real / n as real, b as real / n as real;
    assert x + y == (a + b) as real / n as real;
    assert x.Floor as real + y.Floor as real <= x + y;
  }

  /** Floor division is monotone in the dividend. */
  lemma DivMonotone(a: int, b: int, n: int)
    requires n > 0 && a <= b
    ensures a / n <= b / n
  {
    DivIsFloor(a, n);
    DivIsFloor(b, n);
    var x, y := a as real / n as real, b as real / n as real;
    assert x * n as real <= y * n as real;
    MulLeCancel(x, y, n as real);
  }
}
