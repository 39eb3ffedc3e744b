/** Numeric helpers shared by the geometry, pyramid and viewport models:
    `Math.min`/`Math.max`, `Math.floor`/`Math.ceil`, Python's `int()`,
    integer powers and the host's transcendental functions,
    which are passed in as a record because they have no exact real form. */
module Numerics {

  function Min(a: real, b: real): (m: real)
    ensures m <= a && m <= b && (m == a || m == b)
  {
    if a <= b then a else b
  }

  function Max(a: real, b: real): (m: real)
    ensures m >= a && m >= b && (m == a || m == b)
  {
    if a >= b then a else b
  }

  function MinInt(a: int, b: int): (m: int)
    ensures m <= a && m <= b && (m == a || m == b)
  {
    if a <= b then a else b
  }

  function MaxInt(a: int, b: int): (m: int)
    ensures m >= a && m >= b && (m == a || m == b)
  {
    if a >= b then a else b
  }

  /** `Math.floor`: the largest integer not above `x`. */
  function Floor(x: real): (f: int)
    ensures f as real <= x < f as real + 1.0
  {
    x.Floor
  }

  /** `Math.ceil`: the smallest integer not below `x`. */
  function Ceil(x: real): (c: int)
    ensures x <= c as real < x + 1.0
  {
    -((-x).Floor)
  }

  /** Python's `int()` on a float: truncation toward zero. */
  function Trunc(x: real): (t: int)
    ensures x >= 0.0 ==> t == Floor(x)
    ensures x < 0.0 ==> t == Ceil(x)
  {
    if x >= 0.0 then x.Floor else -((-x).Floor)
  }

  lemma FloorMonotone(x: real, y: real)
    requires x <= y
    ensures Floor(x) <= Floor(y)
  {
  }

  /** `Math.pow(b, k)` for an integer exponent `k`, computed exactly. */
  function Power(b: real, k: int): (r: real)
    requires b > 0.0
    ensures r > 0.0
    decreases if k < 0 then -k else k
  {
    if k == 0 then 1.0
    else if k > 0 then b * Power(b, k - 1)
    else Power(b, k + 1) / b
  }

  /** One more factor of the base, whatever the sign of the exponent. */
  lemma PowerStep(b: real, k: int)
    requires b > 0.0
    ensures Power(b, k + 1) == b * Power(b, k)
  {
    if k < 0 {
      assert Power(b, k) == Power(b, k + 1) / b;
    }
  }

  /** A base above one raised to a natural power is at least one. */
  lemma {:induction false} PowerAtLeastOne(b: real, k: int)
    requires b >= 1.0 && k >= 0
    ensures Power(b, k) >= 1.0
    decreases k
  {
    if k > 0 {
      PowerAtLeastOne(b, k - 1);
      assert Power(b, k) == b * Power(b, k - 1);
      assert b * Power(b, k - 1) >= 1.0 * Power(b, k - 1);
    }
  }

  /** A base above one raised to a negative power is below one. */
  lemma {:induction false} PowerBelowOne(b: real, k: int)
    requires b > 1.0 && k < 0
    ensures Power(b, k) < 1.0
    decreases -k
  {
    if k == -1 {
      assert Power(b, 0) == 1.0;
      assert Power(b, -1) == 1.0 / b;
    } else {
      PowerBelowOne(b, k + 1);
      assert Power(b, k) == Power(b, k + 1) / b;
    }
  }

  /** For a base above one, raising the exponent never lowers the power. */
  lemma {:induction false} PowerMonotone(b: real, j: int, k: int)
    requires b > 1.0 && j <= k
    ensures Power(b, j) <= Power(b, k)
    decreases k - j
  {
    if j < k {
      PowerMonotone(b, j + 1, k);
      PowerIncreasingStep(b, j);
    }
  }

  /** For a base above one, each extra factor strictly raises the power. */
  lemma PowerIncreasingStep(b: real, k: int)
    requires b > 1.0
    ensures Power(b, k) < Power(b, k + 1)
  {
    PowerStep(b, k);
    MultiplyAboveOne(b, Power(b, k), Power(b, k + 1));
  }

  /** Where a power of a base above one stands relative to one. */
  lemma PowerAgainstOne(b: real, k: int)
    requires b > 1.0
    ensures k == 0 ==> Power(b, k) == 1.0
    ensures k > 0 ==> Power(b, k) > 1.0
    ensures k < 0 ==> Power(b, k) < 1.0
  {
    if k > 0 {
      PowerAtLeastOne(b, k - 1);
      PowerIncreasingStep(b, k - 1);
    } else if k < 0 {
      PowerBelowOne(b, k);
    }
  }

  lemma MultiplyAboveOne(b: real, p: real, q: real)
    requires b > 1.0 && p > 0.0 && q == b * p
    ensures p < q
  {
    assert q - p == (b - 1.0) * p;
    assert (b - 1.0) * p > 0.0;
  }

  // *** Real algebra: small steps the solver does not find on its own when
  // other nonlinear terms are in scope

  lemma NonNegProduct(a: real, b: real)
    requires a >= 0.0 && b >= 0.0
    ensures a * b >= 0.0
  {
  }

  lemma PositiveProduct(a: real, b: real)
    requires a > 0.0 && b > 0.0
    ensures a * b > 0.0
  {
  }

  lemma ScaleBetween(t: real, d: real, p: real)
    requires 0.0 <= t <= 1.0 && d >= 0.0 && p == t * d
    ensures 0.0 <= p <= d
  {
    NonNegProduct(t, d);
    NonNegProduct(1.0 - t, d);
    assert d - t * d == (1.0 - t) * d;
  }

  /** A quotient of a part by its whole lies in [0, 1]. */
  lemma FractionInUnit(n: real, d: real)
    requires d > 0.0 && 0.0 <= n <= d
    ensures 0.0 <= n / d <= 1.0
  {
  }

  lemma QuotientTimes(n: real, d: real, q: real)
    requires d != 0.0 && q == n / d
    ensures q * d == n
  {
  }

  lemma CancelFactor(k: real, a: real, b: real)
    requires k != 0.0 && k * a == k * b
    ensures a == b
  {
    assert k * (a - b) == 0.0;
  }
  lemma ScaledCombination(i0: real, i1: real, i2: real, c0: real, c1: real, c2: real,
                          det: real, u: real, v: real, w: real)
    requires i0 * det == c0 && i1 * det == c1 && i2 * det == c2
    requires w == i0 * u + i1 * v + i2
    ensures det * w == c0 * u + c1 * v + c2
  {
    assert det * (i0 * u) == (i0 * det) * u;
    assert det * (i1 * v) == (i1 * det) * v;
  }
  lemma DistributeRow(k: real, r0: real, r1: real, r2: real, s: real, t: real)
    ensures k * (r0 * s + r1 * t + r2) == r0 * (k * s) + r1 * (k * t) + k * r2
  {
  }
  /** The adjugate's first row applied to the image (u, v) of (x, y). */
  lemma AdjugateRowX(a0: real, a1: real, a2: real, a3: real, a4: real, a5: real, det: real,
                     x: real, y: real, u: real, v: real)
    requires det == a0 * a4 - a1 * a3
    requires u == a0 * x + a1 * y + a2 && v == a3 * x + a4 * y + a5
    ensures a4 * u + (-a1) * v + (a1 * a5 - a2 * a4) == det * x
  {
  }
  lemma AdjugateRowY(a0: real, a1: real, a2: real, a3: real, a4: real, a5: real, det: real,
                     x: real, y: real, u: real, v: real)
    requires det == a0 * a4 - a1 * a3
    requires u == a0 * x + a1 * y + a2 && v == a3 * x + a4 * y + a5
    ensures (-a3) * u + a0 * v + -(a0 * a5 - a2 * a3) == det * y
  {
  }
  lemma RowAdjugateX(a0: real, a1: real, a2: real, a3: real, a4: real, a5: real, det: real,
                     x: real, y: real, p: real, q: real)
    requires det == a0 * a4 - a1 * a3
    requires p == a4 * x + (-a1) * y + (a1 * a5 - a2 * a4)
    requires q == (-a3) * x + a0 * y + -(a0 * a5 - a2 * a3)
    ensures a0 * p + a1 * q + det * a2 == det * x
  {
  }
  lemma RowAdjugateY(a0: real, a1: real, a2: real, a3: real, a4: real, a5: real, det: real,
                     x: real, y: real, p: real, q: real)
    requires det == a0 * a4 - a1 * a3
    requires p == a4 * x + (-a1) * y + (a1 * a5 - a2 * a4)
    requires q == (-a3) * x + a0 * y + -(a0 * a5 - a2 * a3)
    ensures a3 * p + a4 * q + det * a5 == det * y
  {
  }
  lemma UndoAffine(a0: real, a1: real, a2: real, a3: real, a4: real, a5: real,
                   i0: real, i1: real, i2: real, i3: real, i4: real, i5: real, det: real,
                   x: real, y: real, u: real, v: real)
    requires det == a0 * a4 - a1 * a3 && det != 0.0
    requires i0 * det == a4 && i1 * det == -a1 && i2 * det == a1 * a5 - a2 * a4
    requires i3 * det == -a3 && i4 * det == a0 && i5 * det == -(a0 * a5 - a2 * a3)
    requires u == a0 * x + a1 * y + a2 && v == a3 * x + a4 * y + a5
    ensures i0 * u + i1 * v + i2 == x
    ensures i3 * u + i4 * v + i5 == y
  {
    ScaledCombination(i0, i1, i2, a4, -a1, a1 * a5 - a2 * a4, det, u, v, i0 * u + i1 * v + i2);
    ScaledCombination(i3, i4, i5, -a3, a0, -(a0 * a5 - a2 * a3), det, u, v, i3 * u + i4 * v + i5);
    AdjugateRowX(a0, a1, a2, a3, a4, a5, det, x, y, u, v);
    AdjugateRowY(a0, a1, a2, a3, a4, a5, det, x, y, u, v);
    CancelFactor(det, i0 * u + i1 * v + i2, x);
    CancelFactor(det, i3 * u + i4 * v + i5, y);
  }
  lemma RedoAffine(a0: real, a1: real, a2: real, a3: real, a4: real, a5: real,
                   i0: real, i1: real, i2: real, i3: real, i4: real, i5: real, det: real,
                   x: real, y: real, s: real, t: real)
    requires det == a0 * a4 - a1 * a3 && det != 0.0
    requires i0 * det == a4 && i1 * det == -a1 && i2 * det == a1 * a5 - a2 * a4
    requires i3 * det == -a3 && i4 * det == a0 && i5 * det == -(a0 * a5 - a2 * a3)
    requires s == i0 * x + i1 * y + i2 && t == i3 * x + i4 * y + i5
    ensures a0 * s + a1 * t + a2 == x
    ensures a3 * s + a4 * t + a5 == y
  {
    ScaledCombination(i0, i1, i2, a4, -a1, a1 * a5 - a2 * a4, det, x, y, s);
    ScaledCombination(i3, i4, i5, -a3, a0, -(a0 * a5 - a2 * a3), det, x, y, t);
    DistributeRow(det, a0, a1, a2, s, t);
    DistributeRow(det, a3, a4, a5, s, t);
    RowAdjugateX(a0, a1, a2, a3, a4, a5, det, x, y, det * s, det * t);
    RowAdjugateY(a0, a1, a2, a3, a4, a5, det, x, y, det * s, det * t);
    CancelFactor(det, a0 * s + a1 * t + a2, x);
    CancelFactor(det, a3 * s + a4 * t + a5, y);
  }

  /** JavaScript evaluates `a * b / c` left to right; over the reals that
      is `a` times the quotient. */
  lemma ProductOverQuotient(a: real, b: real, c: real)
    requires c != 0.0
    ensures a * b / c == a * (b / c)
  {
  }

  /** Remainder of a value below twice the modulus. */
  lemma ModBelowTwice(x: int, n: int)
    requires n > 0 && 0 <= x < 2 * n
    ensures x % n == if x < n then x else x - n
  {
    if x >= n {
      assert x == n + (x - n);
    }
  }

  /** Bounds of `Math.floor(x / e)` for a positive divisor. */
  lemma FloorOfQuotient(x: real, e: real, f: int)
    requires e > 0.0 && f == Floor(x / e)
    ensures (f as real) * e <= x < ((f + 1) as real) * e
  {
    var q := x / e;
    assert q * e == x;
    assert f as real <= q < f as real + 1.0;
    var lo, hi := f as real, (f + 1) as real;
    ScaleOrder(lo, q, e);
    ScaleOrder(q, hi, e);
    assert q < hi;
    assert q * e < hi * e;
    assert x < hi * e;
  }

  /** Bounds of `Math.ceil(x / e)` for a positive divisor: the least count
      of `e`-wide steps that covers `x`. */
  lemma CeilOfQuotient(x: real, e: real, c: int)
    requires e > 0.0 && c == Ceil(x / e)
    ensures x <= (c as real) * e && ((c - 1) as real) * e < x
  {
    var q := x / e;
    assert q * e == x;
    assert q <= c as real < q + 1.0;
    var lo, hi := (c - 1) as real, c as real;
    ScaleOrder(q, hi, e);
    ScaleOrder(lo, q, e);
    assert lo < q && q <= hi;
    assert lo * e < q * e && q * e <= hi * e;
    assert lo * e < x && x <= hi * e;
  }

  /** Multiplying by a positive factor keeps (strict) order. */
  lemma ScaleOrder(a: real, b: real, e: real)
    requires e > 0.0
    ensures a <= b ==> a * e <= b * e
    ensures a < b ==> a * e < b * e
  {
    assert b * e - a * e == (b - a) * e;
  }

  /** `q >= n / d` with a positive `d` is `q * d >= n`, and likewise for a
      strict bound. */
  lemma QuotientBound(q: real, n: real, d: real)
    requires d > 0.0
    ensures q >= n / d <==> q * d >= n
    ensures q < n / d <==> q * d < n
  {
    var r := n / d;
    assert r * d == n;
    ScaleOrder(q, r, d);
    ScaleOrder(r, q, d);
  }

  /** Dividing by a negative number reverses order. */
  lemma DivideByNegative(a: real, b: real, d: real)
    requires d < 0.0 && a <= b
    ensures a / d >= b / d
  {
    var x, y := a / d, b / d;
    assert x * d == a && y * d == b;
    if x < y {
      ScaleOrder(x, y, -d);
    }
  }

  /** A multiple divided by its factor. */
  lemma QuotientOfMultiple(k: real, l: real)
    requires l != 0.0
    ensures (k * l) / l == k
  {
  }

  // *** The host's transcendental functions

  /** The values of `Math.log`, `Math.SQRT2`/`Math.sqrt(2)`, `Math.cos`,
      `Math.sin` and `Math.PI` that the source relies on. They are not exact
      reals, so the model takes them as parameters and assumes only the facts
      stated by `ValidMath`. */
  datatype HostMath = HostMath(
    ln: real -> real,
    sqrt2: real,
    cos: real -> real,
    sin: real -> real,
    pi: real)

  /** The natural logarithm is zero at one, strictly increasing, and turns
      products of positive numbers into sums. */
  ghost predicate LogIncreasing(ln: real -> real)
  {
    && (forall a: real, b: real :: 0.0 < a < b ==> ln(a) < ln(b))
    && LogOfProduct(ln)
  }

  ghost predicate LogOfProduct(ln: real -> real)
  {
    && ln(1.0) == 0.0
    && (forall a: real, b: real :: 0.0 < a && 0.0 < b ==> ln(Times(a, b)) == ln(a) + ln(b))
  }

  /** Multiplication as a function, so the product law above has a term to
      match on. */
  function Times(a: real, b: real): real
  {
    a * b
  }

  ghost predicate ValidMath(m: HostMath)
  {
    && m.sqrt2 > 1.0
    && m.sqrt2 * m.sqrt2 == 2.0
    && LogIncreasing(m.ln)
    && (forall x: real :: m.cos(x) * m.cos(x) + m.sin(x) * m.sin(x) == 1.0)
    && m.pi > 3.0
  }

  /** The logarithm keeps the order of positive arguments. */
  lemma LogMonotone(m: HostMath, a: real, b: real)
    requires ValidMath(m) && 0.0 < a <= b
    ensures m.ln(a) <= m.ln(b)
  {
  }

  /** The logarithm reflects order: a smaller logarithm means a smaller
      argument. */
  lemma LogReflectsOrder(m: HostMath, a: real, b: real)
    requires ValidMath(m) && 0.0 < a && 0.0 < b && m.ln(a) <= m.ln(b)
    ensures a <= b
  {
    assert b < a ==> m.ln(b) < m.ln(a);
  }

  /** A strictly smaller logarithm means a strictly smaller argument. */
  lemma LogReflectsStrictOrder(m: HostMath, a: real, b: real)
    requires ValidMath(m) && 0.0 < a && 0.0 < b && m.ln(a) < m.ln(b)
    ensures a < b
  {
    assert b < a ==> m.ln(b) < m.ln(a);
  }

  /** The logarithm of a product of positive numbers. */
  lemma LogProduct(m: HostMath, a: real, b: real)
    requires LogOfProduct(m.ln) && 0.0 < a && 0.0 < b
    ensures m.ln(a * b) == m.ln(a) + m.ln(b)
  {
    assert m.ln(Times(a, b)) == m.ln(a) + m.ln(b);
  }

  /** The logarithm of an integer power is the exponent times the
      logarithm of the base. */
  lemma LogPower(m: HostMath, b: real, k: int)
    requires LogOfProduct(m.ln) && b > 0.0
    ensures m.ln(Power(b, k)) == k as real * m.ln(b)
  {
    if k >= 0 {
      LogPowerUp(m, b, k);
    } else {
      LogPowerDown(m, b, k);
    }
  }

  lemma {:induction false} LogPowerUp(m: HostMath, b: real, k: nat)
    requires LogOfProduct(m.ln) && b > 0.0
    ensures m.ln(Power(b, k)) == k as real * m.ln(b)
  {
    if k == 0 {
      assert Power(b, 0) == 1.0;
    } else {
      var p, q := Power(b, k - 1), Power(b, k);
      LogPowerUp(m, b, k - 1);
      PowerStep(b, k - 1);
      LogProduct(m, b, p);
      assert q == b * p;
      assert m.ln(q) == m.ln(b * p);
      LogStep(m.ln(q), m.ln(b), m.ln(p), k - 1);
    }
  }

  lemma {:induction false} LogPowerDown(m: HostMath, b: real, k: int)
    requires LogOfProduct(m.ln) && b > 0.0 && k <= 0
    ensures m.ln(Power(b, k)) == k as real * m.ln(b)
    decreases -k
  {
    if k == 0 {
      assert Power(b, 0) == 1.0;
    } else {
      var p, q := Power(b, k), Power(b, k + 1);
      LogPowerDown(m, b, k + 1);
      PowerStep(b, k);
      LogProduct(m, b, p);
      assert q == b * p;
      assert m.ln(q) == m.ln(b * p);
      LogStep(m.ln(q), m.ln(b), m.ln(p), k);
    }
  }

  /** One more factor adds one more logarithm of the base. */
  lemma LogStep(lnq: real, lnb: real, lnp: real, k: int)
    requires lnq == lnb + lnp
    ensures lnp == k as real * lnb <==> lnq == (k + 1) as real * lnb
  {
    assert (k + 1) as real * lnb == k as real * lnb + lnb;
  }

  /** The logarithm of a reciprocal is the negated logarithm. */
  lemma LogReciprocal(m: HostMath, a: real)
    requires LogOfProduct(m.ln) && a > 0.0
    ensures m.ln(1.0 / a) == -m.ln(a)
  {
    var r := 1.0 / a;
    LogProduct(m, a, r);
    assert a * r == 1.0;
    assert m.ln(a * r) == m.ln(1.0);
  }

  /** The sign of a logarithm tells where its argument stands against one. */
  lemma LogSign(m: HostMath, b: real)
    requires ValidMath(m) && b > 0.0
    ensures m.ln(b) > 0.0 <==> b > 1.0
    ensures m.ln(b) == 0.0 <==> b == 1.0
    ensures m.ln(b) < 0.0 <==> b < 1.0
  {
    assert m.ln(1.0) == 0.0;
    assert b < 1.0 ==> m.ln(b) < m.ln(1.0);
    assert 1.0 < b ==> m.ln(1.0) < m.ln(b);
  }
}
