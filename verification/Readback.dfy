/** Rounding a fraction to significant decimal digits in integer arithmetic. */
module Readback {

  function Pow10(k: nat): (r: nat)
    ensures r >= 1
  {
    if k == 0 then 1 else 10 * Pow10(k - 1)
  }

  /** Numerator and denominator of `num / den * 10^shift`. */
  function Scaled(num: nat, den: nat, shift: int): (r: (nat, nat))
    requires den > 0
    ensures r.1 > 0
  {
    if shift >= 0 then (num * Pow10(shift), den) else
      assert den * Pow10(-shift) >= 1;
      (num, den * Pow10(-shift))
  }

  /** One place to the left multiplies by ten. */
  lemma ScaledStep(num: nat, den: nat, shift: int)
    requires den > 0
    ensures Scaled(num, den, shift + 1).0 * Scaled(num, den, shift).1 ==
      10 * (Scaled(num, den, shift).0 * Scaled(num, den, shift + 1).1)
  {
    if shift >= 0 {
      var p := Pow10(shift);
      assert Pow10(shift + 1) == 10 * p;
      assert num * (10 * p) * den == 10 * (num * p * den);
    } else if shift == -1 {
      assert Pow10(1) == 10 * Pow10(0);
      assert Pow10(0) == 1;
      assert num * 1 * (den * 10) == 10 * (num * den);
    } else {
      var p := Pow10(-shift - 1);
      assert Pow10(-shift) == 10 * p;
      assert num * (den * (10 * p)) == 10 * (num * (den * p));
    }
  }

  /** `num / den * 10^shift` */
  ghost function Value(num: nat, den: nat, shift: int): real
    requires den > 0
  {
    var (a, b) := Scaled(num, den, shift);
    a as real / b as real
  }

  lemma ValueStep(num: nat, den: nat, shift: int)
    requires den > 0
    ensures Value(num, den, shift + 1) == 10.0 * Value(num, den, shift)
  {
    hide Scaled;
    ScaledStep(num, den, shift);
    var (a, b) := Scaled(num, den, shift);
    var (a', b') := Scaled(num, den, shift + 1);
    TenTimes(a, b, a', b');
  }

  lemma TenTimes(a: nat, b: nat, a': nat, b': nat)
    requires b > 0 && b' > 0 && a' * b == 10 * (a * b')
    ensures a' as real / b' as real == 10.0 * (a as real / b as real)
  {
    var x, y := a as real / b as real, a' as real / b' as real;
    assert x * b as real == a as real && y * b' as real == a' as real;
    assert (a' * b) as real == (y * b' as real) * b as real;
    assert (10 * (a * b')) as real == 10.0 * ((x * b as real) * b' as real);
    Cancel(y, 10.0 * x, b as real * b' as real);
    assert y * (b as real * b' as real) == (y * b' as real) * b as real;
    assert 10.0 * x * (b as real * b' as real) == 10.0 * ((x * b as real) * b' as real);
  }

  lemma Cancel(x: real, y: real, z: real)
    requires z > 0.0
    ensures x * z == y * z ==> x == y
  {
    if x * z == y * z {
      assert (x - y) * z == 0.0;
    }
  }

  /** Division with remainder, as a value and its fractional part. */
  lemma DivisionIsFloor(a: nat, b: nat)
    requires b > 0
    ensures var x := a as real / b as real;
      && (a / b) as real <= x < (a / b) as real + 1.0
      && (2 * (a % b) > b <==> x - (a / b) as real > 0.5)
      && (2 * (a % b) == b <==> x - (a / b) as real == 0.5)
  {
    var q, r := a / b, a % b;
    var x, f, z := a as real / b as real, r as real / b as real, b as real;
    WholeAndPart(a, b, q, r, x, f, z);
    SignOfProduct(f, z);
    SignOfProduct(1.0 - f, z);
    SignOfProduct(2.0 * f - 1.0, z);
    Spread(f, z);
  }

  lemma WholeAndPart(a: nat, b: nat, q: nat, r: nat, x: real, f: real, z: real)
    requires b > 0 && a == q * b + r && z == b as real && x * z == a as real && f * z == r as real
    ensures x == q as real + f
  {
    assert (q * b) as real == q as real * z;
    assert (q as real + f) * z == q as real * z + f * z;
    Cancel(x, q as real + f, z);
  }

  lemma Spread(f: real, z: real)
    ensures (1.0 - f) * z == z - f * z
    ensures (2.0 * f - 1.0) * z == 2.0 * (f * z) - z
  {
  }

  lemma SignOfProduct(x: real, z: real)
    requires z > 0.0
    ensures x * z > 0.0 <==> x > 0.0
    ensures x * z == 0.0 <==> x == 0.0
  {
  }

  // ----- the search for the shift

  /** The shift whose quotient has the asked number of digits. */
  ghost predicate InRange(num: nat, den: nat, shift: int, digits: nat)
    requires den > 0 && digits > 0
  {
    Pow10(digits - 1) as real <= Value(num, den, shift) < Pow10(digits) as real
  }

  method Divide(num: nat, den: nat, shift: int) returns (q: nat, r: nat, divisor: nat)
    requires den > 0
    ensures divisor > 0
    ensures q as real <= Value(num, den, shift) < q as real + 1.0
    ensures 2 * r > divisor <==> Value(num, den, shift) - q as real > 0.5
    ensures 2 * r == divisor <==> Value(num, den, shift) - q as real == 0.5
  {
    var (a, b) := Scaled(num, den, shift);
    DivisionIsFloor(a, b);
    q, r, divisor := a / b, a % b, b;
  }

  /** How far a quotient below range still has to climb. */
  ghost function Climb(num: nat, den: nat, shift: int, lower: nat): (nat, int)
    requires den > 0
  {
    if shift < 0 then (-shift, 0) else (0, lower * den - num * Pow10(shift))
  }

  lemma ClimbFalls(num: nat, den: nat, shift: int, lower: nat)
    requires num > 0 && den > 0 && Value(num, den, shift) < lower as real
    ensures shift < 0 ==> Climb(num, den, shift + 1, lower).0 < Climb(num, den, shift, lower).0
    ensures shift >= 0 ==>
      && Climb(num, den, shift + 1, lower).0 == 0 == Climb(num, den, shift, lower).0
      && Climb(num, den, shift + 1, lower).1 < Climb(num, den, shift, lower).1
      && Climb(num, den, shift, lower).1 >= 0
  {
    if shift >= 0 {
      var a := num * Pow10(shift);
      assert num * Pow10(shift + 1) == 10 * a;
      assert a >= 1;
      var x := a as real / den as real;
      assert x * den as real == a as real;
      assert x * den as real < lower as real * den as real;
      assert (lower * den) as real == lower as real * den as real;
    }
  }

  method FindShift(num: nat, den: nat, digits: nat, start: int) returns (shift: int, q: nat, r: nat, divisor: nat)
    requires num > 0 && den > 0 && digits > 0
    ensures InRange(num, den, shift, digits)
    ensures divisor > 0 && Pow10(digits - 1) <= q < Pow10(digits)
    ensures q as real <= Value(num, den, shift) < q as real + 1.0
    ensures 2 * r > divisor <==> Value(num, den, shift) - q as real > 0.5
    ensures 2 * r == divisor <==> Value(num, den, shift) - q as real == 0.5
  {
    hide Value, Climb;
    var lower, upper := Pow10(digits - 1), Pow10(digits);
    assert upper == 10 * lower;
    shift := start;
    q, r, divisor := Divide(num, den, shift);
    while q >= upper || q < lower
      invariant divisor > 0
      invariant q as real <= Value(num, den, shift) < q as real + 1.0
      invariant 2 * r > divisor <==> Value(num, den, shift) - q as real > 0.5
      invariant 2 * r == divisor <==> Value(num, den, shift) - q as real == 0.5
      decreases if q >= upper then 1 else 0,
                if q >= upper then q else Climb(num, den, shift, lower).0,
                if q >= upper then 0 else Climb(num, den, shift, lower).1
    {
      if q >= upper {
        ValueStep(num, den, shift - 1);
        shift := shift - 1;
      } else {
        ValueStep(num, den, shift);
        ClimbFalls(num, den, shift, lower);
        shift := shift + 1;
      }
      q, r, divisor := Divide(num, den, shift);
    }
  }

  // ----- the rounded decimal

  /** `mantissa * 10^-shift`, with a sign. */
  datatype Decimal = Zero | Decimal(negative: bool, mantissa: nat, shift: int)

  function Abs(x: int): nat { if x < 0 then -x else x }

  ghost function Distance(x: real, y: real): real { if x < y then y - x else x - y }

  /** Exactly `digits` digits, within half a unit in the last place, ties to even. */
  ghost predicate Rounds(num: nat, den: nat, digits: nat, mantissa: nat, shift: int)
    requires den > 0 && digits > 0
  {
    var x := Value(num, den, shift);
    && Pow10(digits - 1) <= mantissa < Pow10(digits)
    && Distance(x, mantissa as real) <= 0.5
    && (Distance(x, mantissa as real) == 0.5 ==> mantissa % 2 == 0)
  }

  /** Round `numerator / denominator` to significant digits; `estimate` is any first guess of its magnitude. */
  method ReadbackString(numerator: int, denominator: nat, digits: nat, estimate: int) returns (d: Decimal)
    requires denominator > 0 && digits > 0
    ensures d == Zero <==> numerator == 0
    ensures d.Decimal? ==> (d.negative <==> numerator < 0)
    ensures d.Decimal? ==> Rounds(Abs(numerator), denominator, digits, d.mantissa, d.shift)
  {
    hide Value;
    if numerator == 0 {
      return Zero;
    }
    var num, den := Abs(numerator), denominator;
    var shift, q, r, divisor := FindShift(num, den, digits, digits - 1 - estimate);
    var upper := Pow10(digits);
    assert upper == 10 * Pow10(digits - 1);
    var twice := 2 * r;
    if twice > divisor || (twice == divisor && q % 2 == 1) {
      q := q + 1;
      if q == upper {
        ValueStep(num, den, shift - 1);
        q := q / 10;
        shift := shift - 1;
      }
    }
    d := Decimal(numerator < 0, q, shift);
  }

  // ----- prediction

  /** The fraction `n / d` is `mantissa * 10^-shift`. */
  ghost predicate ReadsPositive(mantissa: nat, shift: int, n: int, d: nat)
  {
    d > 0 && if shift >= 0 then n * Pow10(shift) == mantissa * d else n == mantissa * Pow10(-shift) * d
  }

  /** The fraction `n / d` is the decimal. */
  ghost predicate Reads(x: Decimal, n: int, d: nat)
  {
    match x
    case Zero => n == 0 && d > 0
    case Decimal(negative, mantissa, shift) => ReadsPositive(mantissa, shift, if negative then -n else n, d)
  }

  /** The integer test of an observed value `n / d` against a predicted one, at relative tolerance `1 / scale`. */
  predicate WithinTolerance(n: int, d: nat, num: int, den: int, scale: nat)
  {
    if num == 0 then n == 0 else Abs(n * den - num * d) * scale <= Abs(num * d)
  }

  /** Half a unit in the last place, as integers. */
  lemma RoundsAsIntegers(a: nat, b: nat, q: nat)
    requires b > 0 && Distance(a as real / b as real, q as real) <= 0.5
    ensures 2 * Abs(q * b - a) <= b
  {
    var x, z := a as real / b as real, b as real;
    QuotientTimes(a, b);
    HalfUnit(a, b, q, x, z, x - q as real);
    assert -(a - q * b) == q * b - a;
  }

  lemma QuotientTimes(a: nat, b: nat)
    requires b > 0
    ensures a as real / b as real * b as real == a as real
  {
  }

  lemma HalfUnit(a: nat, b: nat, q: nat, x: real, z: real, u: real)
    requires b > 0 && z == b as real && x * z == a as real && u == x - q as real && -0.5 <= u <= 0.5
    ensures 2 * Abs(-(a - q * b)) <= b
  {
    var p, n := u * z, a - q * b;
    Bounded(u, z, p);
    Difference(a, b, q, x, z, p);
    HalfAsIntegers(n, b);
  }

  lemma HalfAsIntegers(n: int, b: nat)
    requires -0.5 * b as real <= n as real <= 0.5 * b as real
    ensures 2 * Abs(n) <= b && 2 * Abs(-n) <= b
  {
    assert (2 * n) as real <= b as real && -(b as real) <= (2 * n) as real;
  }

  lemma Difference(a: nat, b: nat, q: nat, x: real, z: real, p: real)
    requires b > 0 && z == b as real && x * z == a as real && p == (x - q as real) * z
    ensures p == (a - q * b) as real
  {
    assert (q * b) as real == q as real * z;
    assert (x - q as real) * z == x * z - q as real * z;
  }

  lemma Bounded(u: real, z: real, p: real)
    requires z > 0.0 && -0.5 <= u <= 0.5 && p == u * z
    ensures -0.5 * z <= p <= 0.5 * z
  {
    assert (u + 0.5) * z >= 0.0 && (0.5 - u) * z >= 0.0;
  }

  /** With enough digits, half a unit in the last place is within the tolerance. */
  lemma ErrorIsSmall(a: nat, b: nat, q: nat, scale: nat, e: nat)
    requires b > 0 && scale > 0 && q >= 100 * scale && e == Abs(q * b - a) && 2 * e <= b
    ensures e * scale <= a
  {
    var qb, sb, es := q * b, scale * b, e * scale;
    Monotone(100 * scale, q, b);
    Monotone(2 * e, b, scale);
    Monotone(1, scale, b);
    Regroup(scale, b, e);
    assert qb >= 100 * sb && 2 * es <= sb && sb >= b;
  }

  lemma Regroup(scale: int, b: int, e: int)
    ensures 100 * scale * b == 100 * (scale * b) && 2 * e * scale == 2 * (e * scale) && b * scale == scale * b
  {
  }

  lemma ScaleDown(x: int, y: int, t: int)
    requires t > 0 && x * t <= y * t
    ensures x <= y
  {
  }

  lemma AbsTimes(x: int, t: nat)
    ensures Abs(x) * t == Abs(x * t)
  {
    if x < 0 {
      assert -x * t == -(x * t);
      assert x * t <= 0;
    } else {
      assert x * t >= 0;
    }
  }

  lemma Monotone(x: int, y: int, t: nat)
    requires x <= y
    ensures x * t <= y * t
  {
  }

  lemma ErrorAfterShift(lhs: nat, scale: nat, t: nat, e: nat, d: nat, num: nat, a: nat)
    requires lhs * t == e * d && e * scale <= a && num * t == a && t > 0
    ensures lhs * scale <= num * d
  {
    Monotone(e * scale, a, d);
    assert lhs * scale * t == lhs * t * scale;
    assert e * d * scale == e * scale * d;
    assert num * d * t == num * t * d;
    ScaleDown(lhs * scale, num * d, t);
  }

  lemma ErrorInPlace(lhs: nat, scale: nat, e: nat, d: nat, a: nat)
    requires lhs == e * d && e * scale <= a
    ensures lhs * scale <= a * d
  {
    Monotone(e * scale, a, d);
    assert e * d * scale == e * scale * d;
  }

  lemma DigitsAreEnough(digits: nat)
    requires digits >= 3
    ensures Pow10(digits - 1) == 100 * Pow10(digits - 3)
  {
    assert Pow10(digits - 1) == 10 * Pow10(digits - 2) && Pow10(digits - 2) == 10 * Pow10(digits - 3);
  }

  lemma PositivePrediction(num: nat, den: nat, digits: nat, mantissa: nat, shift: int, n: int, d: nat)
    requires num > 0 && den > 0 && digits >= 3 && Rounds(num, den, digits, mantissa, shift)
    requires ReadsPositive(mantissa, shift, n, d)
    ensures Abs(n * den - num * d) * Pow10(digits - 3) <= num * d
  {
    hide Abs, Distance, Pow10;
    var (a, b) := Scaled(num, den, shift);
    var scale, q := Pow10(digits - 3), mantissa;
    DigitsAreEnough(digits);
    RoundsAsIntegers(a, b, q);
    var e, lhs := Abs(q * b - a), Abs(n * den - num * d);
    ErrorIsSmall(a, b, q, scale, e);
    AbsTimes(q * b - a, d);
    if shift >= 0 {
      var t := Pow10(shift);
      AbsTimes(n * den - num * d, t);
      NonnegativeShift(n, den, num, d, t, q);
      ErrorAfterShift(lhs, scale, t, e, d, num, a);
    } else {
      NegativeShift(n, den, num, d, Pow10(-shift), q);
      ErrorInPlace(lhs, scale, e, d, a);
    }
  }

  lemma NonnegativeShift(n: int, den: int, num: int, d: int, t: int, q: int)
    requires n * t == q * d
    ensures (n * den - num * d) * t == (q * den - num * t) * d
  {
    assert n * den * t == n * t * den;
    assert q * d * den == q * den * d;
    assert num * d * t == num * t * d;
  }

  lemma NegativeShift(n: int, den: int, num: int, d: int, t: int, q: int)
    requires n == q * t * d
    ensures n * den - num * d == (q * (den * t) - num) * d
  {
    assert q * t * d * den == q * (den * t) * d;
  }

  /** The readback of the true value always passes the prediction test. */
  lemma PredictionPasses(num: int, den: nat, digits: nat, x: Decimal, n: int, d: nat)
    requires den > 0 && digits >= 3
    requires x == Zero <==> num == 0
    requires x.Decimal? ==> (x.negative <==> num < 0) && Rounds(Abs(num), den, digits, x.mantissa, x.shift)
    requires Reads(x, n, d)
    ensures WithinTolerance(n, d, num, den, Pow10(digits - 3))
  {
    hide Rounds, ReadsPositive, Pow10;
    if num > 0 {
      PositivePrediction(num, den, digits, x.mantissa, x.shift, n, d);
      assert num * d >= 0;
    } else if num < 0 {
      PositivePrediction(-num, den, digits, x.mantissa, x.shift, -n, d);
      Mirror(n, den, num, d);
    }
  }

  lemma Mirror(n: int, den: nat, num: int, d: nat)
    requires num < 0
    ensures Abs(n * den - num * d) == Abs(-n * den - -num * d) && Abs(num * d) == -num * d
  {
    assert -n * den == -(n * den) && -num * d == -(num * d);
    assert -num * d >= 0;
  }
}
