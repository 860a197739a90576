/** Exact signs in `Z[sqrt 5]` and `Z[phi]`, the golden floor, and the two neighbour tests. */
module GoldenField {

  function SignOf(n: int): int { if n > 0 then 1 else if n < 0 then -1 else 0 }

  /** The sign of `a + b sqrt 5`, without square roots. */
  function Q5Sign(a: int, b: int): (r: int)
    ensures -1 <= r <= 1
  {
    if b == 0 then SignOf(a)
    else if a >= 0 && b > 0 then 1
    else if a <= 0 && b < 0 then -1
    else SignOf(a * a - 5 * (b * b)) * if a > 0 then 1 else -1
  }

  /** The sign of `a + b phi`. */
  function PhiSign(a: int, b: int): (r: int)
  {
    var c := 2 * a + b;
    if b == 0 then SignOf(c)
    else if c >= 0 && b > 0 then 1
    else if c <= 0 && b < 0 then -1
    else SignOf(c * c - 5 * (b * b)) * if c > 0 then 1 else -1
  }

  lemma PhiIsQ5(a: int, b: int)
    ensures PhiSign(a, b) == Q5Sign(2 * a + b, b)
  {
  }

  // ----- the sign rule orders the field

  function Sq(x: int): int { x * x }

  lemma SquareOrder(x: nat, y: nat)
    ensures Sq(x) <= Sq(y) <==> x <= y
  {
    if x <= y {
      assert x * x <= x * y <= y * y;
    } else {
      assert y * y <= y * x;
      assert y * x < x * x;
    }
  }

  lemma SquareOfSum(x: int, y: int, xy: int)
    requires xy == x * y
    ensures Sq(x + y) == Sq(x) + 2 * xy + Sq(y)
  {
  }

  lemma SquareOfProduct(x: int, y: int)
    ensures Sq(x * y) == Sq(x) * Sq(y)
  {
    assert x * y * (x * y) == x * x * (y * y);
  }

  lemma ProductOrder(a: nat, b: nat, c: nat, d: nat)
    requires a <= b && c <= d
    ensures a * c <= b * d
  {
    assert a * c <= b * c;
    assert b * c <= b * d;
  }

  /** Numbers at most `sqrt 5` times others add up to such numbers. */
  lemma SumBelow(x: nat, r: nat, y: nat, s: nat)
    requires Sq(x) <= 5 * Sq(r) && Sq(y) <= 5 * Sq(s)
    ensures Sq(x + y) <= 5 * Sq(r + s)
    ensures Sq(x) < 5 * Sq(r) ==> Sq(x + y) < 5 * Sq(r + s)
  {
    hide Sq;
    var xy, rs := x * y, r * s;
    SquareOfProduct(x, y);
    SquareOfProduct(r, s);
    SquareNonnegative(x);
    SquareNonnegative(y);
    ProductOrder(Sq(x), 5 * Sq(r), Sq(y), 5 * Sq(s));
    FiveFive(Sq(r), Sq(s));
    FiveSquared(rs);
    SquareOrder(xy, 5 * rs);
    SquareOfSum(x, y, xy);
    SquareOfSum(r, s, rs);
  }

  lemma SquareNonnegative(x: int)
    ensures Sq(x) >= 0
  {
  }

  lemma FiveFive(a: int, b: int)
    ensures 5 * a * (5 * b) == 25 * (a * b)
  {
  }

  lemma FiveSquared(x: int)
    ensures Sq(5 * x) == 25 * Sq(x)
  {
  }

  lemma SumAbove(x: nat, r: nat, y: nat, s: nat)
    requires 5 * Sq(r) <= Sq(x) && 5 * Sq(s) <= Sq(y)
    ensures 5 * Sq(r + s) <= Sq(x + y)
    ensures 5 * Sq(r) < Sq(x) ==> 5 * Sq(r + s) < Sq(x + y)
  {
    hide Sq;
    var xy, rs := x * y, r * s;
    SquareOfProduct(x, y);
    SquareOfProduct(r, s);
    SquareNonnegative(r);
    SquareNonnegative(s);
    ProductOrder(5 * Sq(r), Sq(x), 5 * Sq(s), Sq(y));
    FiveFive(Sq(r), Sq(s));
    FiveSquared(rs);
    SquareOrder(5 * rs, xy);
    SquareOfSum(x, y, xy);
    SquareOfSum(r, s, rs);
  }

  /** `a + b sqrt 5` is not negative. */
  predicate Nonnegative(a: int, b: int)
  {
    (a >= 0 && b >= 0) || (a > 0 && b < 0 && Sq(a) >= 5 * Sq(b)) || (a < 0 && b > 0 && Sq(a) <= 5 * Sq(b))
  }

  lemma NonnegativeIsSign(a: int, b: int)
    ensures Nonnegative(a, b) <==> Q5Sign(a, b) >= 0
  {
    var d := a * a - 5 * (b * b);
    assert Sq(a) - 5 * Sq(b) == d;
  }

  lemma NegateSign(a: int, b: int)
    ensures Q5Sign(-a, -b) == -Q5Sign(a, b)
  {
    assert (-a) * (-a) == a * a && (-b) * (-b) == b * b;
  }

  lemma SquareNegates(x: int)
    ensures Sq(-x) == Sq(x)
  {
  }

  lemma {:induction false} NoRoot(a: nat, b: nat)
    requires a * a == 5 * (b * b)
    ensures a == 0 && b == 0
    decreases a
  {
    if a > 0 {
      var k, r := a / 5, a % 5;
      assert a == 5 * k + r;
      assert a * a == 5 * (5 * (k * k) + 2 * (k * r)) + r * r;
      assert r * r % 5 == 0;
      assert r == 0;
      assert b * b == 5 * (k * k);
      SquareOrder(a, b);
      NoRoot(b, k);
    }
  }

  /** Only zero has sign zero. */
  lemma ZeroSign(a: int, b: int)
    ensures Q5Sign(a, b) == 0 <==> a == 0 && b == 0
  {
    if a * a == 5 * (b * b) {
      SquareNegates(a);
      SquareNegates(b);
      NoRoot(if a < 0 then -a else a, if b < 0 then -b else b);
    }
  }

  /** A number with a positive first part and one with a positive second part. */
  lemma AddMixed(a: nat, b: nat, c: nat, d: nat)
    requires 5 * Sq(b) <= Sq(a) && Sq(c) <= 5 * Sq(d)
    ensures Nonnegative(a - c, d - b)
  {
    hide Sq;
    if a < c && b < d {
      if Sq(c - a) > 5 * Sq(d - b) {
        SumAbove(c - a, d - b, a, b);
      }
      SquareNegates(c - a);
    } else if c < a && d < b {
      if Sq(a - c) < 5 * Sq(b - d) {
        SumBelow(a - c, b - d, c, d);
      }
      SquareNegates(b - d);
    } else if a == c && d < b {
      SquareOrder(b, d);
      SquareOrder(a, c);
    } else if a < c && b == d {
      SquareOrder(c, a);
    } else if a < c && d < b {
      SquareOrder(a, c);
      SquareOrder(d, b);
      SquareOrder(b, d);
      SquareOrder(c, a);
    }
  }

  lemma AddNear(a: nat, b: nat, c: nat, d: nat)
    requires 5 * Sq(d) <= Sq(c)
    ensures Nonnegative(a + c, b - d)
  {
    hide Sq;
    SquareOrder(c, a + c);
    if b < d {
      SquareOrder(d - b, d);
      SquareNegates(d - b);
      if a + c == 0 {
        SquareOrder(d, 0);
        SquareZero();
      }
    }
  }

  lemma SquareZero()
    ensures Sq(0) == 0
  {
  }

  lemma AddFar(a: nat, b: nat, c: nat, d: nat)
    requires Sq(c) <= 5 * Sq(d)
    ensures Nonnegative(a - c, b + d)
  {
    hide Sq;
    SquareOrder(d, b + d);
    if a < c {
      SquareOrder(c - a, c);
      SquareNegates(c - a);
      if b + d == 0 {
        SquareOrder(c, 0);
        SquareZero();
      }
    }
  }

  /** Nonnegative numbers add up to nonnegative ones. */
  lemma AddNonnegative(a: int, b: int, c: int, d: int)
    requires Nonnegative(a, b) && Nonnegative(c, d)
    ensures Nonnegative(a + c, b + d)
  {
    hide Sq;
    SquareNegates(a);
    SquareNegates(b);
    SquareNegates(c);
    SquareNegates(d);
    if a >= 0 && b >= 0 {
      if c >= 0 && d < 0 {
        AddNear(a, b, c, -d);
      } else if c < 0 {
        AddFar(a, b, -c, d);
      }
    } else if b < 0 {
      if d >= 0 && c >= 0 {
        AddNear(c, d, a, -b);
      } else if d < 0 {
        SumAbove(a, -b, c, -d);
        SquareNegates(b + d);
      } else {
        AddMixed(a, -b, -c, d);
      }
    } else {
      if d >= 0 && c >= 0 {
        AddFar(c, d, -a, b);
      } else if d < 0 {
        AddMixed(c, -d, -a, b);
      } else {
        SumBelow(-a, b, -c, d);
        SquareNegates(a + c);
      }
    }
  }

  /** Multiplying by `5 - sqrt 5` keeps the sign. */
  lemma ScaleKeepsSign(c: int, b: int)
    ensures Q5Sign(5 * c - 5 * b, 5 * b - c) == Q5Sign(c, b)
  {
    var x, y := 5 * c - 5 * b, 5 * b - c;
    NormScales(c, b, x, y);
    var n := c * c - 5 * (b * b);
    if c >= 0 && b >= 0 {
      NormSigns(c, b, n);
    } else if c <= 0 && b <= 0 {
      NormSigns(-c, -b, n);
    }
  }

  lemma NormScales(c: int, b: int, x: int, y: int)
    requires x == 5 * c - 5 * b && y == 5 * b - c
    ensures x * x - 5 * (y * y) == 20 * (c * c - 5 * (b * b))
  {
    var cc, bb, cb := c * c, b * b, c * b;
    assert x * x == 25 * cc - 50 * cb + 25 * bb;
    assert y * y == 25 * bb - 10 * cb + cc;
  }

  lemma NormSigns(c: nat, b: nat, n: int)
    requires n == c * c - 5 * (b * b)
    ensures c < b ==> n < 0
    ensures c > 5 * b ==> n > 0
  {
    assert n == Sq(c) - 5 * Sq(b);
    hide Sq;
    SquareNonnegative(b);
    SquareOrder(b, c);
    SquareOrder(c, 5 * b);
    FiveSquared(b);
  }

  // ----- the sign is the real one

  ghost function Value(a: int, b: int, r: real): real
  {
    a as real + b as real * r
  }

  /** The norm as a product: `(x + y)(x - y)` for `y^2 = 5 b^2`. */
  lemma NormFactors(a: int, b: int, r: real, y: real)
    requires r * r == 5.0 && y == b as real * r
    ensures (a * a - 5 * (b * b)) as real == (a as real + y) * (a as real - y)
  {
    var x := a as real;
    assert (a * a) as real == x * x;
    assert (b * b) as real == b as real * b as real;
    assert y * y == b as real * b as real * (r * r) by { SquareOfTimes(b as real, r); }
    assert (x + y) * (x - y) == x * x - y * y;
  }

  lemma SquareOfTimes(b: real, r: real)
    ensures b * r * (b * r) == b * b * (r * r)
  {
  }

  lemma SignOfProduct(x: real, z: real)
    requires z > 0.0
    ensures x * z > 0.0 <==> x > 0.0
    ensures x * z == 0.0 <==> x == 0.0
  {
  }

  lemma SignOfTimes(b: int, r: real)
    requires r > 0.0
    ensures b > 0 ==> b as real * r > 0.0
    ensures b < 0 ==> b as real * r < 0.0
  {
  }

  /** The rule gives the sign of the real number `a + b sqrt 5`. */
  lemma SignIsReal(a: int, b: int, r: real)
    requires r > 0.0 && r * r == 5.0
    ensures Q5Sign(a, b) > 0 <==> Value(a, b, r) > 0.0
    ensures Q5Sign(a, b) == 0 <==> Value(a, b, r) == 0.0
    ensures Q5Sign(a, b) < 0 <==> Value(a, b, r) < 0.0
  {
    var x, y, n := a as real, b as real * r, a * a - 5 * (b * b);
    SignOfTimes(b, r);
    NormFactors(a, b, r, y);
    if a > 0 && b < 0 {
      SignOfProduct(x + y, x - y);
      assert n as real == (x + y) * (x - y);
    } else if a < 0 && b > 0 {
      SignOfProduct(x + y, y - x);
      assert n as real == -((x + y) * (y - x));
    }
  }

  // ----- the golden floor

  function Isqrt(n: nat): (r: nat)
    ensures r * r <= n < (r + 1) * (r + 1)
  {
    if n == 0 then 0 else
      var r := Isqrt(n - 1);
      if (r + 1) * (r + 1) <= n then r + 1 else r
  }

  /** `floor(b phi)` in integers. */
  function GoldenFloor(b: nat): (m: nat)
  {
    (b + Isqrt(5 * (b * b))) / 2
  }

  lemma IsqrtBounds(b: nat, s: nat)
    requires s == Isqrt(5 * (b * b))
    ensures Sq(s) <= 5 * Sq(b) < Sq(s + 1) && (b == 0 ==> s == 0)
  {
    if b == 0 && s > 0 {
      SquareOrder(1, s);
    }
  }

  lemma AtMostFloor(b: nat, s: nat, c: int)
    requires Sq(s) <= 5 * Sq(b) && (b == 0 ==> s == 0) && c + s >= 0
    ensures Nonnegative(c, b)
  {
    hide Sq;
    if c < 0 {
      SquareOrder(-c, s);
      SquareNegates(c);
    }
  }

  lemma BeyondFloor(b: nat, s: nat, e: int)
    requires 5 * Sq(b) < Sq(s + 1) && e + s + 1 <= 0
    ensures !Nonnegative(e, b)
  {
    hide Sq;
    SquareOrder(s + 1, -e);
    SquareNegates(e);
  }

  /** It is the floor: `m <= b phi < m + 1`. */
  lemma GoldenFloorIsFloor(b: nat)
    ensures PhiSign(0 - GoldenFloor(b), b) >= 0
    ensures PhiSign(-1 - GoldenFloor(b), b) < 0
  {
    hide Sq, PhiSign, Isqrt, Q5Sign, Nonnegative;
    var s, m := Isqrt(5 * (b * b)), GoldenFloor(b);
    IsqrtBounds(b, s);
    AtMostFloor(b, s, 2 * (0 - m) + b);
    BeyondFloor(b, s, 2 * (-1 - m) + b);
    PhiIsQ5(0 - m, b);
    PhiIsQ5(-1 - m, b);
    NonnegativeIsSign(2 * (0 - m) + b, b);
    NonnegativeIsSign(2 * (-1 - m) + b, b);
  }

  /** Against the real golden ratio `(1 + sqrt 5) / 2`. */
  lemma GoldenFloorIsReal(b: nat, r: real)
    requires r > 0.0 && r * r == 5.0
    ensures GoldenFloor(b) as real <= b as real * ((1.0 + r) / 2.0) < GoldenFloor(b) as real + 1.0
  {
    hide Q5Sign, PhiSign, GoldenFloor;
    var m := GoldenFloor(b);
    GoldenFloorIsFloor(b);
    PhiIsQ5(0 - m, b);
    PhiIsQ5(-1 - m, b);
    SignIsReal(2 * (0 - m) + b, b, r);
    SignIsReal(2 * (-1 - m) + b, b, r);
    PhiAsReal(m, b, r);
    PhiAsReal(m + 1, b, r);
  }

  lemma PhiAsReal(m: int, b: int, r: real)
    ensures Value(2 * (0 - m) + b, b, r) == 2.0 * (b as real * ((1.0 + r) / 2.0) - m as real)
  {
  }
}
