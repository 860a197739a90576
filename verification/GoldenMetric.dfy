/** What the golden tests measure: distances of fractional parts of multiples of the golden ratio. */
module GoldenMetric {
  import opened GoldenField
  import opened NeighbourTests

  /** `r` is the square root of five. */
  ghost predicate Root5(r: real)
  {
    r > 0.0 && r * r == 5.0
  }

  ghost function Phi(r: real): real { (1.0 + r) / 2.0 }

  /** The fractional part of `b phi`. */
  ghost function Part(b: nat, r: real): real
  {
    b as real * Phi(r) - (b as real * Phi(r)).Floor as real
  }

  ghost function SquareGap(x: real, y: real): real { (x - y) * (x - y) }

  /** The squared distance of two sites of the unit cube. */
  ghost function SquareDistance(s: Label, t: Label, r: real): real
  {
    SquareGap(Part(s.b1, r), Part(t.b1, r)) + SquareGap(Part(s.b2, r), Part(t.b2, r))
    + SquareGap(Part(s.b3, r), Part(t.b3, r))
  }

  /** The stored integer `m` completes `b phi` to its fractional part. */
  lemma CoordinateIsPart(b: nat, r: real)
    requires Root5(r)
    ensures M(b) as real + b as real * Phi(r) == Part(b, r)
    ensures 0.0 <= M(b) as real + b as real * Phi(r) < 1.0
  {
    hide GoldenFloor, Part;
    GoldenFloorIsReal(b, r);
    var x := b as real * Phi(r);
    assert x == b as real * ((1.0 + r) / 2.0);
    FloorIs(x, GoldenFloor(b));
    PartIs(b, r, x);
  }

  lemma PartIs(b: nat, r: real, x: real)
    requires x == b as real * Phi(r)
    ensures Part(b, r) == x - x.Floor as real
  {
  }

  lemma FloorIs(x: real, m: int)
    requires m as real <= x < m as real + 1.0
    ensures x.Floor == m
  {
  }

  ghost function InPhi(a: int, b: int, r: real): real { a as real + b as real * Phi(r) }

  lemma SignIsPhi(a: int, b: int, r: real)
    requires Root5(r)
    ensures PhiSign(a, b) <= 0 <==> InPhi(a, b, r) <= 0.0
  {
    hide PhiSign, Q5Sign;
    PhiIsQ5(a, b);
    SignIsReal(2 * a + b, b, r);
    TwicePhi(a, b, r);
  }

  lemma TwicePhi(a: int, b: int, r: real)
    ensures Value(2 * a + b, b, r) == 2.0 * InPhi(a, b, r)
  {
  }

  lemma PhiSquared(r: real)
    requires Root5(r)
    ensures Phi(r) * Phi(r) == Phi(r) + 1.0
  {
    assert (1.0 + r) * (1.0 + r) == 1.0 + 2.0 * r + r * r;
    assert (1.0 + r) / 2.0 * ((1.0 + r) / 2.0) == (1.0 + r) * (1.0 + r) / 4.0;
  }

  /** `(m + b phi)^2 = (m^2 + b^2) + (2 m b + b^2) phi` */
  lemma SquareInPhi(m: int, b: int, p: real)
    requires p * p == p + 1.0
    ensures (m as real + b as real * p) * (m as real + b as real * p) ==
            (m * m + b * b) as real + (2 * (m * b) + b * b) as real * p
  {
    var x, y := m as real, b as real;
    var xx, xy, yy := x * x, x * y, y * y;
    assert (m * m) as real == xx && (m * b) as real == xy && (b * b) as real == yy;
    assert (x + y * p) * (x + y * p) == xx + 2.0 * (xy * p) + yy * (p * p) by { SquareOfSum(x, y, p); }
    assert yy * (p * p) == yy * p + yy;
    assert (2 * (m * b) + b * b) as real == 2.0 * xy + yy;
    assert (2.0 * xy + yy) * p == 2.0 * (xy * p) + yy * p;
  }

  lemma SquareOfSum(x: real, y: real, p: real)
    ensures (x + y * p) * (x + y * p) == x * x + 2.0 * (x * y * p) + y * y * (p * p)
  {
    var z := y * p;
    assert x * z == x * y * p;
    assert z * z == y * y * (p * p);
    assert (x + z) * (x + z) == x * x + 2.0 * (x * z) + z * z;
  }

  /** The axis tables hold the squared gap of the fractional parts. */
  lemma AxisIsGap(b: nat, c: nat, r: real)
    requires Root5(r)
    ensures InPhi(AxisA(b, c), AxisB(b, c), r) == SquareGap(Part(b, r), Part(c, r))
  {
    hide M, Part, Phi;
    CoordinateIsPart(b, r);
    CoordinateIsPart(c, r);
    PhiSquared(r);
    var dm, db, p := M(b) - M(c), b - c, Phi(r);
    SquareInPhi(dm, db, p);
    GapSpread(b, c, p);
    assert Part(b, r) - Part(c, r) == dm as real + db as real * p;
  }

  lemma GapSpread(b: nat, c: nat, p: real)
    ensures (b - c) as real * p == b as real * p - c as real * p
  {
  }

  lemma InPhiAdds(a: int, b: int, c: int, d: int, r: real)
    ensures InPhi(a + c, b + d, r) == InPhi(a, b, r) + InPhi(c, d, r)
  {
    assert (b + d) as real * Phi(r) == b as real * Phi(r) + d as real * Phi(r);
  }

  lemma InPhiScales(q: int, a: int, b: int, r: real)
    ensures InPhi(q * a - 1, q * b, r) == q as real * InPhi(a, b, r) - 1.0
  {
    var x, y, z, p := q as real, a as real, b as real, Phi(r);
    assert (q * a) as real == x * y && (q * b) as real == x * z;
    assert x * z * p == x * (z * p);
    assert x * (y + z * p) == x * y + x * (z * p);
  }

  /** Two sites are neighbours exactly within distance `1 / sqrt q`. */
  lemma NeighboursAreNear(q: nat, s: Label, t: Label, r: real)
    requires Root5(r)
    ensures GoldenNeighbours(q, s, t) <==> q as real * SquareDistance(s, t, r) <= 1.0
  {
    hide PhiSign, AxisA, AxisB, InPhi, Part, SquareGap;
    SignIsPhi(q * A(s, t) - 1, q * B(s, t), r);
    InPhiScales(q, A(s, t), B(s, t), r);
    InPhiAdds(AxisA(s.b1, t.b1), AxisB(s.b1, t.b1), AxisA(s.b2, t.b2), AxisB(s.b2, t.b2), r);
    InPhiAdds(AxisA(s.b1, t.b1) + AxisA(s.b2, t.b2), AxisB(s.b1, t.b1) + AxisB(s.b2, t.b2),
              AxisA(s.b3, t.b3), AxisB(s.b3, t.b3), r);
    AxisIsGap(s.b1, t.b1, r);
    AxisIsGap(s.b2, t.b2, r);
    AxisIsGap(s.b3, t.b3, r);
  }

  /** One axis alone exceeds the distance exactly when the axis test says so. */
  lemma AxisNearIsNear(q: nat, b: nat, c: nat, r: real)
    requires Root5(r)
    ensures AxisNear(q, b, c) <==> q as real * SquareGap(Part(b, r), Part(c, r)) <= 1.0
  {
    hide PhiSign, AxisA, AxisB, InPhi, Part, SquareGap;
    SignIsPhi(q * AxisA(b, c) - 1, q * AxisB(b, c), r);
    InPhiScales(q, AxisA(b, c), AxisB(b, c), r);
    AxisIsGap(b, c, r);
  }
}
