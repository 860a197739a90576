/** Two exact neighbour tests on golden sites: six-component records, and per-axis tables. */
module NeighbourTests {
  import opened GoldenField

  /** A site of the cube by its three labels. */
  datatype Label = Label(b1: nat, b2: nat, b3: nat)

  /** `m = -floor(b phi)` */
  function M(b: nat): int { 0 - GoldenFloor(b) }

  /** The integer record of a site. */
  datatype Record = Record(z0: int, z1: int, z2: int, z3: int, z4: int, z5: int)

  function SourceRecord(s: Label): Record
  {
    var m1, m2, m3 := M(s.b1), M(s.b2), M(s.b3);
    Record(s.b2 - m1, s.b2 + m1, s.b3 - m2, s.b3 + m2, s.b1 - m3, s.b1 + m3)
  }

  function Minus(z: Record, w: Record): Record
  {
    Record(z.z0 - w.z0, z.z1 - w.z1, z.z2 - w.z2, z.z3 - w.z3, z.z4 - w.z4, z.z5 - w.z5)
  }

  // ----- the sign pattern of the positive ports

  /** The oriented faces of the icosahedron. */
  function Face(i: nat): (nat, nat, nat)
    requires i < 20
  {
    match i
    case 0 => (0, 11, 5) case 1 => (0, 5, 1) case 2 => (0, 1, 7) case 3 => (0, 7, 10) case 4 => (0, 10, 11)
    case 5 => (1, 5, 9) case 6 => (5, 11, 4) case 7 => (11, 10, 2) case 8 => (10, 7, 6) case 9 => (7, 1, 8)
    case 10 => (3, 9, 4) case 11 => (3, 4, 2) case 12 => (3, 2, 6) case 13 => (3, 6, 8) case 14 => (3, 8, 9)
    case 15 => (4, 9, 5) case 16 => (2, 4, 11) case 17 => (6, 2, 10) case 18 => (8, 6, 7) case 19 => (9, 8, 1)
  }

  predicate OnFace(i: nat, p: nat)
    requires i < 20
  {
    var f := Face(i);
    p == f.0 || p == f.1 || p == f.2
  }

  /** The ports share a face: they are joined by a seam. */
  ghost predicate Adjacent(p: nat, r: nat)
  {
    p != r && exists i: nat :: i < 20 && OnFace(i, p) && OnFace(i, r)
  }

  /** Neither the same nor joined, but with a common neighbour. */
  ghost predicate TwoApart(p: nat, r: nat)
  {
    p != r && !Adjacent(p, r) && exists t: nat :: Adjacent(p, t) && Adjacent(t, r)
  }

  function PositivePort(k: nat): nat
    requires k < 6
  {
    match k case 0 => 0 case 1 => 1 case 2 => 4 case 3 => 5 case 4 => 8 case 5 => 9
  }

  /** `+1` at port distance one, `-1` at distance two. */
  function Sigma(k: nat, l: nat): int
    requires k < 6 && l < 6
  {
    if k == l then 0
    else if k > l then Sigma(l, k)
    else match (k, l)
      case (0, 1) => 1 case (0, 3) => 1 case (1, 3) => 1 case (1, 4) => 1 case (1, 5) => 1
      case (2, 3) => 1 case (2, 5) => 1 case (3, 5) => 1 case (4, 5) => 1
      case _ => -1
  }

  lemma ByFace(i: nat, p: nat, r: nat)
    requires i < 20 && p != r && OnFace(i, p) && OnFace(i, r)
    ensures Adjacent(p, r) && Adjacent(r, p)
  {
  }

  lemma NoFace(p: nat, r: nat)
    requires (p, r) in {(0, 4), (0, 8), (0, 9), (1, 4), (4, 8), (5, 8)}
    ensures !Adjacent(p, r)
  {
    forall i: nat | i < 20
      ensures !(OnFace(i, p) && OnFace(i, r))
    {
    }
  }

  ghost predicate Both(p: nat, r: nat)
  {
    Adjacent(p, r) && Adjacent(r, p)
  }

  lemma Seams()
    ensures Both(0, 1) && Both(0, 5) && Both(1, 5) && Both(1, 8) && Both(1, 9)
    ensures Both(4, 5) && Both(4, 9) && Both(5, 9) && Both(8, 9)
  {
    hide Adjacent;
    ByFace(1, 0, 1); ByFace(1, 0, 5); ByFace(5, 1, 5); ByFace(9, 1, 8); ByFace(5, 1, 9);
    ByFace(6, 4, 5); ByFace(10, 4, 9); ByFace(5, 5, 9); ByFace(19, 8, 9);
  }

  lemma Through(p: nat, t: nat, r: nat)
    requires p != r && !Adjacent(p, r) && Both(p, t) && Both(t, r)
    ensures TwoApart(p, r)
  {
  }

  /** The pattern is the one the faces give. */
  lemma PatternFromFaces(k: nat, l: nat)
    requires k < l < 6
    ensures Sigma(k, l) == 1 ==> Adjacent(PositivePort(k), PositivePort(l))
    ensures Sigma(k, l) == -1 ==> TwoApart(PositivePort(k), PositivePort(l))
  {
    hide Adjacent, TwoApart;
    Seams();
    NoFace(0, 4); NoFace(0, 8); NoFace(0, 9); NoFace(1, 4); NoFace(4, 8); NoFace(5, 8);
    BothTurns(4, 5); BothTurns(8, 9);
    Through(0, 5, 4); Through(0, 1, 8); Through(0, 1, 9); Through(1, 5, 4); Through(4, 9, 8); Through(5, 9, 8);
  }

  lemma BothTurns(p: nat, r: nat)
    requires Both(p, r)
    ensures Both(r, p)
  {
  }

  // ----- the two quadratic forms

  function S2(z: Record): int
  {
    z.z0 * z.z0 + z.z1 * z.z1 + z.z2 * z.z2 + z.z3 * z.z3 + z.z4 * z.z4 + z.z5 * z.z5
  }

  function RowForm(z: Record, k: nat): int
    requires k < 6
  {
    Sigma(k, 0) * z.z0 + Sigma(k, 1) * z.z1 + Sigma(k, 2) * z.z2 + Sigma(k, 3) * z.z3 + Sigma(k, 4) * z.z4 +
      Sigma(k, 5) * z.z5
  }

  /** `sum_{k != l} sigma_kl z_k z_l` */
  function X(z: Record): int
  {
    z.z0 * RowForm(z, 0) + z.z1 * RowForm(z, 1) + z.z2 * RowForm(z, 2)
    + z.z3 * RowForm(z, 3) + z.z4 * RowForm(z, 4) + z.z5 * RowForm(z, 5)
  }

  /** Coordinates of `(xi_b - xi_c)^2 = A + B phi`. */
  function AxisA(b: nat, c: nat): int
  {
    var dm, db := M(b) - M(c), b - c;
    dm * dm + db * db
  }

  function AxisB(b: nat, c: nat): int
  {
    var dm, db := M(b) - M(c), b - c;
    2 * (dm * db) + db * db
  }

  function A(s: Label, t: Label): int { AxisA(s.b1, t.b1) + AxisA(s.b2, t.b2) + AxisA(s.b3, t.b3) }

  function B(s: Label, t: Label): int { AxisB(s.b1, t.b1) + AxisB(s.b2, t.b2) + AxisB(s.b3, t.b3) }

  lemma SquarePair(u: int, v: int)
    ensures (u - v) * (u - v) + (u + v) * (u + v) == 2 * (u * u) + 2 * (v * v)
    ensures (u - v) * (u + v) == u * u - v * v
  {
  }

  lemma FourTimes(u: int, v: int)
    ensures 2 * u * (2 * v) == 4 * (u * v)
  {
  }

  /** `X`, term by term. */
  lemma ExpandX(z: Record)
    ensures X(z) == 2 * (z.z0 * z.z1 + z.z2 * z.z3 + z.z4 * z.z5
                         + (z.z0 + z.z1) * (z.z3 - z.z2) + (z.z1 - z.z0) * (z.z4 + z.z5) +
                           (z.z2 + z.z3) * (z.z5 - z.z4))
  {
    assert RowForm(z, 0) == z.z1 - z.z2 + z.z3 - z.z4 - z.z5;
    assert RowForm(z, 1) == z.z0 - z.z2 + z.z3 + z.z4 + z.z5;
    assert RowForm(z, 2) == -z.z0 - z.z1 + z.z3 - z.z4 + z.z5;
    assert RowForm(z, 3) == z.z0 + z.z1 + z.z2 - z.z4 + z.z5;
    assert RowForm(z, 4) == -z.z0 + z.z1 - z.z2 - z.z3 + z.z5;
    assert RowForm(z, 5) == -z.z0 + z.z1 + z.z2 + z.z3 + z.z4;
  }

  lemma FormsOfPairs(y: int, u: int, w: int, v: int, x: int, t: int)
    ensures var z := Record(u - v, u + v, w - x, w + x, y - t, y + t);
      && S2(z) == 2 * (y * y + u * u + w * w + v * v + x * x + t * t)
      && X(z) == 2 * (y * y + u * u + w * w) - 2 * (v * v + x * x + t * t) + 8 * (u * x + v * y + w * t)
  {
    var z := Record(u - v, u + v, w - x, w + x, y - t, y + t);
    hide X, RowForm;
    ExpandX(z);
    SquarePair(u, v);
    SquarePair(w, x);
    SquarePair(y, t);
    FourTimes(u, x);
    FourTimes(v, y);
    FourTimes(w, t);
    assert z.z0 + z.z1 == 2 * u && z.z3 - z.z2 == 2 * x && z.z1 - z.z0 == 2 * v;
    assert z.z4 + z.z5 == 2 * y && z.z2 + z.z3 == 2 * w && z.z5 - z.z4 == 2 * t;
  }

  /** The metric identity: `S2 = 2 A` and `X = 4 B - 2 A`. */
  lemma MetricIdentity(s: Label, t: Label)
    ensures S2(Minus(SourceRecord(s), SourceRecord(t))) == 2 * A(s, t)
    ensures X(Minus(SourceRecord(s), SourceRecord(t))) == 4 * B(s, t) - 2 * A(s, t)
  {
    hide X, S2, M;
    var v, x, r := M(s.b1) - M(t.b1), M(s.b2) - M(t.b2), M(s.b3) - M(t.b3);
    var y, u, w := s.b1 - t.b1, s.b2 - t.b2, s.b3 - t.b3;
    assert Minus(SourceRecord(s), SourceRecord(t)) == Record(u - v, u + v, w - x, w + x, y - r, y + r);
    FormsOfPairs(y, u, w, v, x, r);
    assert v * y == y * v;
  }

  // ----- the decisions

  /** `||dx||^2 <= L^2 / q`, from the records. */
  predicate RecordNeighbours(q: nat, s: Label, t: Label)
  {
    var dz := Minus(SourceRecord(s), SourceRecord(t));
    Q5Sign(5 * (q * S2(dz)) - 10, q * X(dz) + 2) <= 0
  }

  /** `q |xi_s - xi_t|^2 <= 1`, from the axis tables. */
  predicate GoldenNeighbours(q: nat, s: Label, t: Label)
  {
    PhiSign(q * A(s, t) - 1, q * B(s, t)) <= 0
  }

  /** The two tests decide the same relation, for all labels and all `q`. */
  lemma TestsAgree(q: nat, s: Label, t: Label)
    ensures RecordNeighbours(q, s, t) <==> GoldenNeighbours(q, s, t)
  {
    hide Q5Sign, PhiSign, S2, X, A, B, SourceRecord;
    MetricIdentity(s, t);
    var a, b := A(s, t), B(s, t);
    var qa, qb := q * a, q * b;
    Linear(q, a, b);
    PhiIsQ5(qa - 1, qb);
    ScaleKeepsSign(2 * (qa - 1) + qb, qb);
  }

  lemma Linear(q: int, a: int, b: int)
    ensures q * (2 * a) == 2 * (q * a) && q * (4 * b - 2 * a) == 4 * (q * b) - 2 * (q * a)
  {
  }

  // ----- the relation

  /** A square is not negative. */
  lemma SquareIsNonnegative(dm: int, db: int)
    ensures PhiSign(dm * dm + db * db, 2 * (dm * db) + db * db) >= 0
  {
    hide PhiSign, Q5Sign, Sq;
    var a, b := dm * dm + db * db, 2 * (dm * db) + db * db;
    PhiIsQ5(a, b);
    NonnegativeIsSign(2 * a + b, b);
    SquareForm(dm, db, 2 * a + b, b);
  }

  lemma SquareForm(x: int, y: int, c: int, b: int)
    requires c == 2 * (x * x + y * y) + b && b == 2 * (x * y) + y * y
    ensures c >= 0 && (c == 0 ==> b == 0) && Sq(c) >= 5 * Sq(b)
  {
    var n := x * x + x * y - y * y;
    assert (x + y) * (x + y) == x * x + 2 * (x * y) + y * y;
    SquareNonnegative(x);
    SquareNonnegative(y);
    SquareNonnegative(x + y);
    SquareNonnegative(n);
    assert c == Sq(x + y) + Sq(x) + 2 * Sq(y);
    if c == 0 {
      assert Sq(y) == 0 && Sq(x) == 0;
      assert x == 0 && y == 0;
    }
    NormOfSquare(x * x, x * y, y * y, c, b, n);
  }

  lemma NormOfSquare(p: int, r: int, s: int, c: int, b: int, n: int)
    requires p * s == r * r && c == 2 * p + 2 * r + 3 * s && b == 2 * r + s && n == p + r - s
    ensures Sq(c) - 5 * Sq(b) == 4 * Sq(n)
  {
    SquareOfThree(2 * p, 2 * r, 3 * s);
    SquareOfThree(2 * r, s, 0);
    SquareOfThree(p, r, -s);
    Factors(p, r, s);
  }

  lemma SquareOfThree(x: int, y: int, z: int)
    ensures Sq(x + y + z) == x * x + y * y + z * z + 2 * (x * y) + 2 * (x * z) + 2 * (y * z)
  {
    assert (x + y + z) * (x + y + z) == (x + y) * (x + y) + 2 * ((x + y) * z) + z * z;
  }

  lemma Factors(p: int, r: int, s: int)
    ensures 2 * p * (2 * p) == 4 * (p * p) && 2 * r * (2 * r) == 4 * (r * r) && 3 * s * (3 * s) == 9 * (s * s)
    ensures 2 * p * (2 * r) == 4 * (p * r) && 2 * p * (3 * s) == 6 * (p * s) && 2 * r * (3 * s) == 6 * (r * s)
    ensures 2 * r * s == 2 * (r * s) && 2 * r * 0 == 0 && s * 0 == 0
    ensures -s * -s == s * s && p * -s == -(p * s) && r * -s == -(r * s)
  {
  }

  /** `a + b phi` is not negative. */
  predicate PhiNonnegative(a: int, b: int)
  {
    Nonnegative(2 * a + b, b)
  }

  lemma PhiNonnegativeIsSign(a: int, b: int)
    ensures PhiNonnegative(a, b) <==> PhiSign(a, b) >= 0
    ensures PhiNonnegative(-a, -b) <==> PhiSign(a, b) <= 0
  {
    hide Nonnegative, PhiSign, Q5Sign;
    PhiIsQ5(a, b);
    NonnegativeIsSign(2 * a + b, b);
    NonnegativeIsSign(-(2 * a + b), -b);
    NegateSign(2 * a + b, b);
    assert 2 * -a + -b == -(2 * a + b);
  }

  lemma PhiAdd(a: int, b: int, c: int, d: int)
    requires PhiNonnegative(a, b) && PhiNonnegative(c, d)
    ensures PhiNonnegative(a + c, b + d)
  {
    hide Nonnegative;
    AddNonnegative(2 * a + b, b, 2 * c + d, d);
    assert 2 * (a + c) + (b + d) == 2 * a + b + (2 * c + d);
  }

  lemma {:induction false} PhiScale(q: nat, a: int, b: int)
    requires PhiNonnegative(a, b)
    ensures PhiNonnegative(q * a, q * b)
  {
    if q > 0 {
      PhiScale(q - 1, a, b);
      hide PhiNonnegative;
      PhiAdd((q - 1) * a, (q - 1) * b, a, b);
      assert (q - 1) * a + a == q * a && (q - 1) * b + b == q * b;
    }
  }

  predicate AxisNear(q: nat, b: nat, c: nat)
  {
    PhiSign(q * AxisA(b, c) - 1, q * AxisB(b, c)) <= 0
  }

  lemma AxisNonnegative(q: nat, b: nat, c: nat)
    ensures PhiNonnegative(q * AxisA(b, c), q * AxisB(b, c))
  {
    hide PhiNonnegative, PhiSign, M;
    var dm, db := M(b) - M(c), b - c;
    SquareIsNonnegative(dm, db);
    PhiNonnegativeIsSign(AxisA(b, c), AxisB(b, c));
    PhiScale(q, AxisA(b, c), AxisB(b, c));
  }

  /** Two axes cannot bring back what one axis exceeds. */
  lemma OneAxis(q: nat, a: int, b: int, a': int, b': int, a'': int, b'': int)
    requires PhiNonnegative(1 - (q * a + q * a' + q * a''), -(q * b + q * b' + q * b''))
    requires PhiNonnegative(q * a', q * b') && PhiNonnegative(q * a'', q * b'')
    ensures PhiSign(q * a - 1, q * b) <= 0
  {
    hide PhiNonnegative, PhiSign;
    var x, y, x', y', x'', y'' := q * a, q * b, q * a', q * b', q * a'', q * b'';
    PhiAdd(1 - (x + x' + x''), -(y + y' + y''), x', y');
    PhiAdd(1 - (x + x' + x'') + x', -(y + y' + y'') + y', x'', y'');
    assert 1 - (x + x' + x'') + x' + x'' == -(x - 1) && -(y + y' + y'') + y' + y'' == -y;
    PhiNonnegativeIsSign(x - 1, y);
  }

  /** Pruning the box axis by axis loses no neighbour. */
  lemma BoxLosesNothing(q: nat, s: Label, t: Label)
    requires GoldenNeighbours(q, s, t)
    ensures AxisNear(q, s.b1, t.b1) && AxisNear(q, s.b2, t.b2) && AxisNear(q, s.b3, t.b3)
  {
    hide PhiNonnegative, PhiSign, AxisA, AxisB;
    var a1, a2, a3 := AxisA(s.b1, t.b1), AxisA(s.b2, t.b2), AxisA(s.b3, t.b3);
    var b1, b2, b3 := AxisB(s.b1, t.b1), AxisB(s.b2, t.b2), AxisB(s.b3, t.b3);
    AxisNonnegative(q, s.b1, t.b1);
    AxisNonnegative(q, s.b2, t.b2);
    AxisNonnegative(q, s.b3, t.b3);
    PhiNonnegativeIsSign(q * A(s, t) - 1, q * B(s, t));
    Spread(q, a1, a2, a3);
    Spread(q, b1, b2, b3);
    assert -(q * A(s, t) - 1) == 1 - (q * a1 + q * a2 + q * a3);
    OneAxis(q, a1, b1, a2, b2, a3, b3);
    assert 1 - (q * a1 + q * a2 + q * a3) == 1 - (q * a2 + q * a1 + q * a3) == 1 - (q * a3 + q * a1 + q * a2);
    assert -(q * b1 + q * b2 + q * b3) == -(q * b2 + q * b1 + q * b3) == -(q * b3 + q * b1 + q * b2);
    OneAxis(q, a2, b2, a1, b1, a3, b3);
    OneAxis(q, a3, b3, a1, b1, a2, b2);
  }

  lemma Spread(q: int, x: int, y: int, z: int)
    ensures q * (x + y + z) == q * x + q * y + q * z
  {
  }

  /** Every site reads itself, and reading is mutual. */
  lemma ReadsAreMutual(q: nat, s: Label, t: Label)
    ensures GoldenNeighbours(q, s, s)
    ensures GoldenNeighbours(q, s, t) <==> GoldenNeighbours(q, t, s)
  {
    hide PhiSign, M;
    AxisMirrors(s.b1, t.b1);
    AxisMirrors(s.b2, t.b2);
    AxisMirrors(s.b3, t.b3);
    assert A(s, s) == 0 && B(s, s) == 0;
    SignOfMinusOne();
  }

  lemma SignOfMinusOne()
    ensures PhiSign(-1, 0) == -1
  {
  }

  lemma AxisMirrors(b: nat, c: nat)
    ensures AxisA(b, c) == AxisA(c, b) && AxisB(b, c) == AxisB(c, b)
  {
    hide M;
    var dm, db := M(b) - M(c), b - c;
    assert -dm * -dm == dm * dm && -db * -db == db * db && -dm * -db == dm * db;
    assert M(c) - M(b) == -dm && c - b == -db;
  }
}
