/** Integer matrix powers: repeated squaring, and powers of `x` modulo an annihilating polynomial. */
module MatrixPower {
  import opened Sums

  type Matrix = seq<seq<int>>

  predicate Square(a: Matrix, n: nat)
  {
    |a| == n && forall i :: 0 <= i < n ==> |a[i]| == n
  }

  /** The entry `(i, j)`, zero outside. */
  function At(a: Matrix, i: nat, j: nat): int
  {
    if i < |a| && j < |a[i]| then a[i][j] else 0
  }

  lemma SameMatrix(a: Matrix, b: Matrix, n: nat)
    requires Square(a, n) && Square(b, n)
    requires forall i: nat, j: nat :: i < n && j < n ==> At(a, i, j) == At(b, i, j)
    ensures a == b
  {
    forall i | 0 <= i < n
      ensures a[i] == b[i]
    {
      forall j | 0 <= j < n
        ensures a[i][j] == b[i][j]
      {
        assert At(a, i, j) == At(b, i, j);
      }
    }
  }

  function Prod(x: int, y: int): int { x * y }

  ghost function Terms(a: Matrix, b: Matrix, i: nat, j: nat): nat -> int
  {
    (t: nat) => Prod(At(a, i, t), At(b, t, j))
  }

  ghost function Row(a: Matrix, b: Matrix, n: nat, i: nat): (r: seq<int>)
    ensures |r| == n && forall j :: 0 <= j < n ==> r[j] == Sum(n, Terms(a, b, i, j))
  {
    seq(n, j requires 0 <= j < n => Sum(n, Terms(a, b, i, j)))
  }

  ghost function Mul(a: Matrix, b: Matrix, n: nat): (r: Matrix)
    ensures Square(r, n)
    ensures forall i: nat, j: nat :: i < n && j < n ==> At(r, i, j) == Sum(n, Terms(a, b, i, j))
  {
    seq(n, i requires 0 <= i < n => Row(a, b, n, i))
  }

  function Identity(n: nat): (r: Matrix)
    ensures Square(r, n)
    ensures forall i: nat, j: nat :: i < n && j < n ==> At(r, i, j) == if i == j then 1 else 0
  {
    seq(n, i requires 0 <= i < n => seq(n, j requires 0 <= j < n => if i == j then 1 else 0))
  }

  /** The plain power: `k` factors. */
  ghost function Power(m: Matrix, n: nat, k: nat): (r: Matrix)
    ensures Square(r, n)
  {
    if k == 0 then Identity(n) else Mul(Power(m, n, k - 1), m, n)
  }

  // ----- the laws of multiplication

  ghost function Triple(a: Matrix, b: Matrix, c: Matrix, i: nat, j: nat): (nat, nat) -> int
  {
    (t: nat, u: nat) => Prod(Prod(At(a, i, u), At(b, u, t)), At(c, t, j))
  }

  lemma Regroup(x: int, y: int, z: int)
    ensures Prod(Prod(x, y), z) == z * Prod(x, y) && Prod(Prod(x, y), z) == x * Prod(y, z)
  {
    assert x * y * z == x * (y * z);
  }

  ghost function Triple'(a: Matrix, b: Matrix, c: Matrix, i: nat, j: nat): (nat, nat) -> int
  {
    (u: nat, t: nat) => Prod(Prod(At(a, i, u), At(b, u, t)), At(c, t, j))
  }

  lemma LeftSum(a: Matrix, b: Matrix, c: Matrix, n: nat, i: nat, j: nat, t: nat)
    requires i < n && t < n
    ensures Terms(Mul(a, b, n), c, i, j)(t) == Sum(n, Line(Triple(a, b, c, i, j), t))
  {
    hide Prod, Mul;
    var g := Line(Triple(a, b, c, i, j), t);
    forall u: nat | u < n
      ensures g(u) == At(c, t, j) * Terms(a, b, i, t)(u)
    {
      assert g(u) == Prod(Prod(At(a, i, u), At(b, u, t)), At(c, t, j));
      Regroup(At(a, i, u), At(b, u, t), At(c, t, j));
    }
    SumScale(n, Terms(a, b, i, t), g, At(c, t, j));
    Commute(At(Mul(a, b, n), i, t), At(c, t, j));
  }

  lemma RightSum(a: Matrix, b: Matrix, c: Matrix, n: nat, i: nat, j: nat, u: nat)
    requires j < n && u < n
    ensures Terms(a, Mul(b, c, n), i, j)(u) == Sum(n, Line(Triple'(a, b, c, i, j), u))
  {
    hide Prod, Mul;
    var g := Line(Triple'(a, b, c, i, j), u);
    forall t: nat | t < n
      ensures g(t) == At(a, i, u) * Terms(b, c, u, j)(t)
    {
      assert g(t) == Prod(Prod(At(a, i, u), At(b, u, t)), At(c, t, j));
      Regroup(At(a, i, u), At(b, u, t), At(c, t, j));
    }
    SumScale(n, Terms(b, c, u, j), g, At(a, i, u));
    Commute(At(a, i, u), At(Mul(b, c, n), u, j));
  }

  lemma Commute(x: int, y: int)
    ensures Prod(x, y) == x * y == y * x
  {
  }

  lemma MulAssociates(a: Matrix, b: Matrix, c: Matrix, n: nat)
    ensures Mul(Mul(a, b, n), c, n) == Mul(a, Mul(b, c, n), n)
  {
    hide Mul, Terms;
    forall i: nat, j: nat | i < n && j < n
      ensures At(Mul(Mul(a, b, n), c, n), i, j) == At(Mul(a, Mul(b, c, n), n), i, j)
    {
      var f, f' := Triple(a, b, c, i, j), Triple'(a, b, c, i, j);
      forall t: nat | t < n
        ensures Terms(Mul(a, b, n), c, i, j)(t) == Lines(f, n)(t)
        ensures Terms(a, Mul(b, c, n), i, j)(t) == Lines(f', n)(t)
      {
        LeftSum(a, b, c, n, i, j, t);
        RightSum(a, b, c, n, i, j, t);
      }
      SumExt(n, Terms(Mul(a, b, n), c, i, j), Lines(f, n));
      SumExt(n, Terms(a, Mul(b, c, n), i, j), Lines(f', n));
      SwapTwo(n, n, f, f');
    }
    SameMatrix(Mul(Mul(a, b, n), c, n), Mul(a, Mul(b, c, n), n), n);
  }

  lemma MulIdentity(a: Matrix, n: nat)
    requires Square(a, n)
    ensures Mul(a, Identity(n), n) == a && Mul(Identity(n), a, n) == a
  {
    hide Identity, Mul;
    forall i: nat, j: nat | i < n && j < n
      ensures At(Mul(a, Identity(n), n), i, j) == At(a, i, j) == At(Mul(Identity(n), a, n), i, j)
    {
      SumSingle(n, j, At(a, i, j), Terms(a, Identity(n), i, j));
      SumSingle(n, i, At(a, i, j), Terms(Identity(n), a, i, j));
    }
    SameMatrix(Mul(a, Identity(n), n), a, n);
    SameMatrix(Mul(Identity(n), a, n), a, n);
  }

  lemma {:induction false} PowersMultiply(m: Matrix, n: nat, j: nat, k: nat)
    ensures Mul(Power(m, n, j), Power(m, n, k), n) == Power(m, n, j + k)
  {
    hide Mul, Identity;
    if k == 0 {
      MulIdentity(Power(m, n, j), n);
    } else {
      PowersMultiply(m, n, j, k - 1);
      MulAssociates(Power(m, n, j), Power(m, n, k - 1), m, n);
    }
  }

  // ----- repeated squaring on the matrix

  method Dot(a: Matrix, b: Matrix, n: nat, i: nat, j: nat) returns (r: int)
    requires Square(a, n) && Square(b, n) && i < n && j < n
    ensures r == Sum(n, Terms(a, b, i, j))
  {
    r := 0;
    for t := 0 to n
      invariant r == Sum(t, Terms(a, b, i, j))
    {
      r := r + a[i][t] * b[t][j];
    }
  }

  method Multiply(a: Matrix, b: Matrix, n: nat) returns (r: Matrix)
    requires Square(a, n) && Square(b, n)
    ensures r == Mul(a, b, n)
  {
    r := [];
    for i := 0 to n
      invariant |r| == i && forall k :: 0 <= k < i ==> r[k] == Row(a, b, n, k)
    {
      var row := [];
      for j := 0 to n
        invariant |row| == j && forall k :: 0 <= k < j ==> row[k] == Sum(n, Terms(a, b, i, k))
      {
        var d := Dot(a, b, n, i, j);
        row := row + [d];
      }
      assert row == Row(a, b, n, i);
      r := r + [row];
    }
  }

  /** Repeated squaring on the matrix itself. */
  method PowerNaive(m: Matrix, n: nat, exponent: nat) returns (r: Matrix)
    requires Square(m, n)
    ensures r == Power(m, n, exponent)
  {
    hide Mul, Identity;
    r := Identity(n);
    var base: Matrix, e: nat := m, exponent;
    ghost var done: nat, unit: nat := 0, 1;
    assert Power(m, n, 0) == Identity(n);
    PowerOne(m, n);
    while e > 0
      invariant r == Power(m, n, done) && (e > 0 ==> base == Power(m, n, unit)) && Square(base, n)
      invariant Split(done, unit, e, exponent)
    {
      SplitHalves(done, unit, e, exponent);
      if e % 2 == 1 {
        PowersMultiply(m, n, done, unit);
        r := Multiply(r, base, n);
        done := done + unit;
      }
      e := e / 2;
      if e > 0 {
        PowersMultiply(m, n, unit, unit);
        base := Multiply(base, base, n);
      }
      unit := unit + unit;
    }
  }

  lemma PowerOne(m: Matrix, n: nat)
    requires Square(m, n)
    ensures Power(m, n, 1) == m
  {
    hide Mul, Identity;
    assert Power(m, n, 0) == Identity(n);
    MulIdentity(m, n);
  }

  /** What square-and-multiply keeps: `done + unit * e` is the exponent. */
  ghost predicate Split(done: nat, unit: nat, e: nat, exponent: nat)
  {
    done + unit * e == exponent
  }

  lemma SplitHalves(done: nat, unit: nat, e: nat, exponent: nat)
    requires Split(done, unit, e, exponent)
    ensures Split(if e % 2 == 1 then done + unit else done, unit + unit, e / 2, exponent)
  {
    var h := e / 2;
    if e % 2 == 1 {
      assert unit * (2 * h + 1) == (unit + unit) * h + unit;
    } else {
      assert unit * (2 * h) == (unit + unit) * h;
    }
  }
}
