/** Powers of `x` modulo a monic polynomial, evaluated at a matrix the polynomial annihilates. */
module PolynomialPower {
  import opened Sums
  import opened MatrixPower

  // ----- polynomials acting on sequences

  ghost function Weighted(p: seq<int>, a: nat -> int, s: nat): nat -> int
  {
    (k: nat) => if k < |p| then Prod(p[k], a(k + s)) else 0
  }

  /** The polynomial `p` applied to the sequence `a` at place `s`: the sum of `p[k] * a(k + s)`. */
  ghost function Apply(p: seq<int>, a: nat -> int, s: nat): int
  {
    Sum(|p|, Weighted(p, a, s))
  }

  /** The sequence obeys the recurrence of the monic polynomial `c` of degree `n`. */
  ghost predicate Recurs(c: seq<int>, n: nat, a: nat -> int)
    requires |c| == n + 1
  {
    forall s: nat :: Apply(c[..n], a, s) + a(n + s) == 0
  }

  lemma ApplyUpdate(p: seq<int>, k: nat, v: int, a: nat -> int, s: nat)
    requires k < |p|
    ensures Apply(p[k := p[k] + v], a, s) == Apply(p, a, s) + Prod(v, a(k + s))
  {
    hide Prod;
    SumPoint(|p|, Weighted(p, a, s), Weighted(p[k := p[k] + v], a, s), k);
    Distribute(p[k], v, a(k + s));
  }

  lemma Distribute(x: int, y: int, z: int)
    ensures Prod(x + y, z) == Prod(x, z) + Prod(y, z)
  {
  }

  lemma ApplyPrefix(p: seq<int>, n: nat, a: nat -> int, s: nat)
    requires n <= |p| && forall k :: n <= k < |p| ==> p[k] == 0
    ensures Apply(p[..n], a, s) == Apply(p, a, s)
  {
    SumExt(n, Weighted(p[..n], a, s), Weighted(p, a, s));
    SumTail(n, |p|, Weighted(p, a, s));
  }

  // ----- one multiplication modulo `c`

  /** Add `coef * q`, shifted by `i`, for the first `j` coefficients of `q`. */
  function AddRow(prod: seq<int>, i: nat, coef: int, q: seq<int>, j: nat): (r: seq<int>)
    requires j <= |q| && i + |q| <= |prod|
    ensures |r| == |prod|
    ensures forall k :: 0 <= k < |prod| && !(i <= k < i + j) ==> r[k] == prod[k]
  {
    if j == 0 then prod else
      var r := AddRow(prod, i, coef, q, j - 1);
      r[i + j - 1 := r[i + j - 1] + coef * q[j - 1]]
  }

  lemma {:induction false} ApplyAddRow(prod: seq<int>, i: nat, coef: int, q: seq<int>, j: nat, a: nat -> int, s: nat)
    requires j <= |q| && i + |q| <= |prod|
    ensures Apply(AddRow(prod, i, coef, q, j), a, s) == Apply(prod, a, s) + Prod(coef, Sum(j, Weighted(q, a, i + s)))
  {
    hide Apply, Prod;
    if j == 0 {
      ProdZero(coef);
    } else {
      ApplyAddRow(prod, i, coef, q, j - 1, a, s);
      var r := AddRow(prod, i, coef, q, j - 1);
      ApplyUpdate(r, i + j - 1, coef * q[j - 1], a, s);
      var x := a(j - 1 + (i + s));
      assert j - 1 + (i + s) == i + j - 1 + s;
      Commute(coef, q[j - 1]);
      AddProducts(coef, Sum(j - 1, Weighted(q, a, i + s)), q[j - 1], x);
    }
  }

  lemma ProdZero(x: int)
    ensures Prod(x, 0) == 0 == Prod(0, x)
  {
  }

  lemma AddProducts(c: int, t: int, q: int, x: int)
    ensures Prod(c, t) + Prod(c * q, x) == Prod(c, t + Prod(q, x))
  {
    assert c * q * x == c * (q * x);
    assert c * (t + q * x) == c * t + c * (q * x);
  }

  /** The product of the first `i` coefficients of `p` with `q`. */
  function AddRows(p: seq<int>, q: seq<int>, n: nat, i: nat): (r: seq<int>)
    requires n > 0 && |p| == |q| == n && i <= n
    ensures |r| == 2 * n - 1
  {
    if i == 0 then seq(2 * n - 1, _ => 0) else AddRow(AddRows(p, q, n, i - 1), i - 1, p[i - 1], q, n)
  }

  /** The terms `p[i] * (q applied at i + s)`. */
  ghost function Shifts(p: seq<int>, q: seq<int>, a: nat -> int, s: nat): nat -> int
  {
    (i: nat) => if i < |p| then Prod(p[i], Apply(q, a, i + s)) else 0
  }

  lemma ApplyZeros(p: seq<int>, a: nat -> int, s: nat)
    requires forall k :: 0 <= k < |p| ==> p[k] == 0
    ensures Apply(p, a, s) == 0
  {
    SumZero(|p|, Weighted(p, a, s));
  }

  lemma {:induction false} ApplyAddRows(p: seq<int>, q: seq<int>, n: nat, i: nat, a: nat -> int, s: nat)
    requires n > 0 && |p| == |q| == n && i <= n
    ensures Apply(AddRows(p, q, n, i), a, s) == Sum(i, Shifts(p, q, a, s))
  {
    hide Prod, AddRow, Weighted;
    if i == 0 {
      ApplyZeros(AddRows(p, q, n, 0), a, s);
    } else {
      ApplyAddRows(p, q, n, i - 1, a, s);
      ApplyAddRow(AddRows(p, q, n, i - 1), i - 1, p[i - 1], q, n, a, s);
    }
  }

  /** Replace the term of degree `i` by lower ones. */
  function ReduceTerm(prod: seq<int>, c: seq<int>, n: nat, i: nat): (r: seq<int>)
    requires |c| == n + 1 && n <= i < |prod|
    ensures |r| == |prod| && r[i] == 0
    ensures forall k :: i < k < |prod| ==> r[k] == prod[k]
  {
    AddRow(prod[i := 0], i - n, -prod[i], c[..n], n)
  }

  lemma ApplyReduceTerm(prod: seq<int>, c: seq<int>, n: nat, i: nat, a: nat -> int, s: nat)
    requires |c| == n + 1 && n <= i < |prod| && Recurs(c, n, a)
    ensures Apply(ReduceTerm(prod, c, n, i), a, s) == Apply(prod, a, s)
  {
    hide Prod, AddRow, Recurs;
    var coef := prod[i];
    ApplyUpdate(prod, i, -coef, a, s);
    ApplyAddRow(prod[i := 0], i - n, -coef, c[..n], n, a, s);
    RecursAt(c, n, a, i - n + s);
    assert n + (i - n + s) == i + s;
    var low := Apply(c[..n], a, i - n + s);
    Cancels(-coef, a(i + s), low);
  }

  lemma RecursAt(c: seq<int>, n: nat, a: nat -> int, s: nat)
    requires |c| == n + 1 && Recurs(c, n, a)
    ensures Apply(c[..n], a, s) + a(n + s) == 0
  {
  }

  lemma Cancels(x: int, y: int, z: int)
    requires z + y == 0
    ensures Prod(x, y) + Prod(x, z) == 0
  {
    assert x * y + x * z == x * (y + z);
  }

  /** Reduce the terms of degree `i - 1, ..., n`, highest first. */
  function ReduceDown(prod: seq<int>, c: seq<int>, n: nat, i: nat): (r: seq<int>)
    requires |c| == n + 1 && n <= i <= |prod|
    ensures |r| == |prod|
    ensures (forall k :: i <= k < |prod| ==> prod[k] == 0) ==> forall k :: n <= k < |prod| ==> r[k] == 0
    decreases i
  {
    if i == n then prod else ReduceDown(ReduceTerm(prod, c, n, i - 1), c, n, i - 1)
  }

  lemma {:induction false} ApplyReduceDown(prod: seq<int>, c: seq<int>, n: nat, i: nat, a: nat -> int, s: nat)
    requires |c| == n + 1 && n <= i <= |prod| && Recurs(c, n, a)
    ensures Apply(ReduceDown(prod, c, n, i), a, s) == Apply(prod, a, s)
    decreases i
  {
    hide Apply, ReduceTerm, Recurs;
    if i > n {
      ApplyReduceTerm(prod, c, n, i - 1, a, s);
      ApplyReduceDown(ReduceTerm(prod, c, n, i - 1), c, n, i - 1, a, s);
    }
  }

  function MulMod(p: seq<int>, q: seq<int>, c: seq<int>, n: nat): (r: seq<int>)
    requires n > 0 && |p| == |q| == n && |c| == n + 1
    ensures |r| == n
  {
    ReduceDown(AddRows(p, q, n, n), c, n, 2 * n - 1)[..n]
  }

  /** On every sequence with the recurrence of `c`, the reduced product acts as `p` after `q`. */
  lemma MulModActs(p: seq<int>, q: seq<int>, c: seq<int>, n: nat, a: nat -> int, s: nat)
    requires n > 0 && |p| == |q| == n && |c| == n + 1 && Recurs(c, n, a)
    ensures Apply(MulMod(p, q, c, n), a, s) == Sum(n, Shifts(p, q, a, s))
  {
    hide Apply, Recurs, AddRows;
    var prod := AddRows(p, q, n, n);
    ApplyAddRows(p, q, n, n, a, s);
    ApplyReduceDown(prod, c, n, 2 * n - 1, a, s);
    ApplyPrefix(ReduceDown(prod, c, n, 2 * n - 1), n, a, s);
  }

  method PolyMulMod(p: seq<int>, q: seq<int>, c: seq<int>, n: nat) returns (r: seq<int>)
    requires n > 0 && |p| == |q| == n && |c| == n + 1
    ensures r == MulMod(p, q, c, n)
  {
    var prod := seq(2 * n - 1, _ => 0);
    for i := 0 to n
      invariant prod == AddRows(p, q, n, i)
    {
      if p[i] != 0 {
        prod := PlusRow(prod, i, p[i], q, n);
      } else {
        AddNothing(prod, i, q, n);
      }
    }
    r := Reduce(prod, c, n);
  }

  /** Reduce a product from its highest term down. */
  method Reduce(product: seq<int>, c: seq<int>, n: nat) returns (r: seq<int>)
    requires n > 0 && |product| == 2 * n - 1 && |c| == n + 1
    ensures r == ReduceDown(product, c, n, 2 * n - 1)[..n]
  {
    hide AddRow;
    var prod := product;
    for i := 2 * n - 1 downto n
      invariant |prod| == 2 * n - 1
      invariant ReduceDown(prod, c, n, i) == ReduceDown(product, c, n, 2 * n - 1)
    {
      var coef := prod[i];
      if coef != 0 {
        prod := PlusRow(prod[i := 0], i - n, -coef, c[..n], n);
      } else {
        assert prod[i := 0] == prod;
        AddNothing(prod, i - n, c[..n], n);
      }
    }
    r := prod[..n];
  }

  method PlusRow(prod: seq<int>, i: nat, coef: int, q: seq<int>, n: nat) returns (r: seq<int>)
    requires |q| == n && i + n <= |prod|
    ensures r == AddRow(prod, i, coef, q, n)
  {
    r := prod;
    for j := 0 to n
      invariant r == AddRow(prod, i, coef, q, j)
    {
      if q[j] != 0 {
        r := r[i + j := r[i + j] + coef * q[j]];
      }
    }
  }

  lemma {:induction false} AddNothing(prod: seq<int>, i: nat, q: seq<int>, j: nat)
    requires j <= |q| && i + |q| <= |prod|
    ensures AddRow(prod, i, 0, q, j) == prod
  {
    if j > 0 {
      AddNothing(prod, i, q, j - 1);
    }
  }

  // ----- powers of a matrix as sequences

  /** Entry `(i, j)` of the powers of `m`. */
  ghost function Entries(m: Matrix, n: nat, i: nat, j: nat): nat -> int
  {
    (k: nat) => At(Power(m, n, k), i, j)
  }

  /** `c`, monic of degree `n`, annihilates `m`: the sum of `c[k] m^k`, up to `m^n`, is zero. */
  ghost predicate Annihilates(c: seq<int>, m: Matrix, n: nat)
  {
    |c| == n + 1 && c[n] == 1 &&
    forall i: nat, j: nat :: i < n && j < n ==> Apply(c[..n], Entries(m, n, i, j), 0) + At(Power(m, n, n), i, j) == 0
  }

  /** The relation at place `s`, as entries. */
  ghost predicate RelationAt(c: seq<int>, m: Matrix, n: nat, s: nat)
    requires |c| == n + 1
  {
    forall i: nat, j: nat :: i < n && j < n ==>
      Apply(c[..n], Entries(m, n, i, j), s) + At(Power(m, n, n + s), i, j) == 0
  }

  ghost function Cross(c: seq<int>, m: Matrix, n: nat, s: nat, i: nat, j: nat): (nat, nat) -> int
  {
    (k: nat, t: nat) => if k < |c| then Prod(c[k], Prod(At(Power(m, n, k + s), i, t), At(m, t, j))) else 0
  }

  ghost function Cross'(c: seq<int>, m: Matrix, n: nat, s: nat, i: nat, j: nat): (nat, nat) -> int
  {
    (t: nat, k: nat) => if k < |c| then Prod(c[k], Prod(At(Power(m, n, k + s), i, t), At(m, t, j))) else 0
  }

  /** Multiplying a relation by `m` on the right moves it one place on. */
  lemma ApplyNext(c: seq<int>, m: Matrix, n: nat, s: nat, i: nat, j: nat, h: nat -> int)
    requires i < n && j < n
    requires forall t: nat :: t < n ==> h(t) == At(m, t, j) * Apply(c, Entries(m, n, i, t), s)
    ensures Apply(c, Entries(m, n, i, j), s + 1) == Sum(n, h)
  {
    var f, f' := Cross(c, m, n, s, i, j), Cross'(c, m, n, s, i, j);
    forall k: nat | k < |c|
      ensures Weighted(c, Entries(m, n, i, j), s + 1)(k) == Lines(f, n)(k)
    {
      EntryNext(c, m, n, s, i, j, k);
    }
    SumExt(|c|, Weighted(c, Entries(m, n, i, j), s + 1), Lines(f, n));
    SwapTwo(|c|, n, f, f');
    forall t: nat | t < n
      ensures Lines(f', |c|)(t) == h(t)
    {
      ColumnNext(c, m, n, s, i, j, t);
    }
    SumExt(n, Lines(f', |c|), h);
  }

  lemma EntryNext(c: seq<int>, m: Matrix, n: nat, s: nat, i: nat, j: nat, k: nat)
    requires i < n && j < n && k < |c|
    ensures Weighted(c, Entries(m, n, i, j), s + 1)(k) == Sum(n, Line(Cross(c, m, n, s, i, j), k))
  {
    hide Prod, Mul;
    var p := Power(m, n, k + s);
    assert Power(m, n, k + (s + 1)) == Mul(p, m, n);
    var g := Line(Cross(c, m, n, s, i, j), k);
    forall t: nat | t < n
      ensures g(t) == c[k] * Terms(p, m, i, j)(t)
    {
      Commute(c[k], Prod(At(p, i, t), At(m, t, j)));
    }
    SumScale(n, Terms(p, m, i, j), g, c[k]);
    Commute(c[k], Sum(n, Terms(p, m, i, j)));
  }

  lemma Pull(x: int, y: int, z: int)
    ensures Prod(x, Prod(y, z)) == z * Prod(x, y)
  {
    assert x * (y * z) == z * (x * y);
  }

  lemma ColumnTerm(c: seq<int>, m: Matrix, n: nat, s: nat, i: nat, j: nat, t: nat, k: nat, w: int, g: int)
    requires k < |c| && w == Weighted(c, Entries(m, n, i, t), s)(k)
    requires g == Line(Cross'(c, m, n, s, i, j), t)(k)
    ensures g == At(m, t, j) * w
  {
    hide Prod, Power, At;
    Pull(c[k], At(Power(m, n, k + s), i, t), At(m, t, j));
  }

  lemma ColumnNext(c: seq<int>, m: Matrix, n: nat, s: nat, i: nat, j: nat, t: nat)
    requires i < n && t < n
    ensures Sum(|c|, Line(Cross'(c, m, n, s, i, j), t)) == At(m, t, j) * Apply(c, Entries(m, n, i, t), s)
  {
    hide Prod, Power, At, Weighted, Cross';
    var f, g, z := Weighted(c, Entries(m, n, i, t), s), Line(Cross'(c, m, n, s, i, j), t), At(m, t, j);
    forall k: nat | k < |c|
      ensures g(k) == z * f(k)
    {
      ColumnTerm(c, m, n, s, i, j, t, k, f(k), g(k));
    }
    SumScale(|c|, f, g, z);
  }

  lemma {:induction false} RelationEverywhere(c: seq<int>, m: Matrix, n: nat, s: nat)
    requires Annihilates(c, m, n)
    ensures RelationAt(c, m, n, s)
  {
    hide Apply, Power, Mul;
    if s > 0 {
      RelationEverywhere(c, m, n, s - 1);
      forall i: nat, j: nat | i < n && j < n
        ensures Apply(c[..n], Entries(m, n, i, j), s) + At(Power(m, n, n + s), i, j) == 0
      {
        RelationNext(c, m, n, s - 1, i, j);
      }
    }
  }

  lemma RelationNext(c: seq<int>, m: Matrix, n: nat, s: nat, i: nat, j: nat)
    requires |c| == n + 1 && RelationAt(c, m, n, s) && i < n && j < n
    ensures Apply(c[..n], Entries(m, n, i, j), s + 1) + At(Power(m, n, n + (s + 1)), i, j) == 0
  {
    hide Apply, Mul;
    var low, p := c[..n], Power(m, n, n + s);
    var h := (t: nat) => At(m, t, j) * Apply(low, Entries(m, n, i, t), s);
    ApplyNext(low, m, n, s, i, j, h);
    assert Power(m, n, n + (s + 1)) == Mul(p, m, n);
    forall t: nat | t < n
      ensures h(t) == -1 * Terms(p, m, i, j)(t)
    {
      assert Apply(low, Entries(m, n, i, t), s) == -At(p, i, t);
      Opposite(At(m, t, j), At(p, i, t));
    }
    SumScale(n, Terms(p, m, i, j), h, -1);
  }

  lemma Opposite(x: int, y: int)
    ensures x * -y == -1 * Prod(y, x)
  {
  }

  lemma EntriesRecur(c: seq<int>, m: Matrix, n: nat, i: nat, j: nat)
    requires Annihilates(c, m, n) && i < n && j < n
    ensures Recurs(c, n, Entries(m, n, i, j))
  {
    hide Apply, Power;
    forall s: nat
      ensures Apply(c[..n], Entries(m, n, i, j), s) + Entries(m, n, i, j)(n + s) == 0
    {
      RelationEverywhere(c, m, n, s);
    }
  }

  // ----- square and multiply

  /** On the powers of `m`, the polynomial `p` acts as `x^k`. */
  ghost predicate Represents(m: Matrix, n: nat, p: seq<int>, k: nat)
  {
    |p| == n && forall i: nat, j: nat, s: nat :: i < n && j < n ==>
      Apply(p, Entries(m, n, i, j), s) == At(Power(m, n, k + s), i, j)
  }

  lemma RepresentsProduct(m: Matrix, n: nat, c: seq<int>, p: seq<int>, j: nat, q: seq<int>, k: nat)
    requires n > 0 && Annihilates(c, m, n) && Represents(m, n, p, j) && Represents(m, n, q, k)
    ensures Represents(m, n, MulMod(p, q, c, n), j + k)
  {
    hide Apply, Power, MulMod, Prod, Annihilates;
    AnnihilatorSize(c, m, n);
    forall u: nat, v: nat, s: nat | u < n && v < n
      ensures Apply(MulMod(p, q, c, n), Entries(m, n, u, v), s) == At(Power(m, n, j + k + s), u, v)
    {
      var a := Entries(m, n, u, v);
      EntriesRecur(c, m, n, u, v);
      MulModActs(p, q, c, n, a, s);
      forall i: nat | i < n
        ensures Shifts(p, q, a, s)(i) == Weighted(p, a, k + s)(i)
      {
        assert Apply(q, a, i + s) == At(Power(m, n, k + (i + s)), u, v);
        assert k + (i + s) == i + (k + s);
      }
      SumExt(n, Shifts(p, q, a, s), Weighted(p, a, k + s));
      ApplyIsSum(p, a, k + s);
      assert j + (k + s) == j + k + s;
    }
  }

  lemma AnnihilatorSize(c: seq<int>, m: Matrix, n: nat)
    requires Annihilates(c, m, n)
    ensures |c| == n + 1
  {
  }

  lemma ApplyIsSum(p: seq<int>, a: nat -> int, s: nat)
    ensures Apply(p, a, s) == Sum(|p|, Weighted(p, a, s))
  {
  }

  /** The polynomial `x^d`, for `d` below the degree. */
  function Monomial(n: nat, d: nat): (r: seq<int>)
    requires d < n
    ensures |r| == n && forall k :: 0 <= k < n ==> r[k] == if k == d then 1 else 0
  {
    seq(n, k => if k == d then 1 else 0)
  }

  lemma MonomialRepresents(m: Matrix, n: nat, d: nat)
    requires d < n
    ensures Represents(m, n, Monomial(n, d), d)
  {
    hide Power;
    forall i: nat, j: nat, s: nat | i < n && j < n
      ensures Apply(Monomial(n, d), Entries(m, n, i, j), s) == At(Power(m, n, d + s), i, j)
    {
      SumSingle(n, d, At(Power(m, n, d + s), i, j), Weighted(Monomial(n, d), Entries(m, n, i, j), s));
    }
  }

  /** `x^exponent` modulo `c`. */
  method PowerOfX(n: nat, c: seq<int>, exponent: nat, ghost m: Matrix) returns (result: seq<int>)
    requires n >= 2 && Annihilates(c, m, n)
    ensures Represents(m, n, result, exponent)
  {
    hide Represents, Annihilates, MulMod, Monomial;
    AnnihilatorSize(c, m, n);
    result := Monomial(n, 0);
    var base := Monomial(n, 1);
    var e: nat := exponent;
    ghost var done: nat, unit: nat := 0, 1;
    MonomialRepresents(m, n, 0);
    MonomialRepresents(m, n, 1);
    while e > 0
      invariant |result| == |base| == n
      invariant Represents(m, n, result, done) && (e > 0 ==> Represents(m, n, base, unit))
      invariant Split(done, unit, e, exponent)
    {
      SplitHalves(done, unit, e, exponent);
      if e % 2 == 1 {
        RepresentsProduct(m, n, c, result, done, base, unit);
        result := PolyMulMod(result, base, c, n);
        done := done + unit;
      }
      e := e / 2;
      if e > 0 {
        RepresentsProduct(m, n, c, base, unit, base, unit);
        base := PolyMulMod(base, base, c, n);
      }
      unit := unit + unit;
    }
  }

  // ----- evaluation

  method Scaled(a: Matrix, coef: int, b: Matrix, n: nat) returns (r: Matrix)
    requires Square(a, n) && Square(b, n)
    ensures Square(r, n)
    ensures forall i: nat, j: nat :: i < n && j < n ==> At(r, i, j) == At(a, i, j) + Prod(coef, At(b, i, j))
  {
    r := a;
    for i := 0 to n
      invariant Square(r, n)
      invariant forall u: nat, v: nat :: u < n && v < n ==>
        At(r, u, v) == At(a, u, v) + if u < i then Prod(coef, At(b, u, v)) else 0
    {
      var row := r[i];
      for j := 0 to n
        invariant |row| == n
        invariant forall v: nat :: v < n ==> row[v] == r[i][v] + if v < j then Prod(coef, At(b, i, v)) else 0
      {
        if b[i][j] != 0 {
          row := row[j := row[j] + coef * b[i][j]];
        }
      }
      assert forall v: nat :: v < n ==> At(r, i, v) == r[i][v];
      r := r[i := row];
    }
  }

  method Powers(m: Matrix, n: nat) returns (powers: seq<Matrix>)
    requires Square(m, n)
    ensures |powers| == n && forall k :: 0 <= k < n ==> powers[k] == Power(m, n, k)
  {
    hide Mul, Identity;
    if n == 0 {
      return [];
    }
    powers := [Identity(n)];
    assert Power(m, n, 0) == Identity(n);
    for k := 1 to n
      invariant |powers| == k && forall i :: 0 <= i < k ==> powers[i] == Power(m, n, i)
    {
      var next := Multiply(powers[k - 1], m, n);
      powers := powers + [next];
    }
  }

  method Evaluate(p: seq<int>, m: Matrix, n: nat) returns (out: Matrix)
    requires Square(m, n) && |p| == n
    ensures Square(out, n)
    ensures forall i: nat, j: nat :: i < n && j < n ==> At(out, i, j) == Apply(p, Entries(m, n, i, j), 0)
  {
    hide Power, Mul, Prod;
    var powers := Powers(m, n);
    out := seq(n, _ => seq(n, _ => 0));
    for k := 0 to n
      invariant Square(out, n)
      invariant forall i: nat, j: nat :: i < n && j < n ==> At(out, i, j) == Sum(k, Weighted(p, Entries(m, n, i, j), 0))
    {
      if p[k] != 0 {
        out := Scaled(out, p[k], powers[k], n);
      } else {
        forall i: nat, j: nat | i < n && j < n
          ensures Weighted(p, Entries(m, n, i, j), 0)(k) == 0
        {
          ProdZero(At(Power(m, n, k), i, j));
        }
      }
    }
  }

  function IntPower(b: int, e: nat): int
  {
    if e == 0 then 1 else IntPower(b, e - 1) * b
  }

  lemma {:induction false} OneByOne(m: Matrix, e: nat)
    requires Square(m, 1)
    ensures Power(m, 1, e) == [[IntPower(m[0][0], e)]]
  {
    if e == 0 {
      SameMatrix(Identity(1), [[1]], 1);
    } else {
      OneByOne(m, e - 1);
      var p := Power(m, 1, e - 1);
      assert Sum(1, Terms(p, m, 0, 0)) == Sum(0, Terms(p, m, 0, 0)) + Terms(p, m, 0, 0)(0);
      SameMatrix(Power(m, 1, e), [[IntPower(m[0][0], e)]], 1);
    }
  }

  /** `m^exponent`, by way of `x^exponent` modulo a polynomial that annihilates `m`. */
  method IntegerMatrixPower(m: Matrix, n: nat, c: seq<int>, exponent: nat) returns (r: Matrix)
    requires n > 0 && Square(m, n) && Annihilates(c, m, n)
    ensures r == Power(m, n, exponent)
  {
    hide Annihilates, Apply, Mul, Identity;
    if n == 1 {
      OneByOne(m, exponent);
      return [[IntPower(m[0][0], exponent)]];
    }
    var p := PowerOfX(n, c, exponent, m);
    r := Evaluate(p, m, n);
    forall i: nat, j: nat | i < n && j < n
      ensures At(r, i, j) == At(Power(m, n, exponent), i, j)
    {
      assert Apply(p, Entries(m, n, i, j), 0) == At(Power(m, n, exponent + 0), i, j);
    }
    SameMatrix(r, Power(m, n, exponent), n);
  }
}
