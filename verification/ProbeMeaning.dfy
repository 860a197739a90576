/** What the probe reads: the expectation of uniformly drawn seam means on a one-hot start. */
module ProbeMeaning {
  import opened Basics
  import opened Sums
  import opened MatrixPower
  import opened PolynomialPower
  import opened UnionFind
  import opened Probe

  type Field = nat -> real

  /** The readings after the mean of one seam. */
  ghost function OneMean(x: Field, s: Seam): Field
  {
    (p: nat) => if p == s.0 || p == s.1 then (x(s.0) + x(s.1)) / 2.0 else x(p)
  }

  /** The sum of a real over a list of seams. */
  ghost function Over(seams: seq<Seam>, f: Seam -> real): real
  {
    if seams == [] then 0.0 else Over(seams[..|seams| - 1], f) + f(seams[|seams| - 1])
  }

  ghost function MeanAt(x: Field, p: nat): Seam -> real
  {
    (s: Seam) => OneMean(x, s)(p)
  }

  /** The expected readings after the mean of one uniformly drawn seam. */
  ghost function Expected(seams: seq<Seam>, x: Field): Field
    requires seams != []
  {
    (p: nat) => Over(seams, MeanAt(x, p)) / |seams| as real
  }

  ghost function Steps(seams: seq<Seam>, x: Field, t: nat): Field
    requires seams != []
  {
    if t == 0 then x else Expected(seams, Steps(seams, x, t - 1))
  }

  ghost function OneHot(p: nat): Field
  {
    (q: nat) => if q == p then 1.0 else 0.0
  }

  /** No seam leaves the component. */
  ghost predicate Closed(comp: seq<nat>, seams: seq<Seam>)
  {
    forall s :: s in seams ==> (s.0 in comp <==> s.1 in comp)
  }

  // ----- the Laplacian on integers

  /** What one seam takes from the reading at `p`. */
  ghost function Pull(comp: seq<nat>, z: nat -> int, p: nat): Seam -> int
  {
    (s: Seam) =>
      if s.0 !in comp || s.1 !in comp then 0
      else if p == s.0 then z(s.0) - z(s.1) else if p == s.1 then z(s.1) - z(s.0) else 0
  }

  /** One seam's share of the Laplacian row of `p`, applied to `z`. */
  ghost function Share(comp: seq<nat>, s: Seam, z: nat -> int, p: nat): nat -> int
  {
    (c: nat) => if c < |comp| then Touch(comp, s, p, comp[c]) * z(comp[c]) else 0
  }

  ghost function LaplacianRow(comp: seq<nat>, seams: seq<Seam>, z: nat -> int, p: nat): nat -> int
  {
    (c: nat) => if c < |comp| then LaplacianEntry(comp, seams, p, comp[c]) * z(comp[c]) else 0
  }

  lemma SumTwo(n: nat, i: nat, j: nat, f: nat -> int)
    requires i < n && j < n && i != j && forall c: nat :: c < n && c != i && c != j ==> f(c) == 0
    ensures Sum(n, f) == f(i) + f(j)
  {
    var g := (c: nat) => if c == j then 0 else f(c);
    SumPoint(n, g, f, j);
    SumSingle(n, i, f(i), g);
  }

  lemma ShareIsPull(comp: seq<nat>, s: Seam, z: nat -> int, b: nat)
    requires Distinct(comp) && b < |comp| && s.0 != s.1
    ensures Sum(|comp|, Share(comp, s, z, comp[b])) == Pull(comp, z, comp[b])(s)
  {
    hide Sum;
    var f, p := Share(comp, s, z, comp[b]), comp[b];
    if s.0 !in comp || s.1 !in comp || (p != s.0 && p != s.1) {
      SumZero(|comp|, f);
    } else {
      var i :| 0 <= i < |comp| && comp[i] == s.0;
      var j :| 0 <= j < |comp| && comp[j] == s.1;
      forall c: nat | c < |comp| && c != i && c != j
        ensures f(c) == 0
      {
        SameIndex(comp, c, i);
        SameIndex(comp, c, j);
      }
      SumTwo(|comp|, i, j, f);
    }
  }

  lemma ShareAdds(comp: seq<nat>, seams: seq<Seam>, s: Seam, z: nat -> int, p: nat)
    ensures Sum(|comp|, LaplacianRow(comp, seams + [s], z, p)) ==
            Sum(|comp|, LaplacianRow(comp, seams, z, p)) + Sum(|comp|, Share(comp, s, z, p))
  {
    hide Touch;
    var f, g, h := LaplacianRow(comp, seams, z, p), Share(comp, s, z, p), LaplacianRow(comp, seams + [s], z, p);
    forall c: nat | c < |comp|
      ensures h(c) == f(c) + 1 * g(c)
    {
      TallySnoc(seams, s, Touches(comp, p, comp[c]));
      Distribute(LaplacianEntry(comp, seams, p, comp[c]), Touch(comp, s, p, comp[c]), z(comp[c]));
    }
    SumLinear(|comp|, f, g, h, 1);
  }

  lemma Distribute(x: int, y: int, v: int)
    ensures (x + y) * v == x * v + y * v
  {
  }

  /** The Laplacian takes from a reading what the seams take. */
  lemma {:induction false} LaplacianPulls(comp: seq<nat>, seams: seq<Seam>, z: nat -> int, b: nat)
    requires Distinct(comp) && b < |comp| && ProperSeams(seams)
    ensures Sum(|comp|, LaplacianRow(comp, seams, z, comp[b])) == Tally(seams, Pull(comp, z, comp[b]))
  {
    hide Distinct, LaplacianEntry, Pull, Share;
    if seams == [] {
      NoRow(comp, z, comp[b]);
    } else {
      var last := |seams| - 1;
      var most, s := seams[..last], seams[last];
      assert seams == most + [s] && s in seams;
      LaplacianPulls(comp, most, z, b);
      ShareAdds(comp, most, s, z, comp[b]);
      ShareIsPull(comp, s, z, b);
    }
  }

  lemma NoRow(comp: seq<nat>, z: nat -> int, p: nat)
    ensures Sum(|comp|, LaplacianRow(comp, [], z, p)) == 0
  {
    SumZero(|comp|, LaplacianRow(comp, [], z, p));
  }

  /** Column `a` of a matrix, by port. */
  ghost function Column(comp: seq<nat>, m: Matrix, a: nat): nat -> int
  {
    (p: nat) => if c: nat :| c < |comp| && comp[c] == p then At(m, c, a) else 0
  }

  lemma ColumnAt(comp: seq<nat>, m: Matrix, a: nat, c: nat)
    requires Distinct(comp) && c < |comp|
    ensures Column(comp, m, a)(comp[c]) == At(m, c, a)
  {
  }

  ghost function Diagonal(m: Matrix, twice: int, b: nat, a: nat): nat -> int
  {
    (c: nat) => if c == b then twice * At(m, c, a) else 0
  }

  /** One more factor `2 S I - L` from the left. */
  lemma LeftFactor(comp: seq<nat>, seams: seq<Seam>, m: Matrix, b: nat, a: nat)
    requires Distinct(comp) && ProperSeams(seams) && b < |comp| && a < |comp|
    ensures At(Mul(Expectation(comp, seams, |seams|), m, |comp|), b, a) ==
            2 * |seams| * At(m, b, a) - Tally(seams, Pull(comp, Column(comp, m, a), comp[b]))
  {
    hide Mul, LaplacianEntry, Distinct, Column, Pull, Prod, Sum, Expectation, IsExpectation;
    var e, z := Expectation(comp, seams, |seams|), Column(comp, m, a);
    var f, g, h := Diagonal(m, 2 * |seams|, b, a), LaplacianRow(comp, seams, z, comp[b]), Terms(e, m, b, a);
    forall c: nat | c < |comp|
      ensures h(c) == f(c) + -1 * g(c)
    {
      ColumnAt(comp, m, a, c);
      ExpectationEntry(comp, seams, b, c);
      EntryTimes(if c == b then 2 * |seams| else 0, LaplacianEntry(comp, seams, comp[b], comp[c]), At(m, c, a));
    }
    SumLinear(|comp|, f, g, h, -1);
    SumSingle(|comp|, b, 2 * |seams| * At(m, b, a), f);
    LaplacianPulls(comp, seams, z, b);
  }

  lemma ExpectationEntry(comp: seq<nat>, seams: seq<Seam>, b: nat, c: nat)
    requires b < |comp| && c < |comp|
    ensures At(Expectation(comp, seams, |seams|), b, c) ==
            (if c == b then 2 * |seams| else 0) - LaplacianEntry(comp, seams, comp[b], comp[c])
  {
  }

  lemma EntryTimes(d: int, l: int, v: int)
    ensures Prod(d - l, v) == d * v - l * v
  {
  }

  // ----- the expectation on reals

  ghost function RealPull(x: Field, p: nat): Seam -> real
  {
    (s: Seam) => if p == s.0 then x(s.0) - x(s.1) else if p == s.1 then x(s.1) - x(s.0) else 0.0
  }

  /** A seam mean takes half of the pull. */
  lemma {:induction false} MeansByPulls(list: seq<Seam>, x: Field, p: nat)
    ensures Over(list, MeanAt(x, p)) == |list| as real * x(p) - Over(list, RealPull(x, p)) / 2.0
  {
    if list != [] {
      var last := |list| - 1;
      MeansByPulls(list[..last], x, p);
      assert OneMean(x, list[last])(p) == x(p) - RealPull(x, p)(list[last]) / 2.0;
      OneMoreTimes(last, x(p));
    }
  }

  lemma OneMoreTimes(n: nat, v: real)
    ensures (n + 1) as real * v == n as real * v + v
  {
  }

  /** The integer readings are the real ones, `d` times as large. */
  ghost predicate Carries(comp: seq<nat>, z: nat -> int, x: Field, d: real)
  {
    forall q :: q in comp ==> z(q) as real == Times(x(q), d)
  }

  lemma {:induction false} PullsCarry(comp: seq<nat>, list: seq<Seam>, z: nat -> int, x: Field, p: nat, d: real)
    requires Carries(comp, z, x, d) && Closed(comp, list) && p in comp
    ensures Tally(list, Pull(comp, z, p)) as real == Times(Over(list, RealPull(x, p)), d)
  {
    hide Times;
    if list == [] {
      ZeroTimes(d);
    } else {
      var last := |list| - 1;
      var s := list[last];
      assert s in list;
      PullsCarry(comp, list[..last], z, x, p, d);
      DifferenceTimes(x(s.0), x(s.1), d);
      DifferenceTimes(x(s.1), x(s.0), d);
      ZeroTimes(d);
      SumTimes(Over(list[..last], RealPull(x, p)), RealPull(x, p)(s), d);
    }
  }

  lemma ZeroTimes(d: real)
    ensures Times(0.0, d) == 0.0
  {
  }

  lemma SumTimes(u: real, v: real, d: real)
    ensures Times(u + v, d) == Times(u, d) + Times(v, d)
  {
  }

  lemma DifferenceTimes(u: real, v: real, d: real)
    ensures Times(u - v, d) == Times(u, d) - Times(v, d)
  {
  }

  /** The arithmetic of one step: twice `S` times the expectation is what `2 S I - L` computes. */
  lemma StepArithmetic(x: real, pulls: real, count: real, d: real, next: real)
    requires count > 0.0 && next == (count * x - pulls / 2.0) / count
    ensures 2.0 * count * Times(x, d) - Times(pulls, d) == Times(next, 2.0 * count * d)
  {
    assert next * count == count * x - pulls / 2.0;
    assert Times(next, 2.0 * count * d) == 2.0 * (next * count) * d;
    assert 2.0 * (count * x - pulls / 2.0) * d == 2.0 * count * (x * d) - pulls * d;
  }

  lemma IntegerStep(v: int, pulled: int, count: nat, e: int, x: real, pulls: real, next: real)
    requires v as real == Times(x, e as real) && pulled as real == Times(pulls, e as real)
    requires count > 0 && next == (count as real * x - pulls / 2.0) / count as real
    ensures (2 * count * v - pulled) as real == Times(next, (e * (2 * count)) as real)
  {
    AsReals(count, v, e);
    StepArithmetic(x, pulls, count as real, e as real, next);
  }

  ghost function Power2S(seams: seq<Seam>, t: nat): int
  {
    IntPower(2 * |seams|, t)
  }

  /** Column `a` of the power carries the expected readings of the one-hot start. */
  lemma {:induction false} PowerCarries(comp: seq<nat>, seams: seq<Seam>, t: nat, a: nat)
    requires seams != [] && Distinct(comp) && ProperSeams(seams) && Closed(comp, seams) && a < |comp|
    ensures Carries(comp, Column(comp, Power(Expectation(comp, seams, |seams|), |comp|, t), a),
                    Steps(seams, OneHot(comp[a]), t), Power2S(seams, t) as real)
  {
    hide Column, Power, Expected, Closed, Distinct, Expectation;
    var m := Expectation(comp, seams, |seams|);
    forall q | q in comp
      ensures Column(comp, Power(m, |comp|, t), a)(q) as real ==
              Times(Steps(seams, OneHot(comp[a]), t)(q), Power2S(seams, t) as real)
    {
      var b: nat :| b < |comp| && comp[b] == q;
      ColumnAt(comp, Power(m, |comp|, t), a, b);
      if t == 0 {
        PowerStarts(comp, m, b, a);
      } else {
        PowerCarries(comp, seams, t - 1, a);
        NextEntry(comp, seams, t - 1, b, a);
      }
    }
  }

  lemma PowerStarts(comp: seq<nat>, m: Matrix, b: nat, a: nat)
    requires Distinct(comp) && b < |comp| && a < |comp|
    ensures At(Power(m, |comp|, 0), b, a) as real == Times(OneHot(comp[a])(comp[b]), 1.0)
  {
    SameIndex(comp, a, b);
  }

  lemma NextPower(m: Matrix, n: nat, t: nat)
    requires Square(m, n)
    ensures Power(m, n, t + 1) == Mul(m, Power(m, n, t), n)
  {
    PowerOne(m, n);
    PowersMultiply(m, n, 1, t);
  }

  lemma NextEntry(comp: seq<nat>, seams: seq<Seam>, t: nat, b: nat, a: nat)
    requires seams != [] && Distinct(comp) && ProperSeams(seams) && Closed(comp, seams) && a < |comp| && b < |comp|
    requires Carries(comp, Column(comp, Power(Expectation(comp, seams, |seams|), |comp|, t), a),
                     Steps(seams, OneHot(comp[a]), t), Power2S(seams, t) as real)
    ensures At(Power(Expectation(comp, seams, |seams|), |comp|, t + 1), b, a) as real ==
            Times(Steps(seams, OneHot(comp[a]), t + 1)(comp[b]), Power2S(seams, t + 1) as real)
  {
    hide Column, Power, Times, Closed, Distinct, Expectation, Carries, Pull, RealPull, Over, MeanAt, Steps, Expected;
    hide ProperSeams, Square, At, Tally;
    var m := Expectation(comp, seams, |seams|);
    var power, x, d := Power(m, |comp|, t), Steps(seams, OneHot(comp[a]), t), Power2S(seams, t) as real;
    var z, p := Column(comp, power, a), comp[b];
    ExpectationSquare(comp, seams, |seams|);
    NextPower(m, |comp|, t);
    LeftFactor(comp, seams, power, b, a);
    ColumnAt(comp, power, a, b);
    CarriedAt(comp, z, x, d, p);
    PullsCarry(comp, seams, z, x, p, d);
    MeansByPulls(seams, x, p);
    ExpectedAt(seams, OneHot(comp[a]), t, p);
    IntegerStep(At(power, b, a), Tally(seams, Pull(comp, z, p)), |seams|, Power2S(seams, t),
                x(p), Over(seams, RealPull(x, p)), Expected(seams, x)(p));
  }

  lemma ExpectedAt(seams: seq<Seam>, x: Field, t: nat, p: nat)
    requires seams != []
    ensures Steps(seams, x, t + 1) == Expected(seams, Steps(seams, x, t))
    ensures Expected(seams, Steps(seams, x, t))(p) == Over(seams, MeanAt(Steps(seams, x, t), p)) / |seams| as real
  {
  }

  lemma CarriedAt(comp: seq<nat>, z: nat -> int, x: Field, d: real, p: nat)
    requires Carries(comp, z, x, d) && p in comp
    ensures z(p) as real == Times(x(p), d)
  {
  }

  lemma AsReals(count: nat, v: int, e: int)
    ensures (2 * count * v) as real == 2.0 * count as real * v as real
    ensures (e * (2 * count)) as real == 2.0 * count as real * e as real
  {
  }

  /** The logged fraction is the expectation after `2 n` uniformly drawn seam means on the one-hot start. */
  lemma FractionIsExpectation(comp: seq<nat>, seams: seq<Seam>, n: nat, b: nat, a: nat)
    requires seams != [] && Distinct(comp) && ProperSeams(seams) && Closed(comp, seams) && a < |comp| && b < |comp|
    ensures Denominator(seams, n) > 0
    ensures Numerator(comp, seams, n, b, a) as real / Denominator(seams, n) as real ==
            Steps(seams, OneHot(comp[a]), 2 * n)(comp[b])
  {
    hide Column, Power, Steps, Expectation, Carries;
    PowerPositive(2 * |seams|, 2 * n);
    PowerCarries(comp, seams, 2 * n, a);
    var m, x, d := Power(Expectation(comp, seams, |seams|), |comp|, 2 * n), Steps(seams, OneHot(comp[a]), 2 * n),
                   Power2S(seams, 2 * n) as real;
    ColumnAt(comp, m, a, b);
    CarriedAt(comp, Column(comp, m, a), x, d, comp[b]);
    Divided(At(m, b, a) as real, x(comp[b]), d);
  }

  lemma Divided(v: real, x: real, d: real)
    requires d > 0.0 && v == Times(x, d)
    ensures v / d == x
  {
  }

  /** Seams join ports of one component. */
  lemma ComponentClosed(ports: nat, seams: seq<Seam>, comp: seq<nat>)
    requires IsComponent(ports, seams, comp) && Inside(ports, seams)
    ensures Closed(comp, seams)
  {
    hide Linked;
    forall s | s in seams
      ensures s.0 in comp <==> s.1 in comp
    {
      LinkedJoined(seams, s.0, s.1);
      LinkedJoined(seams, s.1, s.0);
    }
  }

  /** On a component: the logged fraction is the expectation after `2 n` uniformly drawn seam means. */
  lemma ProbeIsExpectation(ports: nat, seams: seq<Seam>, comp: seq<nat>, n: nat, b: nat, a: nat)
    requires seams != [] && Inside(ports, seams) && ProperSeams(seams) && IsComponent(ports, seams, comp)
    requires a < |comp| && b < |comp|
    ensures Denominator(seams, n) > 0
    ensures Numerator(comp, seams, n, b, a) as real / Denominator(seams, n) as real ==
            Steps(seams, OneHot(comp[a]), 2 * n)(comp[b])
  {
    hide IsComponent, Closed, Steps, Numerator, Denominator;
    ComponentShape(ports, seams, comp);
    ComponentClosed(ports, seams, comp);
    FractionIsExpectation(comp, seams, n, b, a);
  }

  // ----- nothing is lost

  ghost function Entries(m: Matrix, a: nat): nat -> int
  {
    (b: nat) => At(m, b, a)
  }

  ghost function PullsAt(comp: seq<nat>, list: seq<Seam>, z: nat -> int): nat -> int
  {
    (b: nat) => if b < |comp| then Tally(list, Pull(comp, z, comp[b])) else 0
  }

  ghost function PullOf(comp: seq<nat>, s: Seam, z: nat -> int): nat -> int
  {
    (b: nat) => if b < |comp| then Pull(comp, z, comp[b])(s) else 0
  }

  lemma PullIs(comp: seq<nat>, s: Seam, z: nat -> int, b: nat)
    requires b < |comp|
    ensures PullOf(comp, s, z)(b) ==
      if s.0 !in comp || s.1 !in comp then 0
      else if comp[b] == s.0 then z(s.0) - z(s.1) else if comp[b] == s.1 then z(s.1) - z(s.0) else 0
  {
    var f := Pull(comp, z, comp[b]);
    assert PullOf(comp, s, z)(b) == f(s);
  }

  lemma PullCancels(comp: seq<nat>, s: Seam, z: nat -> int)
    requires Distinct(comp) && s.0 != s.1
    ensures Sum(|comp|, PullOf(comp, s, z)) == 0
  {
    hide Sum, PullOf;
    forall b: nat | b < |comp|
      ensures PullOf(comp, s, z)(b) ==
        if s.0 !in comp || s.1 !in comp then 0
        else if comp[b] == s.0 then z(s.0) - z(s.1) else if comp[b] == s.1 then z(s.1) - z(s.0) else 0
    {
      PullIs(comp, s, z, b);
    }
    if s.0 !in comp || s.1 !in comp {
      SumZero(|comp|, PullOf(comp, s, z));
    } else {
      var i :| 0 <= i < |comp| && comp[i] == s.0;
      var j :| 0 <= j < |comp| && comp[j] == s.1;
      forall c: nat | c < |comp| && c != i && c != j
        ensures PullOf(comp, s, z)(c) == 0
      {
        SameIndex(comp, c, i);
        SameIndex(comp, c, j);
      }
      SumTwo(|comp|, i, j, PullOf(comp, s, z));
    }
  }

  /** What the seams take from one port they give to another. */
  lemma {:induction false} PullsCancel(comp: seq<nat>, list: seq<Seam>, z: nat -> int)
    requires Distinct(comp) && ProperSeams(list)
    ensures Sum(|comp|, PullsAt(comp, list, z)) == 0
  {
    hide Distinct, Pull, Sum;
    if list == [] {
      SumZero(|comp|, PullsAt(comp, list, z));
    } else {
      var last := |list| - 1;
      var s := list[last];
      assert s in list;
      PullsCancel(comp, list[..last], z);
      PullCancels(comp, s, z);
      SumLinear(|comp|, PullsAt(comp, list[..last], z), PullOf(comp, s, z), PullsAt(comp, list, z), 1);
    }
  }

  /** Every column of the power sums to the power of `2 S`. */
  lemma {:induction false} ColumnSums(comp: seq<nat>, seams: seq<Seam>, t: nat, a: nat)
    requires Distinct(comp) && ProperSeams(seams) && a < |comp|
    ensures Sum(|comp|, Entries(Power(Expectation(comp, seams, |seams|), |comp|, t), a)) == Power2S(seams, t)
  {
    hide Power, Sum, Distinct, Expectation, Pull, Column;
    var m := Expectation(comp, seams, |seams|);
    if t == 0 {
      UnitColumn(m, |comp|, a);
    } else {
      var before, after := Power(m, |comp|, t - 1), Power(m, |comp|, t);
      ColumnSums(comp, seams, t - 1, a);
      ExpectationSquare(comp, seams, |seams|);
      NextPower(m, |comp|, t - 1);
      var z := Column(comp, before, a);
      PullsCancel(comp, seams, z);
      var scaled := (b: nat) => 2 * |seams| * Entries(before, a)(b);
      SumScale(|comp|, Entries(before, a), scaled, 2 * |seams|);
      forall b: nat | b < |comp|
        ensures Entries(after, a)(b) == scaled(b) + -1 * PullsAt(comp, seams, z)(b)
      {
        LeftFactor(comp, seams, before, b, a);
      }
      SumLinear(|comp|, scaled, PullsAt(comp, seams, z), Entries(after, a), -1);
      assert 2 * |seams| * Power2S(seams, t - 1) == Power2S(seams, t - 1) * (2 * |seams|);
    }
  }

  lemma UnitColumn(m: Matrix, n: nat, a: nat)
    requires a < n
    ensures Sum(n, Entries(Power(m, n, 0), a)) == 1
  {
    SumSingle(n, a, 1, Entries(Power(m, n, 0), a));
  }

  ghost function Numerators(comp: seq<nat>, seams: seq<Seam>, n: nat, a: nat): nat -> int
  {
    (b: nat) => Numerator(comp, seams, n, b, a)
  }

  /** The fractions of one start sum to one. */
  lemma FractionsSumToOne(comp: seq<nat>, seams: seq<Seam>, n: nat, a: nat)
    requires Distinct(comp) && ProperSeams(seams) && a < |comp|
    ensures Sum(|comp|, Numerators(comp, seams, n, a)) == Denominator(seams, n)
  {
    hide Power, Expectation;
    ColumnSums(comp, seams, 2 * n, a);
    SumExt(|comp|, Numerators(comp, seams, n, a),
           Entries(Power(Expectation(comp, seams, |seams|), |comp|, 2 * n), a));
  }
}
