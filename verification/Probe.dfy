/** The probe of a carrier: rounded powers of its expectation matrix, logged and predicted. */
module Probe {
  import opened Basics
  import opened Sums
  import opened MatrixPower
  import opened PolynomialPower
  import opened Readback
  import opened UnionFind

  // ----- the expectation matrix

  /** What a seam inside the component adds to the Laplacian entry of two ports. */
  function Touch(comp: seq<nat>, s: Seam, p: nat, q: nat): int
  {
    if s.0 !in comp || s.1 !in comp then 0
    else if p == q then One(s.0 == p) + One(s.1 == p)
    else -One(s == (p, q)) - One(s == (q, p))
  }

  ghost function Touches(comp: seq<nat>, p: nat, q: nat): Seam -> int
  {
    (s: Seam) => Touch(comp, s, p, q)
  }

  /** The Laplacian of the component: degrees on the diagonal, minus one on a seam. */
  ghost function LaplacianEntry(comp: seq<nat>, seams: seq<Seam>, p: nat, q: nat): int
  {
    Tally(seams, Touches(comp, p, q))
  }

  /** `2 S I - L` on one component, for `S` seams in all. */
  ghost predicate IsExpectation(comp: seq<nat>, seams: seq<Seam>, total: nat, m: Matrix)
  {
    && Square(m, |comp|)
    && forall a: nat, b: nat :: a < |comp| && b < |comp| ==>
         At(m, a, b) == (if a == b then 2 * total else 0) - LaplacianEntry(comp, seams, comp[a], comp[b])
  }

  ghost function ExpectationRow(comp: seq<nat>, seams: seq<Seam>, total: nat, a: nat): (r: seq<int>)
    requires a < |comp|
    ensures |r| == |comp|
    ensures forall b :: 0 <= b < |comp| ==>
      r[b] == (if a == b then 2 * total else 0) - LaplacianEntry(comp, seams, comp[a], comp[b])
  {
    seq(|comp|, b requires 0 <= b < |comp| =>
      (if a == b then 2 * total else 0) - LaplacianEntry(comp, seams, comp[a], comp[b]))
  }

  ghost function Expectation(comp: seq<nat>, seams: seq<Seam>, total: nat): (m: Matrix)
    ensures IsExpectation(comp, seams, total, m)
  {
    seq(|comp|, a requires 0 <= a < |comp| => ExpectationRow(comp, seams, total, a))
  }

  lemma ExpectationUnique(comp: seq<nat>, seams: seq<Seam>, total: nat, m: Matrix)
    requires IsExpectation(comp, seams, total, m)
    ensures m == Expectation(comp, seams, total)
  {
    SameMatrix(m, Expectation(comp, seams, total), |comp|);
  }

  /** The matrix does not depend on the order of the seams. */
  lemma ExpectationReordered(comp: seq<nat>, seams: seq<Seam>, other: seq<Seam>, total: nat)
    requires multiset(seams) == multiset(other)
    ensures Expectation(comp, seams, total) == Expectation(comp, other, total)
  {
    var m := Expectation(comp, seams, total);
    forall a: nat, b: nat | a < |comp| && b < |comp|
      ensures LaplacianEntry(comp, seams, comp[a], comp[b]) == LaplacianEntry(comp, other, comp[a], comp[b])
    {
      TallyReordered(seams, other, Touches(comp, comp[a], comp[b]));
    }
    ExpectationUnique(comp, other, total, m);
  }

  // ----- building it

  function Bump(m: Matrix, i: nat, j: nat, v: int): (r: Matrix)
    requires i < |m| && j < |m[i]|
    ensures forall n: nat :: Square(m, n) ==> Square(r, n)
    ensures forall a: nat, b: nat :: At(r, a, b) == At(m, a, b) + if a == i && b == j then v else 0
  {
    m[i := m[i][j := m[i][j] + v]]
  }

  predicate Distinct(comp: seq<nat>)
  {
    forall i, j :: 0 <= i < j < |comp| ==> comp[i] != comp[j]
  }

  method IndexOf(comp: seq<nat>, p: nat) returns (i: nat)
    ensures i < |comp| ==> comp[i] == p
    ensures i >= |comp| ==> p !in comp
  {
    i := 0;
    while i < |comp| && comp[i] != p
      invariant i <= |comp| && forall k :: 0 <= k < i ==> comp[k] != p
    {
      i := i + 1;
    }
  }

  ghost predicate LaplacianSoFar(comp: seq<nat>, seams: seq<Seam>, lap: Matrix)
  {
    && Square(lap, |comp|)
    && forall a: nat, b: nat :: a < |comp| && b < |comp| ==>
         At(lap, a, b) == LaplacianEntry(comp, seams, comp[a], comp[b])
  }

  /** A seam inside the component changes four entries. */
  lemma FourEntries(comp: seq<nat>, seams: seq<Seam>, lap: Matrix, s: Seam, i: nat, j: nat, next: Matrix)
    requires Distinct(comp) && LaplacianSoFar(comp, seams, lap)
    requires i < |comp| && j < |comp| && i != j && s == (comp[i], comp[j])
    requires Square(next, |comp|)
    requires forall a: nat, b: nat :: a < |comp| && b < |comp| ==>
      At(next, a, b) == At(lap, a, b) + One(a == i && b == i) + One(a == j && b == j)
                        - One(a == i && b == j) - One(a == j && b == i)
    ensures LaplacianSoFar(comp, seams + [s], next)
  {
    forall a: nat, b: nat | a < |comp| && b < |comp|
      ensures At(next, a, b) == LaplacianEntry(comp, seams + [s], comp[a], comp[b])
    {
      TallySnoc(seams, s, Touches(comp, comp[a], comp[b]));
      SameIndex(comp, a, b);
      SameIndex(comp, a, i);
      SameIndex(comp, a, j);
      SameIndex(comp, b, i);
      SameIndex(comp, b, j);
    }
  }

  lemma SameIndex(comp: seq<nat>, a: nat, b: nat)
    requires Distinct(comp) && a < |comp| && b < |comp|
    ensures comp[a] == comp[b] <==> a == b
  {
  }

  /** A seam outside the component changes nothing. */
  lemma NoEntry(comp: seq<nat>, seams: seq<Seam>, lap: Matrix, s: Seam)
    requires LaplacianSoFar(comp, seams, lap) && (s.0 !in comp || s.1 !in comp)
    ensures LaplacianSoFar(comp, seams + [s], lap)
  {
    forall a: nat, b: nat | a < |comp| && b < |comp|
      ensures At(lap, a, b) == LaplacianEntry(comp, seams + [s], comp[a], comp[b])
    {
      TallySnoc(seams, s, Touches(comp, comp[a], comp[b]));
    }
  }

  function Zeros(n: nat): (m: Matrix)
    ensures Square(m, n) && forall a: nat, b: nat :: At(m, a, b) == 0
  {
    seq(n, _ => seq(n, _ => 0))
  }

  predicate ProperSeams(seams: seq<Seam>)
  {
    forall s :: s in seams ==> s.0 != s.1
  }

  method Laplacian(comp: seq<nat>, seams: seq<Seam>) returns (lap: Matrix)
    requires Distinct(comp) && ProperSeams(seams)
    ensures LaplacianSoFar(comp, seams, lap)
  {
    hide LaplacianSoFar, Distinct;
    lap := Zeros(|comp|);
    NoSeamsYet(comp, lap);
    assert seams[..0] == [];
    for k := 0 to |seams|
      invariant Square(lap, |comp|) && LaplacianSoFar(comp, seams[..k], lap)
    {
      var s := seams[k];
      assert s in seams;
      assert seams[..k + 1] == seams[..k] + [s];
      var i := IndexOf(comp, s.0);
      var j := IndexOf(comp, s.1);
      if i < |comp| && j < |comp| {
        var one := Bump(lap, i, i, 1);
        var two := Bump(one, j, j, 1);
        var three := Bump(two, i, j, -1);
        var next := Bump(three, j, i, -1);
        FourEntries(comp, seams[..k], lap, s, i, j, next);
        lap := next;
      } else {
        NoEntry(comp, seams[..k], lap, s);
      }
    }
    assert seams[..|seams|] == seams;
  }

  lemma NoSeamsYet(comp: seq<nat>, lap: Matrix)
    requires Square(lap, |comp|) && forall a: nat, b: nat :: At(lap, a, b) == 0
    ensures LaplacianSoFar(comp, [], lap)
  {
  }

  /** `2 S I - L` from the Laplacian. */
  method ExpectationMatrix(comp: seq<nat>, seams: seq<Seam>, total: nat) returns (m: Matrix)
    requires Distinct(comp) && ProperSeams(seams)
    ensures m == Expectation(comp, seams, total)
  {
    var lap := Laplacian(comp, seams);
    var n := |comp|;
    m := seq(n, a requires 0 <= a < n && Square(lap, n) =>
      seq(n, b requires 0 <= b < n && Square(lap, n) => (if a == b then 2 * total else 0) - lap[a][b]));
    forall a: nat, b: nat | a < n && b < n
      ensures At(m, a, b) == (if a == b then 2 * total else 0) - LaplacianEntry(comp, seams, comp[a], comp[b])
    {
      assert At(m, a, b) == (if a == b then 2 * total else 0) - At(lap, a, b);
    }
    ExpectationUnique(comp, seams, total, m);
  }

  // ----- powers

  /** The numerator of the readback at port `b` of the one-hot start at port `a`, after `2 n` steps. */
  ghost function Numerator(comp: seq<nat>, seams: seq<Seam>, n: nat, b: nat, a: nat): int
  {
    At(Power(Expectation(comp, seams, |seams|), |comp|, 2 * n), b, a)
  }

  function Denominator(seams: seq<Seam>, n: nat): int
  {
    IntPower(2 * |seams|, 2 * n)
  }

  lemma {:induction false} PowerPositive(b: int, e: nat)
    requires b > 0
    ensures IntPower(b, e) > 0
  {
    if e > 0 {
      PowerPositive(b, e - 1);
    }
  }

  /** Without seams every later power is zero. */
  lemma NoSeamsNoNumerator(comp: seq<nat>, seams: seq<Seam>, n: nat, b: nat, a: nat)
    requires |seams| == 0 && n > 0 && a < |comp| && b < |comp|
    ensures Numerator(comp, seams, n, b, a) == 0
  {
    hide Mul;
    var m := Expectation(comp, seams, 0);
    var before := Power(m, |comp|, 2 * n - 1);
    assert seams == [];
    forall t: nat | t < |comp|
      ensures Terms(before, m, b, a)(t) == 0
    {
      assert At(m, t, a) == 0;
      ProdZero(At(before, b, t));
    }
    SumZero(|comp|, Terms(before, m, b, a));
  }

  /** Wherever there is something to read back the denominator is positive. */
  lemma DenominatorPositive(comp: seq<nat>, seams: seq<Seam>, n: nat, b: nat, a: nat)
    requires a < |comp| && b < |comp| && Numerator(comp, seams, n, b, a) != 0
    ensures Denominator(seams, n) > 0
  {
    hide Power, Expectation;
    if |seams| > 0 {
      PowerPositive(2 * |seams|, 2 * n);
    } else if n > 0 {
      NoSeamsNoNumerator(comp, seams, n, b, a);
    }
  }

  /** `c` annihilates the expectation matrix of the component. */
  ghost predicate Suits(c: seq<int>, comp: seq<nat>, seams: seq<Seam>)
  {
    Annihilates(c, Expectation(comp, seams, |seams|), |comp|)
  }

  /** `M^(2 n)` and its denominator. */
  method ExpectationPower(comp: seq<nat>, seams: seq<Seam>, n: nat, c: seq<int>) returns (power: Matrix, den: int)
    requires comp != [] && Distinct(comp) && ProperSeams(seams) && Suits(c, comp, seams)
    ensures Square(power, |comp|) && den == Denominator(seams, n)
    ensures forall a: nat, b: nat :: a < |comp| && b < |comp| ==> At(power, b, a) == Numerator(comp, seams, n, b, a)
  {
    hide Annihilates, Power, IsExpectation;
    var m := ExpectationMatrix(comp, seams, |seams|);
    ExpectationSquare(comp, seams, |seams|);
    power := IntegerMatrixPower(m, |comp|, c, 2 * n);
    den := Denominator(seams, n);
  }

  lemma ExpectationSquare(comp: seq<nat>, seams: seq<Seam>, total: nat)
    ensures Square(Expectation(comp, seams, total), |comp|)
  {
  }

  // ----- the probe log

  /** The decimal is the rounded fraction. */
  ghost predicate RoundedTo(num: int, den: int, digits: nat, d: Decimal)
    requires den > 0 && digits > 0
  {
    d.Decimal? && (d.negative <==> num < 0) && Rounds(Readback.Abs(num), den, digits, d.mantissa, d.shift)
  }

  /** The entry for port `comp[b]` is present exactly when its numerator is not zero, and then rounded. */
  ghost predicate EntryRight(comp: seq<nat>, seams: seq<Seam>, n: nat, digits: nat, b: nat, a: nat,
                             entries: map<nat, Decimal>)
    requires a < |comp| && b < |comp| && digits > 0
  {
    && (comp[b] in entries <==> Numerator(comp, seams, n, b, a) != 0)
    && (comp[b] in entries ==>
          Denominator(seams, n) > 0
          && RoundedTo(Numerator(comp, seams, n, b, a), Denominator(seams, n), digits, entries[comp[b]]))
  }

  /** The readback of the one-hot start at `comp[a]`: it stays inside the component. */
  ghost predicate VectorRight(comp: seq<nat>, seams: seq<Seam>, n: nat, digits: nat, a: nat, entries: map<nat, Decimal>)
    requires a < |comp| && digits > 0
  {
    && (forall b: nat :: b < |comp| ==> EntryRight(comp, seams, n, digits, b, a, entries))
    && forall q :: q in entries ==> q in comp
  }

  ghost predicate EntriesRight(comp: seq<nat>, seams: seq<Seam>, n: nat, digits: nat, a: nat,
                               entries: map<nat, Decimal>, b: nat)
    requires a < |comp| && b <= |comp| && digits > 0
  {
    && (forall i: nat :: i < b ==> EntryRight(comp, seams, n, digits, i, a, entries))
    && forall q :: q in entries ==> q in comp[..b]
  }

  lemma NextPort(comp: seq<nat>, b: nat)
    requires b < |comp| && Distinct(comp)
    ensures comp[..b + 1] == comp[..b] + [comp[b]] && comp[b] !in comp[..b]
    ensures forall i: nat :: i < b ==> comp[i] != comp[b]
  {
  }

  lemma EntryAdded(comp: seq<nat>, seams: seq<Seam>, n: nat, digits: nat, b: nat, a: nat,
                   entries: map<nat, Decimal>, d: Decimal, next: map<nat, Decimal>)
    requires a < |comp| && b < |comp| && Distinct(comp) && digits > 0
    requires EntriesRight(comp, seams, n, digits, a, entries, b)
    requires Numerator(comp, seams, n, b, a) != 0 && Denominator(seams, n) > 0
    requires RoundedTo(Numerator(comp, seams, n, b, a), Denominator(seams, n), digits, d)
    requires next == entries[comp[b] := d]
    ensures EntriesRight(comp, seams, n, digits, a, next, b + 1)
  {
    hide Numerator, Denominator, RoundedTo, Distinct;
    NextPort(comp, b);
    forall i: nat | i < b
      ensures EntryRight(comp, seams, n, digits, i, a, next)
    {
      assert EntryRight(comp, seams, n, digits, i, a, entries);
      assert comp[i] in next <==> comp[i] in entries;
    }
    assert EntryRight(comp, seams, n, digits, b, a, next);
  }

  lemma EntrySkipped(comp: seq<nat>, seams: seq<Seam>, n: nat, digits: nat, b: nat, a: nat, entries: map<nat, Decimal>)
    requires a < |comp| && b < |comp| && Distinct(comp) && digits > 0
    requires EntriesRight(comp, seams, n, digits, a, entries, b) && Numerator(comp, seams, n, b, a) == 0
    ensures EntriesRight(comp, seams, n, digits, a, entries, b + 1)
  {
    hide Numerator, Denominator, RoundedTo, Distinct;
    NextPort(comp, b);
    assert EntryRight(comp, seams, n, digits, b, a, entries);
  }

  /** A first guess of the decimal magnitude of a fraction; any will do. */
  type Guess = (int, int) -> int

  method ReadVector(comp: seq<nat>, ghost seams: seq<Seam>, ghost n: nat, digits: nat, guess: Guess, a: nat,
                    power: Matrix, den: int) returns (entries: map<nat, Decimal>)
    requires a < |comp| && Distinct(comp) && digits > 0 && Square(power, |comp|) && den == Denominator(seams, n)
    requires forall b: nat :: b < |comp| ==> At(power, b, a) == Numerator(comp, seams, n, b, a)
    ensures VectorRight(comp, seams, n, digits, a, entries)
  {
    hide Numerator, Denominator, Rounds, EntryRight, Distinct;
    entries := map[];
    for b := 0 to |comp|
      invariant EntriesRight(comp, seams, n, digits, a, entries, b)
    {
      hide EntriesRight;
      var num := At(power, b, a);
      assert num == Numerator(comp, seams, n, b, a);
      if num != 0 {
        DenominatorPositive(comp, seams, n, b, a);
        var d := ReadbackString(num, den, digits, guess(num, den));
        var next := entries[comp[b] := d];
        EntryAdded(comp, seams, n, digits, b, a, entries, d, next);
        entries := next;
      } else {
        EntrySkipped(comp, seams, n, digits, b, a, entries);
      }
    }
    assert comp[..|comp|] == comp;
  }

  /** The readback vectors of one step of one component. */
  ghost predicate ComponentRight(comp: seq<nat>, seams: seq<Seam>, n: nat, digits: nat, vectors: seq<map<nat, Decimal>>)
    requires digits > 0
  {
    forall a: nat :: a < |comp| ==> comp[a] < |vectors| && VectorRight(comp, seams, n, digits, a, vectors[comp[a]])
  }

  method ReadComponent(comp: seq<nat>, seams: seq<Seam>, n: nat, digits: nat, guess: Guess, c: seq<int>,
                       before: seq<map<nat, Decimal>>) returns (vectors: seq<map<nat, Decimal>>)
    requires comp != [] && Distinct(comp) && ProperSeams(seams) && Suits(c, comp, seams) && digits > 0
    requires forall p :: p in comp ==> p < |before|
    ensures |vectors| == |before| && ComponentRight(comp, seams, n, digits, vectors)
    ensures forall p :: 0 <= p < |before| && p !in comp ==> vectors[p] == before[p]
  {
    hide VectorRight, Suits, Numerator, Denominator;
    var power, den := ExpectationPower(comp, seams, n, c);
    vectors := before;
    for a := 0 to |comp|
      invariant |vectors| == |before|
      invariant forall i: nat :: i < a ==>
        comp[i] < |vectors| && VectorRight(comp, seams, n, digits, i, vectors[comp[i]])
      invariant forall p :: 0 <= p < |before| && p !in comp ==> vectors[p] == before[p]
    {
      assert comp[a] in comp;
      var entries := ReadVector(comp, seams, n, digits, guess, a, power, den);
      vectors := vectors[comp[a] := entries];
    }
  }

  /** An annihilating polynomial for every component. */
  type Polynomials = seq<nat> -> seq<int>

  ghost predicate AllSuit(poly: Polynomials, ports: nat, seams: seq<Seam>)
  {
    forall comp :: IsComponent(ports, seams, comp) ==> Suits(poly(comp), comp, seams)
  }

  predicate Inside(ports: nat, seams: seq<Seam>)
  {
    forall s :: s in seams ==> s.0 < ports && s.1 < ports
  }

  lemma ComponentShape(ports: nat, seams: seq<Seam>, comp: seq<nat>)
    requires IsComponent(ports, seams, comp)
    ensures comp != [] && Distinct(comp) && forall p :: p in comp ==> p < ports
  {
    hide Linked;
    forall p | p in comp
      ensures p < ports
    {
    }
  }

  /** Two components are equal or have no port in common. */
  lemma ComponentsApart(ports: nat, seams: seq<Seam>, comps: seq<seq<nat>>, c: nat, d: nat, p: nat)
    requires AreComponents(ports, seams, comps) && c < d < |comps| && p in comps[c]
    ensures p !in comps[d]
  {
    hide Linked;
    if p in comps[d] {
      ComponentUnique(ports, seams, comps[c], comps[d], p);
    }
  }

  /** A component is determined by any of its ports. */
  lemma ComponentUnique(ports: nat, seams: seq<Seam>, g: seq<nat>, h: seq<nat>, p: nat)
    requires IsComponent(ports, seams, g) && IsComponent(ports, seams, h) && p in g && p in h
    ensures g == h
  {
    hide Linked;
    forall y: nat
      ensures y in g <==> y in h
    {
    }
    AscendingUnique(g, h);
  }

  ghost predicate SamePorts(g: seq<nat>, h: seq<nat>)
  {
    forall y: nat :: y in g <==> y in h
  }

  lemma WithoutLast(g: seq<nat>, y: nat)
    requires Increasing(g) && g != []
    ensures y in g[..|g| - 1] <==> y in g && y != g[|g| - 1]
  {
    assert g == g[..|g| - 1] + [g[|g| - 1]];
  }

  lemma {:induction false} AscendingUnique(g: seq<nat>, h: seq<nat>)
    requires Increasing(g) && Increasing(h) && SamePorts(g, h)
    ensures g == h
    decreases |g|
  {
    assert |h| > 0 ==> h[0] in h;
    if g != [] {
      assert g[0] in h;
      var m, n := |g| - 1, |h| - 1;
      assert g[m] in g && g[m] in h;
      assert h[n] in h && h[n] in g;
      assert g[m] == h[n];
      var front, other := g[..m], h[..n];
      forall y: nat
        ensures y in front <==> y in other
      {
        WithoutLast(g, y);
        WithoutLast(h, y);
      }
      AscendingUnique(front, other);
      assert g == front + [g[m]] && h == other + [h[n]];
    }
  }

  /** One step: the vectors of every component are right. */
  ghost predicate StepRight(ports: nat, seams: seq<Seam>, n: nat, digits: nat, vectors: seq<map<nat, Decimal>>)
    requires digits > 0
  {
    |vectors| == ports && forall comp :: IsComponent(ports, seams, comp) ==>
      ComponentRight(comp, seams, n, digits, vectors)
  }

  /** Every component is one of the listed ones. */
  lemma ComponentListed(ports: nat, seams: seq<Seam>, comps: seq<seq<nat>>, comp: seq<nat>) returns (c: nat)
    requires AreComponents(ports, seams, comps) && IsComponent(ports, seams, comp)
    ensures c < |comps| && comps[c] == comp
  {
    hide Linked;
    ComponentShape(ports, seams, comp);
    var p := comp[0];
    assert p in comp;
    assert Covered(comps, p);
    c :| 0 <= c < |comps| && p in comps[c];
    ComponentUnique(ports, seams, comps[c], comp, p);
  }

  lemma ComponentKept(comp: seq<nat>, seams: seq<Seam>, n: nat, digits: nat,
                      before: seq<map<nat, Decimal>>, after: seq<map<nat, Decimal>>)
    requires digits > 0 && ComponentRight(comp, seams, n, digits, before) && |after| == |before|
    requires forall p :: p in comp && p < |before| ==> after[p] == before[p]
    ensures ComponentRight(comp, seams, n, digits, after)
  {
    hide VectorRight;
    forall a: nat | a < |comp|
      ensures comp[a] < |after| && VectorRight(comp, seams, n, digits, a, after[comp[a]])
    {
      assert comp[a] in comp;
    }
  }

  method ProbeStep(ports: nat, seams: seq<Seam>, comps: seq<seq<nat>>, n: nat, digits: nat, guess: Guess,
                   poly: Polynomials) returns (vectors: seq<map<nat, Decimal>>)
    requires AreComponents(ports, seams, comps) && ProperSeams(seams) && AllSuit(poly, ports, seams) && digits > 0
    ensures StepRight(ports, seams, n, digits, vectors)
  {
    hide ComponentRight, Linked, Suits, IsComponent;
    vectors := seq(ports, _ => map[]);
    for c := 0 to |comps|
      invariant |vectors| == ports
      invariant forall d :: 0 <= d < c ==> ComponentRight(comps[d], seams, n, digits, vectors)
    {
      var before := vectors;
      ComponentShape(ports, seams, comps[c]);
      vectors := ReadComponent(comps[c], seams, n, digits, guess, poly(comps[c]), before);
      forall d | 0 <= d < c
        ensures ComponentRight(comps[d], seams, n, digits, vectors)
      {
        forall p | p in comps[d] && p < |before|
          ensures vectors[p] == before[p]
        {
          ComponentsApart(ports, seams, comps, d, c, p);
        }
        ComponentKept(comps[d], seams, n, digits, before, vectors);
      }
    }
    forall comp | IsComponent(ports, seams, comp)
      ensures ComponentRight(comp, seams, n, digits, vectors)
    {
      var c := ComponentListed(ports, seams, comps, comp);
    }
  }

  type Readbacks = seq<seq<map<nat, Decimal>>>

  ghost predicate ProbeRight(ports: nat, seams: seq<Seam>, steps: seq<nat>, digits: nat, readback: Readbacks)
    requires digits > 0
  {
    |readback| == |steps| && forall k :: 0 <= k < |steps| ==> StepRight(ports, seams, steps[k], digits, readback[k])
  }

  /** Readback after `2 n` expectation steps from every one-hot state, for every listed `n`. */
  method ProbeLog(ports: nat, seams: seq<Seam>, steps: seq<nat>, digits: nat, guess: Guess, poly: Polynomials)
    returns (readback: Readbacks)
    requires Inside(ports, seams) && ProperSeams(seams) && AllSuit(poly, ports, seams) && digits > 0
    ensures ProbeRight(ports, seams, steps, digits, readback)
  {
    hide StepRight, AreComponents, AllSuit;
    var comps := Components(ports, seams);
    readback := [];
    for k := 0 to |steps|
      invariant |readback| == k
      invariant forall i :: 0 <= i < k ==> StepRight(ports, seams, steps[i], digits, readback[i])
    {
      var vectors := ProbeStep(ports, seams, comps, steps[k], digits, guess, poly);
      readback := readback + [vectors];
    }
  }

  /** The probe part of a log. */
  datatype Record = Record(steps: seq<nat>, digits: nat, readback: Readbacks)

  ghost predicate IsRecord(ports: nat, seams: seq<Seam>, r: Record)
  {
    r.digits > 0 && ProbeRight(ports, seams, r.steps, r.digits, r.readback)
  }
}
