/** The mean law in exact dyadic arithmetic `n / 2^K`, rescaled on demand. */
module DyadicMean {
  import opened Basics
  import opened Sums
  import opened Federation
  import opened MeanLaw
  import opened MeanPotential

  ghost function P(k: nat): real { Pow2(k) as real }

  /** The integers `n` are the readings `x` in units of `2^-K`. */
  ghost predicate Scaled(n: seq<int>, k: nat, x: seq<real>)
  {
    |n| == |x| && forall p :: 0 <= p < |n| ==> n[p] as real == Times(x[p], P(k))
  }

  // ----- the descent functional of the mean law

  function RealSquare(x: seq<real>): nat -> real
  {
    (p: nat) => if p < |x| then Sq(x[p]) else 0.0
  }

  ghost function RealV(x: seq<real>): real
  {
    RSum(|x|, RealSquare(x))
  }

  lemma MeanDrop(xi: real, xj: real)
    ensures 2.0 * Sq(Mean(xi, xj)) == Sq(xi) + Sq(xj) - HalfSquare(xi - xj)
  {
  }

  lemma NoDrop(v: real)
    ensures HalfSquare(v - v) == 0.0
  {
  }

  /** One attempt lowers the functional by exactly what it adds to the ledger. */
  lemma ActDrops(g: PortGraph, st: Record, i: nat, j: nat)
    requires g.Valid() && |st.x| == g.ports && i < |st.x| && j < |st.x|
    ensures Act(g, st, i, j).counts.ledger - st.counts.ledger == RealV(st.x) - RealV(Act(g, st, i, j).x)
    ensures Act(g, st, i, j).counts.ledger == st.counts.ledger + HalfSquare(st.x[i] - st.x[j])
  {
    hide SeamSumChange, NeighbourSum;
    NoDrop(st.x[i]);
    if st.x[i] == st.x[j] {
      WaitIsIdentity(g, st, i, j);
    } else {
      hide Sq, Mean, HalfSquare;
      var m := Mean(st.x[i], st.x[j]);
      var y := st.x[i := m];
      RSumPoint(|st.x|, RealSquare(st.x), RealSquare(y), i);
      RSumPoint(|st.x|, RealSquare(y), RealSquare(y[j := m]), j);
      MeanDrop(st.x[i], st.x[j]);
    }
  }

  lemma {:induction false} LedgerIsDrop(g: PortGraph, ss: seq<nat>, st: Record, k: nat)
    requires Schedule(g, ss) && |st.x| == g.ports && k <= |ss|
    ensures Go(g, ss, st, 0, k).counts.ledger - st.counts.ledger == RealV(st.x) - RealV(Go(g, ss, st, 0, k).x)
    ensures Go(g, ss, st, 0, k).counts.violations == st.counts.violations
  {
    hide RealV, Act;
    if k == 0 {
      GoNone(g, ss, st, 0);
    } else {
      LedgerIsDrop(g, ss, st, k - 1);
      ActDrops(g, Go(g, ss, st, 0, k - 1), g.a[ss[k - 1]], g.b[ss[k - 1]]);
      ActNoViolation(g, Go(g, ss, st, 0, k - 1), g.a[ss[k - 1]], g.b[ss[k - 1]]);
    }
  }

  lemma ActNoViolation(g: PortGraph, st: Record, i: nat, j: nat)
    requires g.Valid() && |st.x| == g.ports && i < |st.x| && j < |st.x|
    ensures Act(g, st, i, j).counts.violations == st.counts.violations
    ensures Act(g, st, i, j).counts.waits == st.counts.waits + if st.x[i] == st.x[j] then 1 else 0
  {
    hide SeamSumChange, NeighbourSum, HalfSquare;
  }

  // ----- one exact move

  /** The dyadic run: integers, exponent, ledger in units `2^-2K`, waits and rescales. */
  datatype Dyadic = Dyadic(n: seq<int>, k: nat, ledger: int, waits: int, moves: int)

  /** The dyadic run stands for a record of the mean law. */
  ghost predicate Stands(d: Dyadic, st: Record)
  {
    && Scaled(d.n, d.k, st.x)
    && d.waits == st.counts.waits
    && d.ledger as real == Times(2.0 * st.counts.ledger, Times(P(d.k), P(d.k)))
  }

  lemma TimesAssoc(a: real, b: real, c: real)
    ensures Times(Times(a, b), c) == Times(a, Times(b, c))
    ensures Times(a, b) == Times(b, a)
  {
    assert (a * b) * c == a * (b * c);
  }

  lemma PAdds(j: nat, k: nat)
    ensures P(j + k) == Times(P(j), P(k))
  {
    Pow2Adds(j, k);
  }

  /** Shifting left by `bits` is invisible to the value. */
  function Rescale(d: Dyadic, bits: nat): (r: Dyadic)
    ensures |r.n| == |d.n|
  {
    d.(n := seq(|d.n|, p requires 0 <= p < |d.n| => d.n[p] * Pow2(bits)),
       k := d.k + bits, ledger := d.ledger * Pow2(2 * bits))
  }

  lemma SquareOfP(k: nat, bits: nat)
    ensures Times(Times(P(k), P(k)), P(2 * bits)) == Times(P(k + bits), P(k + bits))
  {
    PAdds(k, bits);
    PAdds(bits, bits);
    assert 2 * bits == bits + bits;
    FourFactors(P(k), P(bits));
  }

  lemma FourFactors(a: real, b: real)
    ensures Times(Times(a, a), Times(b, b)) == Times(Times(a, b), Times(a, b))
  {
    assert (a * a) * (b * b) == (a * b) * (a * b);
  }

  lemma IntTimes(a: int, b: int)
    ensures (a * b) as real == Times(a as real, b as real)
  {
  }

  lemma RescaleInvisible(d: Dyadic, st: Record, bits: nat)
    requires Stands(d, st)
    ensures Stands(Rescale(d, bits), st)
  {
    hide Times, P, Pow2;
    var r := Rescale(d, bits);
    PIs(bits);
    PIs(2 * bits);
    forall p | 0 <= p < |r.n|
      ensures r.n[p] as real == Times(st.x[p], P(r.k))
    {
      IntTimes(d.n[p], Pow2(bits));
      PAdds(d.k, bits);
      TimesAssoc(st.x[p], P(d.k), P(bits));
    }
    IntTimes(d.ledger, Pow2(2 * bits));
    TimesAssoc(2.0 * st.counts.ledger, Times(P(d.k), P(d.k)), P(2 * bits));
    SquareOfP(d.k, bits);
  }

  lemma PIs(k: nat)
    ensures P(k) == Pow2(k) as real
  {
  }

  lemma PPositive(k: nat)
    ensures P(k) >= 1.0
  {
  }

  /** Two equal readings have equal integers, and conversely. */
  lemma EqualIntegers(a: int, b: int, x: real, y: real, p: real)
    requires p >= 1.0 && a as real == Times(x, p) && b as real == Times(y, p)
    ensures a == b <==> x == y
  {
    if a == b {
      assert Times(x, p) - Times(y, p) == (x - y) * p;
      if x != y {
        NonzeroProduct(x - y, p, (x - y) * p);
      }
    }
  }

  lemma NonzeroProduct(a: real, b: real, s: real)
    requires a != 0.0 && b >= 1.0 && s == a * b
    ensures s != 0.0
  {
    if a > 0.0 {
      ProductPositive(a, b, s);
    } else {
      ProductPositive(-a, b, -s);
    }
  }

  /** The halved even total is the exact mean, and the squared difference is the exact ledger entry. */
  lemma HalvedTotal(a: int, b: int, x: real, y: real, p: real)
    requires (a + b) % 2 == 0 && a as real == Times(x, p) && b as real == Times(y, p)
    ensures ((a + b) / 2) as real == Times(Mean(x, y), p)
    ensures ((a - b) * (a - b)) as real == Times(2.0 * HalfSquare(x - y), Times(p, p))
  {
    var h := (a + b) / 2;
    assert a + b == 2 * h;
    assert h as real == 0.5 * (x * p + y * p);
    assert Times(Mean(x, y), p) == 0.5 * (x * p + y * p);
    var d := (a - b) as real;
    assert d == (x - y) * p;
    DiffSquare(x - y, p, d);
    IntTimes(a - b, a - b);
  }

  lemma DiffSquare(e: real, p: real, d: real)
    requires d == e * p
    ensures Times(d, d) == Times(2.0 * HalfSquare(e), Times(p, p))
  {
    assert d * d == (e * p) * (e * p) == (e * e) * (p * p);
  }

  /** One attempt in dyadic integers; an odd total is rescaled first. */
  function Move(d: Dyadic, i: nat, j: nat, bits: nat): (r: Dyadic)
    requires i < |d.n| && j < |d.n| && bits >= 1
    ensures |r.n| == |d.n|
  {
    if d.n[i] == d.n[j] then d.(waits := d.waits + 1) else
      var e := if (d.n[i] + d.n[j]) % 2 == 1 then Rescale(d, bits) else d;
      var ni, nj := e.n[i], e.n[j];
      var m := (ni + nj) / 2;
      Dyadic(e.n[i := m][j := m], e.k, e.ledger + (ni - nj) * (ni - nj), e.waits, e.moves + 1)
  }

  lemma RescaledEven(d: Dyadic, i: nat, j: nat, bits: nat)
    requires i < |d.n| && j < |d.n| && bits >= 1
    ensures (Rescale(d, bits).n[i] + Rescale(d, bits).n[j]) % 2 == 0
  {
    var h := Pow2(bits - 1);
    assert Pow2(bits) == 2 * h;
    var s := d.n[i] * h + d.n[j] * h;
    assert d.n[i] * (2 * h) + d.n[j] * (2 * h) == 2 * s;
    EvenDouble(s);
  }

  lemma EvenDouble(s: int)
    ensures (2 * s) % 2 == 0
  {
  }

  lemma AddTimes(a: real, b: real, c: real)
    ensures Times(a, c) + Times(b, c) == Times(a + b, c)
  {
  }

  /** A dyadic move stands for the attempt of the mean law. */
  lemma MoveStands(g: PortGraph, d: Dyadic, st: Record, i: nat, j: nat, bits: nat)
    requires g.Valid() && |st.x| == g.ports && i < |st.x| && j < |st.x| && bits >= 1
    requires Stands(d, st)
    ensures Stands(Move(d, i, j, bits), Act(g, st, i, j))
  {
    hide Times, P, Act;
    PPositive(d.k);
    EqualIntegers(d.n[i], d.n[j], st.x[i], st.x[j], P(d.k));
    ActNoViolation(g, st, i, j);
    ActDrops(g, st, i, j);
    ActState(g, st, i, j);
    if d.n[i] == d.n[j] {
      NoDrop(st.x[i]);
      WaitIsIdentity(g, st, i, j);
    } else {
      var e := if (d.n[i] + d.n[j]) % 2 == 1 then Rescale(d, bits) else d;
      RescaleInvisible(d, st, bits);
      RescaledEven(d, i, j, bits);
      HalvedTotal(e.n[i], e.n[j], st.x[i], st.x[j], P(e.k));
      AddTimes(2.0 * st.counts.ledger, 2.0 * HalfSquare(st.x[i] - st.x[j]), Times(P(e.k), P(e.k)));
    }
  }

  lemma ActState(g: PortGraph, st: Record, i: nat, j: nat)
    requires g.Valid() && |st.x| == g.ports && i < |st.x| && j < |st.x|
    ensures Act(g, st, i, j).x == st.x[i := Mean(st.x[i], st.x[j])][j := Mean(st.x[i], st.x[j])]
  {
  }

  /** The exponent grows by `bits` exactly on an odd total of two different integers; every attempt is counted once. */
  lemma MoveGrows(d: Dyadic, i: nat, j: nat, bits: nat)
    requires i < |d.n| && j < |d.n| && bits >= 1
    ensures Move(d, i, j, bits).k == d.k + if (d.n[i] + d.n[j]) % 2 == 1 then bits else 0
    ensures Move(d, i, j, bits).waits == d.waits + if d.n[i] == d.n[j] then 1 else 0
    ensures Move(d, i, j, bits).moves == d.moves + if d.n[i] == d.n[j] then 0 else 1
  {
    if d.n[i] == d.n[j] {
      EvenDouble(d.n[i]);
    }
  }

  // ----- whole sweeps

  /** The dyadic attempts of a sweep, one after the other. */
  ghost function Moves(g: PortGraph, ss: seq<nat>, d: Dyadic, bits: nat, t: nat): (r: Dyadic)
    requires Schedule(g, ss) && |d.n| == g.ports && bits >= 1 && t <= |ss|
    ensures |r.n| == g.ports
  {
    if t == 0 then d else Move(Moves(g, ss, d, bits, t - 1), g.a[ss[t - 1]], g.b[ss[t - 1]], bits)
  }

  /** One sweep in dyadic integers, in place. */
  method ExactSweep(g: PortGraph, ss: seq<nat>, d0: Dyadic, bits: nat, ghost st: Record) returns (d: Dyadic)
    requires Schedule(g, ss) && |st.x| == g.ports && bits >= 1 && Stands(d0, st)
    ensures Stands(d, Go(g, ss, st, 0, |ss|))
    ensures |d0.n| == g.ports && d == Moves(g, ss, d0, bits, |ss|)
    ensures d.waits + d.moves == d0.waits + d0.moves + |ss| && d.k >= d0.k
  {
    hide Times, P, Pow2, Act, Stands, Rescale, Moves, Go;
    d := d0;
    GoNone(g, ss, st, 0);
    StandsSize(d0, st);
    MovesNone(g, ss, d0, bits);
    StandsSize(d, st);
    for t := 0 to |ss|
      invariant Stands(d, Go(g, ss, st, 0, t)) && |d.n| == g.ports && |d0.n| == g.ports
      invariant d == Moves(g, ss, d0, bits, t)
      invariant d.waits + d.moves == d0.waits + d0.moves + t && d.k >= d0.k
    {
      var i, j := g.a[ss[t]], g.b[ss[t]];
      ghost var now := Go(g, ss, st, 0, t);
      MoveStands(g, d, now, i, j, bits);
      MoveGrows(d, i, j, bits);
      MovesNext(g, ss, d0, bits, st, t);
      var n, k, ledger := d.n, d.k, d.ledger;
      if n[i] == n[j] {
        d := d.(waits := d.waits + 1);
      } else {
        if (n[i] + n[j]) % 2 == 1 {
          d := Rescale(d, bits);
        }
        var ni, nj := d.n[i], d.n[j];
        var m := (ni + nj) / 2;
        var dd := ni - nj;
        d := Dyadic(d.n[i := m][j := m], d.k, d.ledger + dd * dd, d.waits, d.moves + 1);
      }
    }
  }

  lemma MovesNone(g: PortGraph, ss: seq<nat>, d: Dyadic, bits: nat)
    requires Schedule(g, ss) && |d.n| == g.ports && bits >= 1
    ensures Moves(g, ss, d, bits, 0) == d
  {
  }

  lemma MovesNext(g: PortGraph, ss: seq<nat>, d: Dyadic, bits: nat, st: Record, t: nat)
    requires Schedule(g, ss) && |d.n| == |st.x| == g.ports && bits >= 1 && t < |ss|
    ensures Moves(g, ss, d, bits, t + 1) == Move(Moves(g, ss, d, bits, t), g.a[ss[t]], g.b[ss[t]], bits)
    ensures Go(g, ss, st, 0, t + 1) == Act(g, Go(g, ss, st, 0, t), g.a[ss[t]], g.b[ss[t]])
  {
    hide Move, Act;
  }

  lemma StandsSize(d: Dyadic, st: Record)
    requires Stands(d, st)
    ensures |d.n| == |st.x|
  {
  }

  // ----- sums of dyadic integers

  function IntSquare(n: seq<int>): nat -> int
  {
    (p: nat) => if p < |n| then n[p] * n[p] else 0
  }

  ghost function IntV(n: seq<int>): int
  {
    Sum(|n|, IntSquare(n))
  }

  lemma SquareScales(a: int, x: real, p: real)
    requires a as real == Times(x, p)
    ensures (a * a) as real == Times(Sq(x), Times(p, p))
  {
    IntTimes(a, a);
    assert (x * p) * (x * p) == (x * x) * (p * p);
  }

  /** A sum of integers that are scaled terms is the scaled sum. */
  lemma {:induction false} SumScales(count: nat, f: nat -> int, h: nat -> real, q: real)
    requires forall i: nat :: i < count ==> f(i) as real == Times(h(i), q)
    ensures Sum(count, f) as real == Times(RSum(count, h), q)
  {
    if count > 0 {
      SumScales(count - 1, f, h, q);
      AddTimes(RSum(count - 1, h), h(count - 1), q);
    }
  }

  lemma VScales(n: seq<int>, k: nat, x: seq<real>)
    requires Scaled(n, k, x)
    ensures IntV(n) as real == Times(RealV(x), Times(P(k), P(k)))
  {
    hide Times, P, Sq;
    forall p: nat | p < |n|
      ensures IntSquare(n)(p) as real == Times(RealSquare(x)(p), Times(P(k), P(k)))
    {
      SquareScales(n[p], x[p], P(k));
    }
    SumScales(|n|, IntSquare(n), RealSquare(x), Times(P(k), P(k)));
  }

  lemma CancelFactor(a: real, b: real, q: real)
    requires q >= 1.0
    ensures Times(a, q) == Times(b, q) <==> a == b
    ensures Times(a, q) <= Times(b, q) <==> a <= b
  {
    if a < b {
      ProductPositive(b - a, q, (b - a) * q);
      assert (b - a) * q == b * q - a * q;
    } else if b < a {
      ProductPositive(a - b, q, (a - b) * q);
      assert (a - b) * q == a * q - b * q;
    }
  }

  lemma SquareAtLeastOne(k: nat)
    ensures Times(P(k), P(k)) >= 1.0
  {
    var p := P(k);
    assert p >= 1.0;
    assert p * p >= p by {
      ProductNonnegative(p - 1.0, p);
      assert (p - 1.0) * p == p * p - p;
    }
  }

  lemma ProductNonnegative(a: real, b: real)
    requires a >= 0.0 && b >= 0.0
    ensures a * b >= 0.0
  {
  }

  /** The global descent identity, in integers at the final exponent. */
  lemma GlobalIdentity(d0: Dyadic, st0: Record, d: Dyadic, st: Record)
    requires Stands(d0, st0) && Stands(d, st) && d0.k <= d.k && d0.ledger == 0
    requires st.counts.ledger - st0.counts.ledger == RealV(st0.x) - RealV(st.x)
    ensures 2 * (IntV(d0.n) * Pow2(2 * (d.k - d0.k)) - IntV(d.n)) == d.ledger
  {
    hide Times, P, Pow2, RealV;
    var bits := d.k - d0.k;
    VScales(d0.n, d0.k, st0.x);
    VScales(d.n, d.k, st.x);
    IntTimes(IntV(d0.n), Pow2(2 * bits));
    PIs(2 * bits);
    TimesAssoc(RealV(st0.x), Times(P(d0.k), P(d0.k)), P(2 * bits));
    SquareOfP(d0.k, bits);
    var q := Times(P(d.k), P(d.k));
    ZeroLedger(st0.counts.ledger, Times(P(d0.k), P(d0.k)), d0.k);
    IdentityArithmetic(RealV(st0.x), RealV(st.x), st.counts.ledger, q);
  }

  lemma ZeroLedger(l: real, q: real, k: nat)
    requires q == Times(P(k), P(k)) && Times(2.0 * l, q) == 0.0
    ensures l == 0.0
  {
    SquareAtLeastOne(k);
    if l != 0.0 {
      NonzeroProduct(2.0 * l, q, Times(2.0 * l, q));
    }
  }

  lemma IdentityArithmetic(v0: real, v: real, l: real, q: real)
    requires l == v0 - v
    ensures 2.0 * (Times(v0, q) - Times(v, q)) == Times(2.0 * l, q)
  {
    assert 2.0 * (v0 * q - v * q) == (2.0 * (v0 - v)) * q;
  }

  // ----- the exact threshold test

  function MismatchInt(g: PortGraph, n: seq<int>): nat -> int
    requires g.Valid() && |n| == g.ports
  {
    (s: nat) => if s < |g.a| && s < |g.b| && g.a[s] < |n| && g.b[s] < |n|
                then (n[g.a[s]] - n[g.b[s]]) * (n[g.a[s]] - n[g.b[s]]) else 0
  }

  ghost function PhiNumerator(g: PortGraph, n: seq<int>): int
    requires g.Valid() && |n| == g.ports
  {
    Sum(|g.a|, MismatchInt(g, n))
  }

  lemma PhiScales(g: PortGraph, n: seq<int>, k: nat, x: seq<real>)
    requires g.Valid() && |x| == g.ports && Scaled(n, k, x)
    ensures PhiNumerator(g, n) as real == Times(Phi(g, x), Times(P(k), P(k)))
  {
    hide Times, P, Sq;
    forall s: nat | s < |g.a|
      ensures MismatchInt(g, n)(s) as real == Times(Mismatch(g, x)(s), Times(P(k), P(k)))
    {
      var a, b := g.a[s], g.b[s];
      DiffScales(n[a], n[b], x[a], x[b], P(k));
      SquareScales(n[a] - n[b], x[a] - x[b], P(k));
    }
    SumScales(|g.a|, MismatchInt(g, n), Mismatch(g, x), Times(P(k), P(k)));
  }

  lemma DiffScales(a: int, b: int, x: real, y: real, p: real)
    requires a as real == Times(x, p) && b as real == Times(y, p)
    ensures (a - b) as real == Times(x - y, p)
  {
    assert (x - y) * p == x * p - y * p;
  }

  const THRESHOLD: int := 1_000_000_000_000_000_000

  /** `10^-18` */
  ghost predicate Tiny(phi: real)
  {
    phi <= 1.0 / 1_000_000_000_000_000_000.0
  }

  lemma TinyIsThreshold(phi: real)
    ensures Tiny(phi) <==> Times(phi, THRESHOLD as real) <= 1.0
  {
  }

  /** The integer comparison decides `Phi <= 10^-18` exactly. */
  lemma ThresholdIsExact(g: PortGraph, n: seq<int>, k: nat, x: seq<real>)
    requires g.Valid() && |x| == g.ports && Scaled(n, k, x)
    ensures PhiNumerator(g, n) * THRESHOLD <= Pow2(2 * k) <==> Times(Phi(g, x), THRESHOLD as real) <= 1.0
  {
    hide Times, P, Pow2, Phi;
    PhiScales(g, n, k, x);
    IntTimes(PhiNumerator(g, n), THRESHOLD);
    var q := Times(P(k), P(k));
    TimesAssoc(Phi(g, x), q, THRESHOLD as real);
    TimesAssoc(q, THRESHOLD as real, 1.0);
    TimesAssoc(Phi(g, x), THRESHOLD as real, q);
    PIs(2 * k);
    PAdds(k, k);
    assert 2 * k == k + k;
    SquareAtLeastOne(k);
    OneTimes(q);
    CancelFactor(Times(Phi(g, x), THRESHOLD as real), 1.0, q);
  }

  lemma OneTimes(q: real)
    ensures Times(1.0, q) == q
  {
  }
}
