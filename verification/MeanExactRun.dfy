/** The exact mean-law schedule: dyadic sweeps to the threshold, then the lattice snap. */
module MeanExactRun {
  import opened Basics
  import opened Sums
  import opened Federation
  import opened IntegerDescent
  import opened MeanLaw
  import opened MeanPotential
  import opened DyadicMean
  import opened MeanSnap

  // ----- closeness to the component lattice

  /** The component size the threshold can resolve. */
  predicate Resolvable(m: int) { 4 * m * m * (m - 1) < 1_000_000_000_000_000_000 }

  lemma SmallSquare(v: real)
    requires Sq(v) < 1.0
    ensures -1.0 < v < 1.0
  {
    if v >= 1.0 {
      ProductNonnegative(v - 1.0, v);
    } else if v <= -1.0 {
      ProductNonnegative(-v - 1.0, -v);
    }
  }

  lemma Tight(m: int, s: real, phi: real)
    requires m >= 1 && Resolvable(m) && phi >= 0.0
    requires Sq(s) <= Times((m - 1) as real, phi) && Times(phi, THRESHOLD as real) <= 1.0
    ensures -1.0 < Times(2.0 * m as real, s) < 1.0
  {
    var c := 4 * m * m * (m - 1);
    var mr := m as real;
    var k := 4.0 * mr * mr;
    assert k >= 0.0 by { ProductNonnegative(mr, mr); }
    assert c as real == k * (mr - 1.0);
    ScaledSquare(mr, s);
    ProductMonotone(k, k, Sq(s), Times(mr - 1.0, phi)) by { SquareNonnegative(s); }
    assert Times(k, Times(mr - 1.0, phi)) == Times(c as real, phi) by {
      assert k * ((mr - 1.0) * phi) == (k * (mr - 1.0)) * phi;
    }
    StrictlyBelow(c as real, THRESHOLD as real, phi);
    SmallSquare(Times(2.0 * mr, s));
  }

  lemma ScaledSquare(m: real, s: real)
    ensures Sq(Times(2.0 * m, s)) == Times(4.0 * m * m, Sq(s))
  {
    assert (2.0 * m * s) * (2.0 * m * s) == (4.0 * m * m) * (s * s);
  }

  lemma StrictlyBelow(c: real, t: real, phi: real)
    requires c < t && phi >= 0.0 && Times(phi, t) <= 1.0
    ensures Times(c, phi) < 1.0
  {
    if phi > 0.0 {
      ProductPositive(t - c, phi, (t - c) * phi);
      assert (t - c) * phi == phi * t - c * phi;
    }
  }

  /** A sum of terms below one stays below the size of the component. */
  lemma {:induction false} CountBound(labels: seq<nat>, c: nat, f: nat -> real, n: nat)
    requires n <= |labels|
    requires forall p: nat :: p < |labels| && labels[p] == c ==> f(p) < 1.0
    ensures var total := RSum(n, RIn(labels, c, f));
            var size := Sum(n, In(labels, c, ONE));
            total <= size as real && (size > 0 ==> total < size as real) && size >= 0
  {
    if n > 0 {
      CountBound(labels, c, f, n - 1);
    }
  }

  function Away(x: seq<real>, p: nat, w: real): nat -> real
    requires p < |x|
  {
    (u: nat) => if u < |x| && p < |x| then Times(w, x[p] - x[u]) else 0.0
  }

  lemma {:induction false} AwaySum(labels: seq<nat>, c: nat, x: seq<real>, p: nat, w: real, n: nat)
    requires p < |x| == |labels| && n <= |labels|
    ensures RSum(n, RIn(labels, c, Away(x, p, w))) ==
            Times(w, Times(Sum(n, In(labels, c, ONE)) as real, x[p])
                     - RSum(n, RIn(labels, c, RReading(x))))
  {
    hide Times;
    if n == 0 {
      AwayNone(w, x[p]);
    } else {
      AwaySum(labels, c, x, p, w, n - 1);
      AwayStep(w, Sum(n - 1, In(labels, c, ONE)) as real, x[p],
               RSum(n - 1, RIn(labels, c, RReading(x))), x[n - 1]);
    }
  }

  lemma AwayNone(w: real, v: real)
    ensures Times(w, Times(0.0, v) - 0.0) == 0.0
  {
  }

  lemma AwayStep(w: real, m: real, v: real, s: real, u: real)
    ensures Times(w, Times(m + 1.0, v) - (s + u)) == Times(w, Times(m, v) - s) + Times(w, v - u)
  {
    assert (m + 1.0) * v == m * v + v;
  }

  /** Below the threshold, `m x_p` is within one half of the component total. */
  lemma SnapClose(g: PortGraph, labels: seq<nat>, x: seq<real>, p: nat)
    requires Connected(g, labels) && |x| == g.ports && p < |x|
    requires Resolvable(Size(labels, labels[p])) && Times(Phi(g, x), THRESHOLD as real) <= 1.0
    ensures var m := Size(labels, labels[p]) as real;
            Size(labels, labels[p]) >= 1 && -1.0 < 2.0 * (Times(m, x[p]) - RTotal(labels, x, labels[p])) < 1.0
  {
    hide Phi, Sq, Times, Resolvable;
    var c := labels[p];
    var m := Size(labels, c);
    SpreadBelowPhi(g, labels, x, p, p);
    var w := 2.0 * m as real;
    forall u: nat | u < |labels| && labels[u] == c
      ensures Away(x, p, w)(u) < 1.0 && Away(x, p, -w)(u) < 1.0
    {
      SpreadBelowPhi(g, labels, x, p, u);
      Tight(m, x[p] - x[u], Phi(g, x));
      NegatedTimes(w, x[p] - x[u]);
    }
    CountBound(labels, c, Away(x, p, w), |labels|);
    CountBound(labels, c, Away(x, p, -w), |labels|);
    AwaySum(labels, c, x, p, w, |labels|);
    AwaySum(labels, c, x, p, -w, |labels|);
    var gap := Times(m as real, x[p]) - RTotal(labels, x, c);
    NegatedTimes(w, gap);
    HalfGap(m as real, gap);
  }

  lemma NegatedTimes(w: real, s: real)
    ensures Times(-w, s) == -Times(w, s)
  {
  }

  lemma HalfGap(m: real, gap: real)
    requires m >= 1.0 && Times(2.0 * m, gap) < m && -Times(2.0 * m, gap) < m
    ensures -1.0 < 2.0 * gap < 1.0
  {
    var e := 2.0 * gap;
    assert Times(2.0 * m, gap) == m * e;
    if e >= 1.0 {
      ProductNonnegative(m, e - 1.0);
    } else if e <= -1.0 {
      ProductNonnegative(m, -e - 1.0);
    }
  }

  // ----- rounding to the lattice

  /** Round `a / b` to the nearest integer, ties to even. */
  function RoundHalfEven(a: int, b: int): (q: int)
    requires b > 0
    ensures -b <= 2 * (q * b - a) <= b
    ensures 2 * (q * b - a) == b || 2 * (q * b - a) == -b ==> q % 2 == 0
  {
    var f, r := a / b, a % b;
    assert a == f * b + r;
    assert (f + 1) * b == f * b + b;
    if 2 * r < b then f else if 2 * r > b then f + 1 else if f % 2 == 0 then f else f + 1
  }

  lemma IntProduct(a: int, b: int)
    requires a >= 0 && b >= 0
    ensures a * b >= 0
  {
  }

  lemma RoundIsNearest(a: int, b: int, s: int)
    requires b > 0 && -b < 2 * (a - s * b) < b
    ensures RoundHalfEven(a, b) == s
  {
    hide RoundHalfEven;
    var q := RoundHalfEven(a, b);
    NearestIsOne(q, s, b, q * b, s * b);
  }

  lemma NearestIsOne(q: int, s: int, b: int, qb: int, sb: int)
    requires b > 0 && qb == q * b && sb == s * b && -b < qb - sb < b
    ensures q == s
  {
    var e := q - s;
    assert e * b == qb - sb;
    if e >= 1 {
      IntProduct(e - 1, b);
    } else if e <= -1 {
      IntProduct(-e - 1, b);
    }
  }

  lemma SnapOne(m: int, a: int, k: nat, x: real, s: int)
    requires a as real == Times(x, P(k)) && -1.0 < 2.0 * (Times(m as real, x) - s as real) < 1.0
    ensures RoundHalfEven(m * a, Pow2(k)) == s
  {
    var p := P(k);
    var t := Times(m as real, x) - s as real;
    assert (m * a) as real == m as real * (x * p) == (m as real * x) * p;
    assert (m * a - s * Pow2(k)) as real == t * p by {
      assert (m as real * x - s as real) * p == (m as real * x) * p - s as real * p;
    }
    var d := m * a - s * Pow2(k);
    Between(2.0 * t, p, 2.0 * d as real);
    RoundIsNearest(m * a, Pow2(k), s);
  }

  lemma Between(t: real, p: real, d: real)
    requires -1.0 < t < 1.0 && p >= 1.0 && d == t * p
    ensures -p < d < p
  {
    ProductPositive(1.0 - t, p, (1.0 - t) * p);
    ProductPositive(1.0 + t, p, (1.0 + t) * p);
    assert (1.0 - t) * p == p - t * p && (1.0 + t) * p == p + t * p;
  }

  // ----- the schedule

  ghost predicate Drawn(g: PortGraph, draws: seq<seq<nat>>)
  {
    g.Valid() && forall k :: 0 <= k < |draws| ==> Schedule(g, draws[k])
  }

  /** The mean law through the first `k` sweeps. */
  ghost function Sweeps(g: PortGraph, draws: seq<seq<nat>>, st: Record, k: nat): (r: Record)
    requires Drawn(g, draws) && |st.x| == g.ports && k <= |draws|
    ensures |r.x| == |st.x|
  {
    if k == 0 then st else
      Go(g, draws[k - 1], Sweeps(g, draws, st, k - 1), 0, |draws[k - 1]|)
  }

  lemma {:induction false} SweepsKeep(g: PortGraph, labels: seq<nat>, draws: seq<seq<nat>>, st: Record, k: nat, c: nat)
    requires SeamsInside(g, labels) && Drawn(g, draws) && |st.x| == g.ports && k <= |draws|
    ensures RTotal(labels, Sweeps(g, draws, st, k).x, c) == RTotal(labels, st.x, c)
    ensures Sweeps(g, draws, st, k).counts.ledger - st.counts.ledger == RealV(st.x) - RealV(Sweeps(g, draws, st, k).x)
  {
    hide Go, RTotal, RealV;
    if k > 0 {
      var before := Sweeps(g, draws, st, k - 1);
      SweepsKeep(g, labels, draws, st, k - 1, c);
      RunKeepsTotals(g, labels, draws[k - 1], before, |draws[k - 1]|, c);
      LedgerIsDrop(g, draws[k - 1], before, |draws[k - 1]|);
    }
  }

  /** The loads as real readings. */
  function Loaded(loads: seq<int>): (x: seq<real>)
    ensures |x| == |loads| && forall p :: 0 <= p < |x| ==> x[p] == loads[p] as real
  {
    seq(|loads|, p requires 0 <= p < |loads| => loads[p] as real)
  }

  lemma {:induction false} TotalAsReal(labels: seq<nat>, loads: seq<int>, c: nat, n: nat)
    requires n <= |labels| == |loads|
    ensures RSum(n, RIn(labels, c, RReading(Loaded(loads)))) == Sum(n, In(labels, c, Reading(loads))) as real
  {
    if n > 0 {
      TotalAsReal(labels, loads, c, n - 1);
    }
  }

  /** Integers of one component sum to the scaled real total. */
  lemma TotalScales(labels: seq<nat>, n: seq<int>, k: nat, x: seq<real>, c: nat)
    requires |labels| == |n| && Scaled(n, k, x)
    ensures Total(labels, n, c) as real == Times(RTotal(labels, x, c), P(k))
  {
    hide Times, P;
    ZeroTimes(P(k));
    forall p: nat | p < |labels|
      ensures In(labels, c, Reading(n))(p) as real == Times(RIn(labels, c, RReading(x))(p), P(k))
    {
    }
    SumScales(|labels|, In(labels, c, Reading(n)), RIn(labels, c, RReading(x)), P(k));
  }

  lemma ZeroTimes(q: real)
    ensures Times(0.0, q) == 0.0
  {
  }

  /** Exact conservation per component: the integers sum to the load total shifted by the exponent. */
  lemma ComponentConservation(g: PortGraph, labels: seq<nat>, loads: seq<int>, draws: seq<seq<nat>>, sweeps: nat,
                              d: Dyadic, c: nat)
    requires SeamsInside(g, labels) && Drawn(g, draws) && |loads| == g.ports && sweeps <= |draws|
    requires Stands(d, Sweeps(g, draws, Record(Loaded(loads), NOTHING), sweeps))
    ensures |d.n| == |labels| && Total(labels, d.n, c) == Total(labels, loads, c) * Pow2(d.k)
    ensures RTotal(labels, Sweeps(g, draws, Record(Loaded(loads), NOTHING), sweeps).x, c) ==
      Total(labels, loads, c) as real
  {
    hide Times, P, Pow2, Sweeps;
    var st := Record(Loaded(loads), NOTHING);
    SweepsKeep(g, labels, draws, st, sweeps, c);
    TotalAsReal(labels, loads, c, |labels|);
    TotalScales(labels, d.n, d.k, Sweeps(g, draws, st, sweeps).x, c);
    IntTimes(Total(labels, loads, c), Pow2(d.k));
    PIs(d.k);
  }

  /** Every snapped reading is the initial load total of its component. */
  lemma SnapIsTotal(g: PortGraph, labels: seq<nat>, loads: seq<int>, draws: seq<seq<nat>>, sweeps: nat, d: Dyadic,
                    p: nat)
    requires Connected(g, labels) && Drawn(g, draws) && |loads| == g.ports && sweeps <= |draws| && p < g.ports
    requires Stands(d, Sweeps(g, draws, Record(Loaded(loads), NOTHING), sweeps))
    requires |d.n| == g.ports && PhiNumerator(g, d.n) * THRESHOLD <= Pow2(2 * d.k)
    requires Resolvable(Size(labels, labels[p]))
    ensures RoundHalfEven(Size(labels, labels[p]) * d.n[p], Pow2(d.k)) == Total(labels, loads, labels[p])
  {
    hide Times, P, Pow2, Sweeps, Phi, PhiNumerator, Resolvable, RoundHalfEven, RTotal, Total, Size;
    var x := Sweeps(g, draws, Record(Loaded(loads), NOTHING), sweeps).x;
    ThresholdIsExact(g, d.n, d.k, x);
    SnapClose(g, labels, x, p);
    ComponentConservation(g, labels, loads, draws, sweeps, d, labels[p]);
    SnapOne(Size(labels, labels[p]), d.n[p], d.k, x[p], Total(labels, loads, labels[p]));
  }

  /** The dyadic sweeps, one after the other. */
  ghost function DyadicSweeps(g: PortGraph, draws: seq<seq<nat>>, d: Dyadic, bits: nat, k: nat): (r: Dyadic)
    requires Drawn(g, draws) && |d.n| == g.ports && bits >= 1 && k <= |draws|
    ensures |r.n| == g.ports
  {
    if k == 0 then d else
      Moves(g, draws[k - 1], DyadicSweeps(g, draws, d, bits, k - 1), bits, |draws[k - 1]|)
  }

  /** The loads shifted to the initial exponent. */
  function Shifted(loads: seq<int>, bits: nat): (d: Dyadic)
    ensures |d.n| == |loads|
  {
    Dyadic(seq(|loads|, p requires 0 <= p < |loads| => loads[p] * Pow2(bits)), bits, 0, 0, 0)
  }

  lemma ShiftedStands(loads: seq<int>, bits: nat)
    ensures Stands(Shifted(loads, bits), Record(Loaded(loads), NOTHING))
  {
    hide Times, P, Pow2;
    PIs(bits);
    forall p | 0 <= p < |loads|
      ensures Shifted(loads, bits).n[p] as real == Times(loads[p] as real, P(bits))
    {
      IntTimes(loads[p], Pow2(bits));
    }
    ZeroTimes(Times(P(bits), P(bits)));
    assert 2.0 * NOTHING.ledger == 0.0;
  }

  /** The exact numerator of `Phi`. */
  method ExactPhi(g: PortGraph, n: seq<int>) returns (phi: int)
    requires g.Valid() && |n| == g.ports
    ensures phi == PhiNumerator(g, n)
  {
    phi := 0;
    for s := 0 to |g.a|
      invariant phi == Sum(s, MismatchInt(g, n))
    {
      var d := n[g.a[s]] - n[g.b[s]];
      phi := phi + d * d;
    }
  }

  /** After `k` sweeps `Phi` is at most `10^-18`. */
  ghost predicate Below(g: PortGraph, loads: seq<int>, draws: seq<seq<nat>>, k: nat)
    requires Drawn(g, draws) && |loads| == g.ports && k <= |draws|
  {
    Tiny(Phi(g, Sweeps(g, draws, Record(Loaded(loads), NOTHING), k).x))
  }

  datatype ExactResult = ExactResult(terminated: bool, sweeps: nat, d: Dyadic, snapped: seq<int>, identity: bool,
                                     conserved: bool, componentsConserved: bool)

  /** The sum of the squares. */
  method SquareSum(n: seq<int>) returns (v: int)
    ensures v == IntV(n)
  {
    v := 0;
    for p := 0 to |n|
      invariant v == Sum(p, IntSquare(n))
    {
      v := v + n[p] * n[p];
    }
  }

  method WholeTotal(n: seq<int>) returns (total: int)
    ensures total == Sum(|n|, Reading(n))
  {
    total := 0;
    for p := 0 to |n|
      invariant total == Sum(p, Reading(n))
    {
      total := total + n[p];
    }
  }

  /** Totals per component, port by port. */
  method ComponentTotals(labels: seq<nat>, count: nat, n: seq<int>) returns (totals: seq<int>)
    requires Labelled(labels, count) && |labels| == |n|
    ensures |totals| == count && forall c :: 0 <= c < count ==> totals[c] == Total(labels, n, c)
  {
    totals := seq(count, _ => 0);
    for p := 0 to |labels|
      invariant |totals| == count
      invariant forall c: nat :: c < count ==> totals[c] == Sum(p, In(labels, c, Reading(n)))
    {
      var c := labels[p];
      totals := totals[c := totals[c] + n[p]];
    }
  }

  /** The three checks of the final integers: descent identity, total, component totals. */
  method FinalChecks(labels: seq<nat>, count: nat, loads: seq<int>, start: Dyadic, d: Dyadic)
    returns (identity: bool, conserved: bool, componentsConserved: bool)
    requires Labelled(labels, count) && |labels| == |loads| == |d.n| && start.k <= d.k
    ensures identity <==> (IntV(start.n) * Pow2(2 * (d.k - start.k)) - IntV(d.n)) * 2 == d.ledger
    ensures conserved <==> Sum(|d.n|, Reading(d.n)) == Sum(|loads|, Reading(loads)) * Pow2(d.k)
    ensures componentsConserved <==>
      forall c: nat :: c < count ==> Total(labels, d.n, c) == Total(labels, loads, c) * Pow2(d.k)
  {
    hide Pow2, IntV, Sum, Total;
    var v0 := SquareSum(start.n);
    var v := SquareSum(d.n);
    identity := (v0 * Pow2(2 * (d.k - start.k)) - v) * 2 == d.ledger;
    var total := WholeTotal(d.n);
    var total0 := WholeTotal(loads);
    conserved := total == total0 * Pow2(d.k);
    var totals := ComponentTotals(labels, count, d.n);
    var totals0 := ComponentTotals(labels, count, loads);
    componentsConserved := forall c :: 0 <= c < count ==> totals[c] == totals0[c] * Pow2(d.k);
  }

  /** With one label the component total is the whole total. */
  lemma WholeAsComponent(n: seq<int>)
    ensures Total(seq(|n|, _ => 0), n, 0) == Sum(|n|, Reading(n))
  {
    SumExt(|n|, In(seq(|n|, _ => 0), 0, Reading(n)), Reading(n));
  }

  /** The checks of a run always succeed. */
  lemma ChecksHold(g: PortGraph, labels: seq<nat>, loads: seq<int>, draws: seq<seq<nat>>, bits: nat, sweeps: nat,
                   d: Dyadic)
    requires SeamsInside(g, labels) && Drawn(g, draws) && |loads| == g.ports && sweeps <= |draws|
    requires Stands(d, Sweeps(g, draws, Record(Loaded(loads), NOTHING), sweeps)) && bits <= d.k
    ensures |d.n| == |loads|
    ensures (IntV(Shifted(loads, bits).n) * Pow2(2 * (d.k - bits)) - IntV(d.n)) * 2 == d.ledger
    ensures Sum(|d.n|, Reading(d.n)) == Sum(|loads|, Reading(loads)) * Pow2(d.k)
    ensures forall c: nat :: Total(labels, d.n, c) == Total(labels, loads, c) * Pow2(d.k)
  {
    hide Stands, Sweeps, Pow2, IntV, Total, Sum;
    RunIdentity(g, labels, loads, draws, bits, sweeps, d);
    forall c: nat
      ensures |d.n| == |loads| && Total(labels, d.n, c) == Total(labels, loads, c) * Pow2(d.k)
    {
      ComponentConservation(g, labels, loads, draws, sweeps, d, c);
    }
    ComponentConservation(g, labels, loads, draws, sweeps, d, 0);
    ComponentConservation(g, seq(g.ports, _ => 0), loads, draws, sweeps, d, 0);
    WholeAsComponent(d.n);
    WholeAsComponent(loads);
  }

  /** The exact test of the state after `k` sweeps. */
  method TestBelow(g: PortGraph, ghost loads: seq<int>, ghost draws: seq<seq<nat>>, ghost k: nat, d: Dyadic)
    returns (ok: bool)
    requires Drawn(g, draws) && |loads| == g.ports && k <= |draws| && |d.n| == g.ports
    requires Stands(d, Sweeps(g, draws, Record(Loaded(loads), NOTHING), k))
    ensures ok <==> Below(g, loads, draws, k)
    ensures ok <==> PhiNumerator(g, d.n) * THRESHOLD <= Pow2(2 * d.k)
  {
    hide Times, P, Pow2, Sweeps, Phi, PhiNumerator;
    var phi := ExactPhi(g, d.n);
    ok := phi * THRESHOLD <= Pow2(2 * d.k);
    ThresholdIsExact(g, d.n, d.k, Sweeps(g, draws, Record(Loaded(loads), NOTHING), k).x);
    TinyIsThreshold(Phi(g, Sweeps(g, draws, Record(Loaded(loads), NOTHING), k).x));
  }

  /** One schedule in exact arithmetic.  `near[k]` says whether the float companion
      is below its trigger after `k` sweeps; the exact test alone decides. */
  method RunMeanLawExact(g: PortGraph, labels: seq<nat>, sizes: seq<int>, loads: seq<int>, draws: seq<seq<nat>>,
                         near: seq<bool>, bits: nat) returns (r: ExactResult)
    requires Connected(g, labels) && Labelled(labels, |sizes|) && |loads| == g.ports && bits >= 1
    requires forall c: nat :: c < |sizes| ==> sizes[c] == Size(labels, c)
    requires Drawn(g, draws) && |near| == |draws| + 1
    ensures r.sweeps <= |draws| && |r.d.n| == g.ports == |r.snapped| && bits <= r.d.k
    ensures Stands(r.d, Sweeps(g, draws, Record(Loaded(loads), NOTHING), r.sweeps))
    ensures r.d == DyadicSweeps(g, draws, Shifted(loads, bits), bits, r.sweeps)
    ensures |labels| == g.ports && SnapOf(labels, sizes, r.d, r.snapped)
    ensures r.terminated <==> near[r.sweeps] && Below(g, loads, draws, r.sweeps)
    ensures forall k :: 0 <= k < r.sweeps ==> !(near[k] && Below(g, loads, draws, k))
    ensures !r.terminated ==> r.sweeps == |draws|
    ensures r.identity && r.conserved && r.componentsConserved
    ensures r.terminated && (forall c: nat :: c < |sizes| ==> Resolvable(sizes[c])) ==>
              forall p :: 0 <= p < g.ports ==> r.snapped[p] == Total(labels, loads, labels[p])
  {
    hide Times, P, Pow2, Sweeps, PhiNumerator, Resolvable, Stands, Shifted, Connected, SnapOf, Total, Size, Loaded;
    hide Below, Moves;
    hide IntV, Sum, SeamsInside;
    ConnectedSize(g, labels);
    ghost var st0 := Record(Loaded(loads), NOTHING);
    var start := Shifted(loads, bits);
    var d := start;
    ShiftedStands(loads, bits);
    ShiftedExponent(loads, bits);
    var sweep, ok := 0, false;
    SweepsNone(g, draws, st0);
    if near[0] {
      ok := TestBelow(g, loads, draws, 0, d);
    }
    while !ok && sweep < |draws|
      invariant 0 <= sweep <= |draws| && |d.n| == g.ports && bits <= d.k
      invariant Stands(d, Sweeps(g, draws, st0, sweep))
      invariant |start.n| == g.ports && d == DyadicSweeps(g, draws, start, bits, sweep)
      invariant ok <==> near[sweep] && Below(g, loads, draws, sweep)
      invariant ok ==> PhiNumerator(g, d.n) * THRESHOLD <= Pow2(2 * d.k)
      invariant forall k :: 0 <= k < sweep ==> !(near[k] && Below(g, loads, draws, k))
    {
      SweepsNext(g, draws, st0, sweep);
      d := ExactSweep(g, draws[sweep], d, bits, Sweeps(g, draws, st0, sweep));
      sweep := sweep + 1;
      StandsSize(d, Sweeps(g, draws, st0, sweep));
      if near[sweep] {
        ok := TestBelow(g, loads, draws, sweep, d);
      }
    }
    ChecksHold(g, labels, loads, draws, bits, sweep, d);
    var identity, conserved, componentsConserved := FinalChecks(labels, |sizes|, loads, start, d);
    var snapped := SnapReadings(labels, sizes, d);
    if ok && forall c: nat :: c < |sizes| ==> Resolvable(sizes[c]) {
      AllSnap(g, labels, sizes, loads, draws, sweep, d, snapped);
    }
    r := ExactResult(ok, sweep, d, snapped, identity, conserved, componentsConserved);
  }

  lemma ShiftedExponent(loads: seq<int>, bits: nat)
    ensures Shifted(loads, bits).k == bits
  {
  }

  /** Every reading, times its component size, rounded to an integer. */
  ghost predicate SnapOf(labels: seq<nat>, sizes: seq<int>, d: Dyadic, snapped: seq<int>)
    requires Labelled(labels, |sizes|) && |d.n| == |labels| == |snapped|
  {
    forall p :: 0 <= p < |labels| ==> snapped[p] == RoundHalfEven(sizes[labels[p]] * d.n[p], Pow2(d.k))
  }

  /** Snap every reading to its component lattice. */
  method SnapReadings(labels: seq<nat>, sizes: seq<int>, d: Dyadic) returns (snapped: seq<int>)
    requires Labelled(labels, |sizes|) && |d.n| == |labels|
    ensures |snapped| == |labels| && SnapOf(labels, sizes, d, snapped)
  {
    hide RoundHalfEven;
    snapped := [];
    Pow2Positive(d.k);
    for p := 0 to |labels|
      invariant |snapped| == p
      invariant forall i :: 0 <= i < p ==> snapped[i] == RoundHalfEven(sizes[labels[i]] * d.n[i], Pow2(d.k))
    {
      snapped := snapped + [RoundHalfEven(sizes[labels[p]] * d.n[p], Pow2(d.k))];
    }
  }

  lemma AllSnap(g: PortGraph, labels: seq<nat>, sizes: seq<int>, loads: seq<int>, draws: seq<seq<nat>>, sweeps: nat,
                d: Dyadic, snapped: seq<int>)
    requires Connected(g, labels) && Labelled(labels, |sizes|) && Drawn(g, draws) && |loads| == g.ports
    requires sweeps <= |draws|
    requires Stands(d, Sweeps(g, draws, Record(Loaded(loads), NOTHING), sweeps))
    requires |d.n| == g.ports == |snapped| && PhiNumerator(g, d.n) * THRESHOLD <= Pow2(2 * d.k)
    requires forall c: nat :: c < |sizes| ==> sizes[c] == Size(labels, c) && Resolvable(sizes[c])
    requires |labels| == |snapped| && SnapOf(labels, sizes, d, snapped)
    ensures forall p :: 0 <= p < g.ports ==> snapped[p] == Total(labels, loads, labels[p])
  {
    hide Stands, Sweeps, Pow2, PhiNumerator, RoundHalfEven, Size, Total, Resolvable, Connected;
    ConnectedSize(g, labels);
    forall p | 0 <= p < g.ports
      ensures snapped[p] == Total(labels, loads, labels[p])
    {
      SnapIsTotal(g, labels, loads, draws, sweeps, d, p);
    }
  }

  lemma ConnectedSize(g: PortGraph, labels: seq<nat>)
    requires Connected(g, labels)
    ensures |labels| == g.ports && SeamsInside(g, labels)
  {
  }

  lemma Pow2Positive(k: nat)
    ensures Pow2(k) > 0
  {
  }

  lemma SweepsNone(g: PortGraph, draws: seq<seq<nat>>, st: Record)
    requires Drawn(g, draws) && |st.x| == g.ports
    ensures Sweeps(g, draws, st, 0) == st
  {
  }

  lemma SweepsNext(g: PortGraph, draws: seq<seq<nat>>, st: Record, k: nat)
    requires Drawn(g, draws) && |st.x| == g.ports && k < |draws|
    ensures Sweeps(g, draws, st, k + 1) == Go(g, draws[k], Sweeps(g, draws, st, k), 0, |draws[k]|)
  {
  }

  /** The global descent identity of a run, in integers at its final exponent. */
  lemma RunIdentity(g: PortGraph, labels: seq<nat>, loads: seq<int>, draws: seq<seq<nat>>, bits: nat, sweeps: nat,
                    d: Dyadic)
    requires SeamsInside(g, labels) && Drawn(g, draws) && |loads| == g.ports && sweeps <= |draws|
    requires Stands(d, Sweeps(g, draws, Record(Loaded(loads), NOTHING), sweeps)) && bits <= d.k
    ensures 2 * (IntV(Shifted(loads, bits).n) * Pow2(2 * (d.k - bits)) - IntV(d.n)) == d.ledger
  {
    hide Stands, Sweeps, Pow2, IntV, RealV;
    var st0 := Record(Loaded(loads), NOTHING);
    ShiftedStands(loads, bits);
    SweepsKeep(g, labels, draws, st0, sweeps, 0);
    GlobalIdentity(Shifted(loads, bits), st0, d, Sweeps(g, draws, st0, sweeps));
  }

  /** The expected payload of the lattice snap: every port carries its component's load total. */
  ghost function ExpectedSnap(labels: seq<nat>, loads: seq<int>): seq<int>
  {
    seq(|labels|, p requires 0 <= p < |labels| => Total(labels, loads, labels[p]))
  }

  /** Any two schedules that stop, on any draws, give the same snapped readings. */
  lemma SnapUnique(g: PortGraph, labels: seq<nat>, loads: seq<int>,
                   draws: seq<seq<nat>>, sweeps: nat, d: Dyadic, draws': seq<seq<nat>>, sweeps': nat, d': Dyadic,
                   p: nat)
    requires Connected(g, labels) && Drawn(g, draws) && Drawn(g, draws') && |loads| == g.ports && p < g.ports
    requires sweeps <= |draws| && sweeps' <= |draws'| && |d.n| == |d'.n| == g.ports
    requires Stands(d, Sweeps(g, draws, Record(Loaded(loads), NOTHING), sweeps))
    requires Stands(d', Sweeps(g, draws', Record(Loaded(loads), NOTHING), sweeps'))
    requires PhiNumerator(g, d.n) * THRESHOLD <= Pow2(2 * d.k) && PhiNumerator(g, d'.n) * THRESHOLD <= Pow2(2 * d'.k)
    requires Resolvable(Size(labels, labels[p]))
    ensures RoundHalfEven(Size(labels, labels[p]) * d.n[p], Pow2(d.k)) ==
            RoundHalfEven(Size(labels, labels[p]) * d'.n[p], Pow2(d'.k)) == ExpectedSnap(labels, loads)[p]
  {
    hide Stands, Sweeps, Pow2, PhiNumerator, RoundHalfEven, Size, Resolvable;
    SnapIsTotal(g, labels, loads, draws, sweeps, d, p);
    SnapIsTotal(g, labels, loads, draws', sweeps', d', p);
  }
}
