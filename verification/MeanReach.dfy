/** Reachability under the mean law: some finite schedule brings `Phi` below the threshold. */
module MeanReach {
  import opened Basics
  import opened Sums
  import opened Federation
  import opened MeanLaw
  import opened MeanPotential
  import opened DyadicMean
  import opened MeanExactRun

  ghost predicate Small(g: PortGraph, x: seq<real>)
    requires g.Valid() && |x| == g.ports
  {
    Tiny(Phi(g, x))
  }

  // ----- the seam with the largest mismatch

  lemma {:induction false} LargestTerm(n: nat, f: nat -> real) returns (e: nat)
    requires n > 0
    ensures e < n && RSum(n, f) <= Times(n as real, f(e))
  {
    hide Times;
    if n == 1 {
      e := 0;
      assert RSum(1, f) == RSum(0, f) + f(0);
      OneTimes(f(0));
    } else {
      var d := LargestTerm(n - 1, f);
      e := if f(n - 1) > f(d) then n - 1 else d;
      MoreTimes((n - 1) as real, f(d), f(e));
      OneTimes(f(e));
      AddTimes((n - 1) as real, 1.0, f(e));
      assert (n - 1) as real + 1.0 == n as real;
    }
  }

  lemma MoreTimes(k: real, u: real, v: real)
    requires k >= 0.0 && u <= v
    ensures Times(k, u) <= Times(k, v)
  {
  }

  lemma TimesTurn(u: real, v: real)
    ensures Times(u, v) == Times(v, u)
  {
  }

  lemma RealVNonnegative(x: seq<real>)
    ensures RealV(x) >= 0.0
  {
    forall p: nat | p < |x|
      ensures RealSquare(x)(p) >= 0.0
    {
    }
    RSumNonnegative(|x|, RealSquare(x));
  }

  // ----- one sweep that starts with a given seam

  lemma HalfSquareNonnegative(d: real)
    ensures HalfSquare(d) >= 0.0
  {
  }

  /** After its first attempt a sweep never gives the ledger back. */
  lemma {:induction false} LedgerGrows(g: PortGraph, ss: seq<nat>, st: Record, k: nat)
    requires Schedule(g, ss) && |st.x| == g.ports && 0 < k <= |ss|
    ensures Go(g, ss, st, 0, k).counts.ledger
            >= st.counts.ledger + HalfSquare(st.x[g.a[ss[0]]] - st.x[g.b[ss[0]]])
  {
    hide HalfSquare, RealV;
    var before := Go(g, ss, st, 0, k - 1);
    ActDrops(g, before, g.a[ss[k - 1]], g.b[ss[k - 1]]);
    if k > 1 {
      LedgerGrows(g, ss, st, k - 1);
      HalfSquareNonnegative(before.x[g.a[ss[k - 1]]] - before.x[g.b[ss[k - 1]]]);
    } else {
      GoNone(g, ss, st, 0);
    }
  }

  /** A full sweep that begins with seam `e`. */
  function SweepFrom(g: PortGraph, e: nat): (ss: seq<nat>)
    requires e < |g.a|
    ensures |ss| == |g.a| && ss[0] == e && forall k :: 0 <= k < |ss| ==> ss[k] < |g.a|
  {
    seq(|g.a|, _ => e)
  }

  /** The number of seams over the threshold. */
  ghost function Scale(g: PortGraph): real
  {
    Times(|g.a| as real, THRESHOLD as real)
  }

  lemma SomeSeam(g: PortGraph, x: seq<real>)
    requires g.Valid() && |x| == g.ports && !Small(g, x)
    ensures |g.a| > 0
  {
    var phi := Phi(g, x);
    assert |g.a| == 0 ==> phi == 0.0;
  }

  lemma MismatchIs(g: PortGraph, x: seq<real>, e: nat)
    requires g.Valid() && |x| == g.ports && e < |g.a|
    ensures HalfSquare(x[g.a[e]] - x[g.b[e]]) == 0.5 * Mismatch(g, x)(e)
  {
    var d := x[g.a[e]] - x[g.b[e]];
    assert Mismatch(g, x)(e) == Sq(d);
    HalfOfSquare(d);
  }

  lemma HalfOfSquare(d: real)
    ensures HalfSquare(d) == 0.5 * Sq(d)
  {
  }

  /** From `phi t > 1` and `phi <= n dd`. */
  lemma ScaledSquare(n: real, t: real, phi: real, dd: real)
    requires n > 0.0 && t > 0.0 && Times(phi, t) > 1.0 && phi <= Times(n, dd)
    ensures Times(Times(n, t), dd) > 1.0
  {
    hide Times;
    MoreTimes(t, phi, Times(n, dd));
    TimesTurn(phi, t);
    TimesTurn(t, Times(n, dd));
    TimesTurn(dd, t);
    TimesAssoc(n, dd, t);
    TimesAssoc(n, t, dd);
  }

  lemma DropIsLarge(s: real, dd: real, v: real, w: real)
    requires s >= 0.0 && Times(s, dd) > 1.0 && v - w >= 0.5 * dd
    ensures Times(s, w) <= Times(s, v) - 0.5
  {
    hide Times;
    MoreTimes(s, w + 0.5 * dd, v);
    TimesSum(s, w, dd);
  }

  lemma TimesSum(s: real, w: real, dd: real)
    ensures Times(s, w + 0.5 * dd) == Times(s, w) + 0.5 * Times(s, dd)
  {
  }

  lemma ScalePositive(g: PortGraph)
    ensures Scale(g) >= 0.0
  {
  }

  /** Above the threshold the largest squared mismatch is at least `1 / (|S| THRESHOLD)`. */
  lemma LargestMismatch(g: PortGraph, x: seq<real>) returns (e: nat)
    requires g.Valid() && |x| == g.ports && !Small(g, x)
    ensures e < |g.a| && Times(Scale(g), Mismatch(g, x)(e)) > 1.0
  {
    hide Mismatch, Times;
    SomeSeam(g, x);
    e := LargestTerm(|g.a|, Mismatch(g, x));
    TinyIsThreshold(Phi(g, x));
    ScaledSquare(|g.a| as real, THRESHOLD as real, Phi(g, x), Mismatch(g, x)(e));
  }

  /** Above the threshold, some full sweep lowers the functional by a fixed amount. */
  lemma SomeSweepLowers(g: PortGraph, st: Record) returns (ss: seq<nat>)
    requires g.Valid() && |st.x| == g.ports && !Small(g, st.x)
    ensures Schedule(g, ss) && |ss| == |g.a| > 0
    ensures Level(g, Go(g, ss, st, 0, |ss|).x) <= Level(g, st.x) - 1.0
  {
    hide RealV, HalfSquare, Mismatch, Go, Small, Times, Scale;
    var e := LargestMismatch(g, st.x);
    ss := SweepFrom(g, e);
    LedgerGrows(g, ss, st, |ss|);
    LedgerIsDrop(g, ss, st, |ss|);
    MismatchIs(g, st.x, e);
    ScalePositive(g);
    DropIsLarge(Scale(g), Mismatch(g, st.x)(e), RealV(st.x), RealV(Go(g, ss, st, 0, |ss|).x));
  }

  /** The functional, scaled so that every chosen sweep lowers it by at least one. */
  ghost function Level(g: PortGraph, x: seq<real>): real
  {
    2.0 * Times(Scale(g), RealV(x))
  }

  // ----- many sweeps

  ghost predicate FullDraws(g: PortGraph, draws: seq<seq<nat>>)
  {
    Drawn(g, draws) && forall k :: 0 <= k < |draws| ==> |draws[k]| == |g.a|
  }

  /** Prepending a sweep runs it first. */
  lemma {:induction false} SweepsCons(g: PortGraph, ss: seq<nat>, draws: seq<seq<nat>>, st: Record, k: nat)
    requires Schedule(g, ss) && Drawn(g, draws) && |st.x| == g.ports && k <= |draws|
    ensures Drawn(g, [ss] + draws)
    ensures Sweeps(g, [ss] + draws, st, k + 1) == Sweeps(g, draws, Go(g, ss, st, 0, |ss|), k)
  {
    hide Go;
    if k == 0 {
      SweepsNext(g, [ss] + draws, st, 0);
      SweepsNone(g, [ss] + draws, st);
      SweepsNone(g, draws, Go(g, ss, st, 0, |ss|));
    } else {
      SweepsCons(g, ss, draws, st, k - 1);
      SweepsNext(g, [ss] + draws, st, k);
      SweepsNext(g, draws, Go(g, ss, st, 0, |ss|), k - 1);
      assert ([ss] + draws)[k] == draws[k - 1];
    }
  }

  /** From every state some finite list of full sweeps brings `Phi` to the threshold. */
  lemma {:induction false} ThresholdReachable(g: PortGraph, st: Record) returns (draws: seq<seq<nat>>)
    requires g.Valid() && |st.x| == g.ports
    ensures FullDraws(g, draws) && Small(g, Sweeps(g, draws, st, |draws|).x)
    decreases Level(g, st.x).Floor
  {
    hide Small, Go, Level;
    if Small(g, st.x) {
      draws := [];
      SweepsNone(g, draws, st);
    } else {
      var ss := SomeSweepLowers(g, st);
      var next := Go(g, ss, st, 0, |ss|);
      LevelNonnegative(g, next.x);
      var rest := ThresholdReachable(g, next);
      draws := [ss] + rest;
      SweepsCons(g, ss, rest, st, |rest|);
    }
  }

  lemma LevelNonnegative(g: PortGraph, x: seq<real>)
    ensures Level(g, x) >= 0.0
  {
    hide RealV, Scale, Times;
    RealVNonnegative(x);
    ScalePositive(g);
    MoreTimes(Scale(g), 0.0, RealV(x));
    TimesTurn(Scale(g), 0.0);
    ZeroTimes(Scale(g));
  }

  /** From all loads some finite list of full sweeps ends below the threshold, and there the
      integer test of any exact run says so. */
  lemma ExactThresholdReachable(g: PortGraph, loads: seq<int>) returns (draws: seq<seq<nat>>)
    requires g.Valid() && |loads| == g.ports
    ensures FullDraws(g, draws) && Below(g, loads, draws, |draws|)
    ensures forall d: Dyadic ::
      |d.n| == g.ports && Stands(d, Sweeps(g, draws, Record(Loaded(loads), NOTHING), |draws|)) ==>
        PhiNumerator(g, d.n) * THRESHOLD <= Pow2(2 * d.k)
  {
    hide Times, P, Pow2, Phi, PhiNumerator, Sweeps;
    draws := ThresholdReachable(g, Record(Loaded(loads), NOTHING));
    var x := Sweeps(g, draws, Record(Loaded(loads), NOTHING), |draws|).x;
    forall d: Dyadic | |d.n| == g.ports && Stands(d, Sweeps(g, draws, Record(Loaded(loads), NOTHING), |draws|))
      ensures PhiNumerator(g, d.n) * THRESHOLD <= Pow2(2 * d.k)
    {
      ThresholdIsExact(g, d.n, d.k, x);
      TinyIsThreshold(Phi(g, x));
    }
  }
}
