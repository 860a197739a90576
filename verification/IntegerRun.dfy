/** What every integer run keeps, and the schedule that stops at the balanced class. */
module IntegerRun {
  import opened Indexing
  import opened Sums
  import opened Federation
  import opened IntegerLaw
  import opened IntegerLayered
  import opened IntegerDescent

  ghost predicate SameTotals(labels: seq<nat>, x: seq<int>, y: seq<int>)
  {
    forall c: nat :: Total(labels, x, c) == Total(labels, y, c)
  }

  ghost predicate Within(x: seq<int>, low: int, high: int)
  {
    forall p :: 0 <= p < |x| ==> low <= x[p] <= high
  }

  // ----- one attempt

  /** Writing two readings of one component with the same sum keeps every total. */
  lemma PairKeepsTotals(labels: seq<nat>, x: seq<int>, i: nat, j: nat, u: int, v: int)
    requires |labels| == |x| && i < |x| && j < |x| && labels[i] == labels[j]
    requires u + v == x[i] + x[j] && (i == j ==> v == x[j])
    ensures SameTotals(labels, x, x[i := u][j := v])
  {
    var y := x[i := u];
    var z := y[j := v];
    forall c: nat
      ensures Total(labels, x, c) == Total(labels, z, c)
    {
      OverPoint(labels, c, Reading(x), Reading(y), i);
      OverPoint(labels, c, Reading(y), Reading(z), j);
    }
  }

  lemma PairChangesV(x: seq<int>, i: nat, j: nat, u: int, v: int)
    requires i < |x| && j < |x| && (i == j ==> u == v == x[j])
    ensures V(x[i := u][j := v]) == V(x) + Square(u) + Square(v) - Square(x[i]) - Square(x[j])
  {
    hide Square;
    var y := x[i := u];
    var z := y[j := v];
    SumPoint(|x|, ReadingSquare(x), ReadingSquare(y), i);
    SumPoint(|x|, ReadingSquare(y), ReadingSquare(z), j);
  }

  lemma AgreementOfEquals(v: int, coin: bool)
    ensures NearestAgreement(v, v, coin) == (v, v)
  {
  }

  lemma ChangeIsSquareChange(xi: int, xj: int, coin: bool)
    ensures Change(xi, xj, coin) == SquareChange(xi, xj, coin)
  {
    hide SquareChange;
    SquareChangeIsLedger(xi, xj, coin);
  }

  /** The tracked functional stays the sum of squares. */
  lemma ActTracksV(st: Record, i: nat, j: nat, coin: bool, vMin: int, t: nat)
    requires i < |st.x| && j < |st.x| && st.v == V(st.x)
    ensures Act(st, i, j, coin, vMin, t).v == V(Act(st, i, j, coin, vMin, t).x)
  {
    var agreed := NearestAgreement(st.x[i], st.x[j], coin);
    AgreementOfEquals(st.x[i], coin);
    PairChangesV(st.x, i, j, agreed.0, agreed.1);
    ChangeIsSquareChange(st.x[i], st.x[j], coin);
  }

  lemma ActKeepsTotals(labels: seq<nat>, st: Record, i: nat, j: nat, coin: bool, vMin: int, t: nat)
    requires |labels| == |st.x| && i < |st.x| && j < |st.x| && labels[i] == labels[j]
    ensures SameTotals(labels, st.x, Act(st, i, j, coin, vMin, t).x)
  {
    var agreed := NearestAgreement(st.x[i], st.x[j], coin);
    AgreementOfEquals(st.x[i], coin);
    PairKeepsTotals(labels, st.x, i, j, agreed.0, agreed.1);
  }

  lemma ActStaysWithin(st: Record, i: nat, j: nat, coin: bool, vMin: int, t: nat, low: int, high: int)
    requires i < |st.x| && j < |st.x| && Within(st.x, low, high)
    ensures Within(Act(st, i, j, coin, vMin, t).x, low, high)
  {
  }

  /** Transfers against drop, with mismatches of at most `dmax`. */
  ghost predicate LedgerBounds(transfers: int, drop: int, dmax: int)
  {
    if dmax >= 2 then 2 * transfers <= drop <= 2 * ((dmax - 1) * transfers) else transfers == 0 == drop
  }

  /** The bounds of one descent from mismatch `d`. */
  lemma DescentBounds(d: nat, dmax: int)
    requires 2 <= d <= dmax
    ensures LedgerBounds(d / 2, UnitTransferDrop(d), dmax)
  {
    hide UnitTransferDrop;
    var k, c := d / 2, (d + 1) / 2;
    UnitTransferClosedForm(d);
    MulMonotone(1, c, k);
    MulMonotone(c, dmax - 1, k);
    Twice(k, c, c * k);
  }

  lemma Twice(k: int, c: int, p: int)
    requires p == c * k
    ensures 2 * k * c == 2 * p
  {
  }

  lemma DropBounds(xi: int, xj: int, coin: bool, dmax: int)
    requires Abs(xi - xj) <= dmax
    ensures LedgerBounds(Tick(xi, xj, coin).transfers, -Change(xi, xj, coin), dmax)
  {
    hide UnitTransferDrop, LedgerBounds;
    if KindOf(xi, xj, coin).Descent? {
      DescentBounds(Abs(xi - xj), dmax);
    } else {
      NoLedger(dmax);
    }
  }

  lemma NoLedger(dmax: int)
    ensures LedgerBounds(0, 0, dmax)
  {
    assert (dmax - 1) * 0 == 0;
  }

  lemma MulMonotone(a: int, b: int, k: int)
    requires a <= b && k >= 0
    ensures a * k <= b * k
  {
  }

  lemma LedgerAdds(t1: int, d1: int, t2: int, d2: int, dmax: int)
    requires LedgerBounds(t1, d1, dmax) && LedgerBounds(t2, d2, dmax)
    ensures LedgerBounds(t1 + t2, d1 + d2, dmax)
  {
    assert (dmax - 1) * (t1 + t2) == (dmax - 1) * t1 + (dmax - 1) * t2;
  }

  // ----- whole runs

  /** A run keeps the component totals. */
  lemma {:induction false} RunKeepsTotals(g: PortGraph, labels: seq<nat>, ss: seq<nat>, cs: seq<bool>, vMin: int,
                                          st: Record, lo: nat, hi: nat)
    requires SeamsInside(g, labels) && Schedule(g, ss, cs) && |st.x| == g.ports && lo <= hi <= |ss|
    ensures SameTotals(labels, st.x, Go(g, ss, cs, vMin, st, lo, hi).x)
    decreases hi
  {
    hide Act, Total;
    if lo == hi {
      GoNone(g, ss, cs, vMin, st, lo);
    } else {
      RunKeepsTotals(g, labels, ss, cs, vMin, st, lo, hi - 1);
      ActKeepsTotals(labels, Go(g, ss, cs, vMin, st, lo, hi - 1), g.a[ss[hi - 1]], g.b[ss[hi - 1]], cs[hi - 1], vMin,
        hi - 1);
    }
  }

  /** The tracked functional is the sum of squares at every point of a run. */
  lemma {:induction false} RunTracksV(g: PortGraph, ss: seq<nat>, cs: seq<bool>, vMin: int, st: Record, lo: nat,
                                      hi: nat)
    requires Schedule(g, ss, cs) && |st.x| == g.ports && lo <= hi <= |ss| && st.v == V(st.x)
    ensures Go(g, ss, cs, vMin, st, lo, hi).v == V(Go(g, ss, cs, vMin, st, lo, hi).x)
    decreases hi
  {
    hide Act, V;
    if lo == hi {
      GoNone(g, ss, cs, vMin, st, lo);
    } else {
      RunTracksV(g, ss, cs, vMin, st, lo, hi - 1);
      ActTracksV(Go(g, ss, cs, vMin, st, lo, hi - 1), g.a[ss[hi - 1]], g.b[ss[hi - 1]], cs[hi - 1], vMin, hi - 1);
    }
  }

  lemma {:induction false} RunStaysWithin(g: PortGraph, ss: seq<nat>, cs: seq<bool>, vMin: int, st: Record,
                                          lo: nat, hi: nat, low: int, high: int)
    requires Schedule(g, ss, cs) && |st.x| == g.ports && lo <= hi <= |ss| && Within(st.x, low, high)
    ensures Within(Go(g, ss, cs, vMin, st, lo, hi).x, low, high)
    decreases hi
  {
    hide Act, Within;
    if lo == hi {
      GoNone(g, ss, cs, vMin, st, lo);
    } else {
      RunStaysWithin(g, ss, cs, vMin, st, lo, hi - 1, low, high);
      ActStaysWithin(Go(g, ss, cs, vMin, st, lo, hi - 1), g.a[ss[hi - 1]], g.b[ss[hi - 1]], cs[hi - 1], vMin, hi - 1,
                     low, high);
    }
  }

  lemma ActLedger(st: Record, i: nat, j: nat, coin: bool, vMin: int, t: nat, low: int, high: int)
    requires i < |st.x| && j < |st.x| && Within(st.x, low, high)
    ensures var end := Act(st, i, j, coin, vMin, t);
            && end.counts.violations == st.counts.violations
            && end.counts.waits + end.counts.swaps + end.counts.descents ==
               st.counts.waits + st.counts.swaps + st.counts.descents + 1
            && end.counts.descents - st.counts.descents <= end.counts.transfers - st.counts.transfers
            && LedgerBounds(end.counts.transfers - st.counts.transfers, st.v - end.v, high - low)
  {
    DropBounds(st.x[i], st.x[j], coin, high - low);
  }

  /** Over a run, no decrement is violated, every attempt is tallied once, and the
      drop of the functional lies between two and `2 (dmax - 1)` per transferred unit. */
  lemma {:induction false} RunLedger(g: PortGraph, ss: seq<nat>, cs: seq<bool>, vMin: int, st: Record,
                                     lo: nat, hi: nat, low: int, high: int)
    requires Schedule(g, ss, cs) && |st.x| == g.ports && lo <= hi <= |ss| && Within(st.x, low, high)
    ensures var end := Go(g, ss, cs, vMin, st, lo, hi);
            && end.counts.violations == st.counts.violations
            && end.counts.waits + end.counts.swaps + end.counts.descents ==
               st.counts.waits + st.counts.swaps + st.counts.descents + hi - lo
            && end.counts.descents - st.counts.descents <= end.counts.transfers - st.counts.transfers
            && LedgerBounds(end.counts.transfers - st.counts.transfers, st.v - end.v, high - low)
    decreases hi
  {
    hide Act, Within, LedgerBounds;
    if lo == hi {
      GoNone(g, ss, cs, vMin, st, lo);
      NoLedger(high - low);
    } else {
      var before := Go(g, ss, cs, vMin, st, lo, hi - 1);
      RunLedger(g, ss, cs, vMin, st, lo, hi - 1, low, high);
      RunStaysWithin(g, ss, cs, vMin, st, lo, hi - 1, low, high);
      ActLedger(before, g.a[ss[hi - 1]], g.b[ss[hi - 1]], cs[hi - 1], vMin, hi - 1, low, high);
      var end := Go(g, ss, cs, vMin, st, lo, hi);
      LedgerAdds(before.counts.transfers - st.counts.transfers, st.v - before.v,
                 end.counts.transfers - before.counts.transfers, before.v - end.v, high - low);
    }
  }

  // ----- one schedule

  /** One sweep of drawn seams and coins, as many as there are seams. */
  datatype Sweep = Sweep(seams: seq<nat>, coins: seq<bool>)

  ghost predicate Drawn(g: PortGraph, s: Sweep)
  {
    Schedule(g, s.seams, s.coins) && |s.seams| == |g.a|
  }

  ghost predicate AllDrawn(g: PortGraph, draws: seq<Sweep>)
  {
    forall k :: 0 <= k < |draws| ==> Drawn(g, draws[k])
  }

  /** The readings after the first `k` sweeps. */
  ghost function SweptState(g: PortGraph, draws: seq<Sweep>, x: seq<int>, k: nat): (r: seq<int>)
    requires AllDrawn(g, draws) && |x| == g.ports && k <= |draws|
    ensures |r| == |x|
  {
    if k == 0 then x else
      var s := draws[k - 1];
      Go(g, s.seams, s.coins, 0, Start(SweptState(g, draws, x, k - 1), 0, NONE), 0, |s.seams|).x
  }

  /** Readings evolve alike whatever is tracked beside them. */
  lemma {:induction false} ReadingsAlone(g: PortGraph, ss: seq<nat>, cs: seq<bool>, vMin: int, st: Record,
                                         vMin': int, st': Record, k: nat)
    requires Schedule(g, ss, cs) && |st.x| == g.ports && st.x == st'.x && k <= |ss|
    ensures Go(g, ss, cs, vMin, st, 0, k).x == Go(g, ss, cs, vMin', st', 0, k).x
  {
    if k == 0 {
      GoNone(g, ss, cs, vMin, st, 0);
      GoNone(g, ss, cs, vMin', st', 0);
    } else {
      ReadingsAlone(g, ss, cs, vMin, st, vMin', st', k - 1);
    }
  }

  lemma SweptNext(g: PortGraph, draws: seq<Sweep>, loads: seq<int>, x: seq<int>, v: int, counts: Counts, k: nat,
                  vMin: int)
    requires AllDrawn(g, draws) && |loads| == g.ports && k < |draws| && x == SweptState(g, draws, loads, k)
    ensures var s := draws[k];
      Go(g, s.seams, s.coins, vMin, Start(x, v, counts), 0, |s.seams|).x == SweptState(g, draws, loads, k + 1)
  {
    hide Go;
    var s := draws[k];
    ReadingsAlone(g, s.seams, s.coins, vMin, Start(x, v, counts), 0, Start(x, 0, NONE), |s.seams|);
  }

  // ----- attempt by attempt

  lemma InsideDraws(n: nat, sweeps: nat, e: nat)
    requires e < sweeps * n
    ensures n > 0 && Major(n, e) < sweeps
  {
    assert n > 0 && sweeps > 0;
    IdJoins(n, e);
    IdRange(n, sweeps - 1, Major(n, e), Minor(n, e));
  }

  /** The readings after the first `t` attempts of the concatenated draws. */
  ghost function Attempted(g: PortGraph, draws: seq<Sweep>, loads: seq<int>, t: nat): (x: seq<int>)
    requires g.Valid() && AllDrawn(g, draws) && |loads| == g.ports && t <= |draws| * |g.a|
    ensures |x| == |loads|
  {
    if t == 0 then loads else
      InsideDraws(|g.a|, |draws|, t - 1);
      var x, s, k := Attempted(g, draws, loads, t - 1), draws[Major(|g.a|, t - 1)], Minor(|g.a|, t - 1);
      var i, j := g.a[s.seams[k]], g.b[s.seams[k]];
      var agreed := NearestAgreement(x[i], x[j], s.coins[k]);
      x[i := agreed.0][j := agreed.1]
  }

  /** The tally after the first `t` attempts. */
  ghost function Tallied(g: PortGraph, draws: seq<Sweep>, loads: seq<int>, t: nat): Counts
    requires g.Valid() && AllDrawn(g, draws) && |loads| == g.ports && t <= |draws| * |g.a|
  {
    if t == 0 then NONE else
      InsideDraws(|g.a|, |draws|, t - 1);
      var x, s, k := Attempted(g, draws, loads, t - 1), draws[Major(|g.a|, t - 1)], Minor(|g.a|, t - 1);
      Tallied(g, draws, loads, t - 1).Plus(Tick(x[g.a[s.seams[k]]], x[g.b[s.seams[k]]], s.coins[k]))
  }

  /** Attempt `a` is the first after which the functional is `vMin`, within `upto`; -1 if there is none. */
  ghost predicate FirstAt(g: PortGraph, draws: seq<Sweep>, loads: seq<int>, vMin: int, upto: nat, a: int)
    requires g.Valid() && AllDrawn(g, draws) && |loads| == g.ports && upto <= |draws| * |g.a|
  {
    && -1 <= a <= upto
    && (a >= 0 ==> V(Attempted(g, draws, loads, a)) == vMin)
    && forall t: nat :: t <= upto && (a >= 0 ==> t < a) ==> V(Attempted(g, draws, loads, t)) != vMin
  }

  lemma AttemptsFit(n: nat, sweeps: nat, k: nat, i: nat)
    requires k < sweeps && i <= n
    ensures Id(n, k, i) <= sweeps * n
  {
    Farther(n, k, sweeps);
  }

  /** Inside a sweep, the attempts are the run on its draws. */
  lemma {:induction false} AttemptedInSweep(g: PortGraph, draws: seq<Sweep>, loads: seq<int>, k: nat, i: nat,
                                            vMin: int, st: Record)
    requires g.Valid() && AllDrawn(g, draws) && |loads| == g.ports && k < |draws| && i <= |g.a| && |st.x| == g.ports
    requires Id(|g.a|, k, 0) <= |draws| * |g.a| && st.x == Attempted(g, draws, loads, Id(|g.a|, k, 0))
    ensures Id(|g.a|, k, i) <= |draws| * |g.a|
    ensures Attempted(g, draws, loads, Id(|g.a|, k, i)) == Go(g, draws[k].seams, draws[k].coins, vMin, st, 0, i).x
    ensures st.counts == Tallied(g, draws, loads, Id(|g.a|, k, 0)) ==>
      Tallied(g, draws, loads, Id(|g.a|, k, i)) == Go(g, draws[k].seams, draws[k].coins, vMin, st, 0, i).counts
  {
    AttemptsFit(|g.a|, |draws|, k, i);
    if i == 0 {
      GoNone(g, draws[k].seams, draws[k].coins, vMin, st, 0);
    } else {
      AttemptedInSweep(g, draws, loads, k, i - 1, vMin, st);
      var t := Id(|g.a|, k, i);
      assert t - 1 == Id(|g.a|, k, i - 1);
      IdSplits(|g.a|, k, i - 1);
      hide Id, Major, Minor, NearestAgreement, Tick;
      InsideDraws(|g.a|, |draws|, t - 1);
    }
  }

  /** The recorded level is the first attempt of the sweep after which the tracked functional is `vMin`. */
  lemma {:induction false} LevelIsFirst(g: PortGraph, ss: seq<nat>, cs: seq<bool>, vMin: int, st: Record, hi: nat)
    requires Schedule(g, ss, cs) && |st.x| == g.ports && hi <= |ss| && st.level == -1
    ensures var l := Go(g, ss, cs, vMin, st, 0, hi).level;
      && -1 <= l < hi
      && (l >= 0 ==> Go(g, ss, cs, vMin, st, 0, l + 1).v == vMin)
      && forall i: nat :: 0 < i <= hi && (l >= 0 ==> i <= l) ==> Go(g, ss, cs, vMin, st, 0, i).v != vMin
  {
    if hi == 0 {
      GoNone(g, ss, cs, vMin, st, 0);
    } else {
      LevelIsFirst(g, ss, cs, vMin, st, hi - 1);
    }
  }

  lemma FirstAtStart(g: PortGraph, draws: seq<Sweep>, loads: seq<int>, vMin: int)
    requires g.Valid() && AllDrawn(g, draws) && |loads| == g.ports
    ensures Attempted(g, draws, loads, 0) == loads
    ensures FirstAt(g, draws, loads, vMin, 0, if V(loads) == vMin then 0 else -1)
  {
  }

  /** After `i` attempts of sweep `k` the run on its draws has reached the attempts so far. */
  ghost predicate Reached(g: PortGraph, draws: seq<Sweep>, loads: seq<int>, k: nat, i: nat, end: Record)
    requires g.Valid() && AllDrawn(g, draws) && |loads| == g.ports
  {
    && Id(|g.a|, k, i) <= |draws| * |g.a|
    && end.x == Attempted(g, draws, loads, Id(|g.a|, k, i))
    && end.counts == Tallied(g, draws, loads, Id(|g.a|, k, i))
    && end.v == V(end.x)
  }

  lemma SweepReaches(g: PortGraph, draws: seq<Sweep>, loads: seq<int>, vMin: int, k: nat, st: Record, i: nat)
    requires g.Valid() && AllDrawn(g, draws) && |loads| == g.ports && k < |draws| && i <= |g.a|
    requires |st.x| == g.ports && Reached(g, draws, loads, k, 0, st)
    ensures Reached(g, draws, loads, k, i, Go(g, draws[k].seams, draws[k].coins, vMin, st, 0, i))
  {
    hide Go, V, Attempted, Tallied, Schedule, Id;
    AttemptedInSweep(g, draws, loads, k, i, vMin, st);
    RunTracksV(g, draws[k].seams, draws[k].coins, vMin, st, 0, i);
  }

  lemma ReachedState(g: PortGraph, draws: seq<Sweep>, loads: seq<int>, k: nat, i: nat, end: Record)
    requires g.Valid() && AllDrawn(g, draws) && |loads| == g.ports && Reached(g, draws, loads, k, i, end)
    ensures Id(|g.a|, k, i) <= |draws| * |g.a| && V(Attempted(g, draws, loads, Id(|g.a|, k, i))) == end.v
  {
  }

  /** A sweep that starts above the minimum continues the search for the first attempt. */
  lemma FirstAtNext(g: PortGraph, draws: seq<Sweep>, loads: seq<int>, vMin: int, k: nat, st: Record)
    requires g.Valid() && AllDrawn(g, draws) && |loads| == g.ports && k < |draws|
    requires |st.x| == g.ports && st.level == -1 && Reached(g, draws, loads, k, 0, st)
    requires Id(|g.a|, k, 0) <= |draws| * |g.a| && FirstAt(g, draws, loads, vMin, Id(|g.a|, k, 0), -1)
    ensures Id(|g.a|, k, |g.a|) <= |draws| * |g.a|
    ensures var end := Go(g, draws[k].seams, draws[k].coins, vMin, st, 0, |g.a|);
      && Reached(g, draws, loads, k, |g.a|, end)
      && FirstAt(g, draws, loads, vMin, Id(|g.a|, k, |g.a|), if end.level >= 0 then Id(|g.a|, k, end.level + 1) else -1)
  {
    hide Go, V, Attempted, Tallied, Schedule, Reached;
    var n, s := |g.a|, draws[k];
    forall i: nat | i <= n
      ensures Id(n, k, i) <= |draws| * n
      ensures V(Attempted(g, draws, loads, Id(n, k, i))) == Go(g, s.seams, s.coins, vMin, st, 0, i).v
    {
      SweepReaches(g, draws, loads, vMin, k, st, i);
      ReachedState(g, draws, loads, k, i, Go(g, s.seams, s.coins, vMin, st, 0, i));
    }
    SweepReaches(g, draws, loads, vMin, k, st, n);
    LevelIsFirst(g, s.seams, s.coins, vMin, st, n);
    var l := Go(g, s.seams, s.coins, vMin, st, 0, n).level;
    var a := if l >= 0 then Id(n, k, l + 1) else -1;
    forall t: nat | t <= Id(n, k, n) && (a >= 0 ==> t < a)
      ensures V(Attempted(g, draws, loads, t)) != vMin
    {
      if t > Id(n, k, 0) {
        var i := t - Id(n, k, 0);
        assert t == Id(n, k, i) && 0 < i <= n;
      }
    }
  }

  /** Readings and tally are those after whole sweeps of attempts, and the search so far is `a`. */
  ghost predicate Searched(g: PortGraph, draws: seq<Sweep>, loads: seq<int>, x: seq<int>, counts: Counts,
                           vMin: int, sweep: nat, a: int)
    requires g.Valid() && AllDrawn(g, draws) && |loads| == g.ports
  {
    && sweep * |g.a| <= |draws| * |g.a|
    && x == Attempted(g, draws, loads, sweep * |g.a|) && counts == Tallied(g, draws, loads, sweep * |g.a|)
    && FirstAt(g, draws, loads, vMin, sweep * |g.a|, a)
  }

  lemma SearchedNext(g: PortGraph, draws: seq<Sweep>, loads: seq<int>, x: seq<int>, v: int, counts: Counts,
                     vMin: int, sweep: nat)
    requires g.Valid() && AllDrawn(g, draws) && |loads| == |x| == g.ports && sweep < |draws| && v == V(x)
    requires Searched(g, draws, loads, x, counts, vMin, sweep, -1)
    ensures var end := Go(g, draws[sweep].seams, draws[sweep].coins, vMin, Start(x, v, counts), 0, |g.a|);
      Searched(g, draws, loads, end.x, end.counts, vMin, sweep + 1,
               if end.level >= 0 then sweep * |g.a| + end.level + 1 else -1)
  {
    hide Go, V, Attempted, Tallied, Schedule, FirstAt;
    assert Id(|g.a|, sweep, 0) == sweep * |g.a| && Id(|g.a|, sweep, |g.a|) == (sweep + 1) * |g.a|;
    FirstAtNext(g, draws, loads, vMin, sweep, Start(x, v, counts));
  }

  lemma SearchedNone(g: PortGraph, draws: seq<Sweep>, loads: seq<int>, vMin: int)
    requires g.Valid() && AllDrawn(g, draws) && |loads| == g.ports
    ensures Searched(g, draws, loads, loads, NONE, vMin, 0, if V(loads) == vMin then 0 else -1)
  {
    NonnegativeProduct(|draws|, |g.a|, |draws| * |g.a|);
    FirstAtStart(g, draws, loads, vMin);
  }

  /** What holds between sweeps, for loads with all readings in any range. */
  ghost predicate Sound(g: PortGraph, labels: seq<nat>, loads: seq<int>, x: seq<int>, v: int, counts: Counts,
                        attempts: int)
  {
    && |x| == |loads| == g.ports
    && v == V(x)
    && SameTotals(labels, loads, x)
    && counts.violations == 0
    && counts.waits + counts.swaps + counts.descents == attempts
    && counts.descents <= counts.transfers
    && forall low, high :: Within(loads, low, high) ==>
         Within(x, low, high) && LedgerBounds(counts.transfers, V(loads) - v, high - low)
  }

  lemma SoundAtStart(g: PortGraph, labels: seq<nat>, loads: seq<int>)
    requires |loads| == g.ports
    ensures Sound(g, labels, loads, loads, V(loads), NONE, 0)
  {
    forall low, high | Within(loads, low, high)
      ensures LedgerBounds(0, 0, high - low)
    {
      NoLedger(high - low);
    }
  }

  /** A sweep keeps everything that holds between sweeps. */
  lemma SweepIsSound(g: PortGraph, labels: seq<nat>, loads: seq<int>, x: seq<int>, v: int, counts: Counts,
                     attempts: int,
                     s: Sweep, vMin: int)
    requires SeamsInside(g, labels) && Drawn(g, s)
    requires Sound(g, labels, loads, x, v, counts, attempts)
    ensures var end := Go(g, s.seams, s.coins, vMin, Start(x, v, counts), 0, |s.seams|);
            Sound(g, labels, loads, end.x, end.v, end.counts, attempts + |g.a|)
  {
    hide Act, Within, Total, V, LedgerBounds, Go;
    var st := Start(x, v, counts);
    var end := Go(g, s.seams, s.coins, vMin, st, 0, |s.seams|);
    RunTracksV(g, s.seams, s.coins, vMin, st, 0, |s.seams|);
    RunKeepsTotals(g, labels, s.seams, s.coins, vMin, st, 0, |s.seams|);
    RangeExists(x);
    var a, b :| Within(x, a, b);
    RunLedger(g, s.seams, s.coins, vMin, st, 0, |s.seams|, a, b);
    forall low, high | Within(loads, low, high)
      ensures Within(end.x, low, high) && LedgerBounds(end.counts.transfers, V(loads) - end.v, high - low)
    {
      RunStaysWithin(g, s.seams, s.coins, vMin, st, 0, |s.seams|, low, high);
      RunLedger(g, s.seams, s.coins, vMin, st, 0, |s.seams|, low, high);
      LedgerAdds(counts.transfers, V(loads) - v, end.counts.transfers - counts.transfers, v - end.v, high - low);
    }
  }

  lemma {:induction false} RangeExists(x: seq<int>)
    ensures exists low, high :: Within(x, low, high)
  {
    if x == [] {
      assert Within(x, 0, 0);
    } else {
      RangeExists(x[1..]);
      var a, b :| Within(x[1..], a, b);
      var low, high := if x[0] < a then x[0] else a, if x[0] > b then x[0] else b;
      forall p | 0 <= p < |x|
        ensures low <= x[p] <= high
      {
        if p > 0 {
          assert x[p] == x[1..][p - 1];
        }
      }
      assert Within(x, low, high);
    }
  }

  /** Once hit, the functional is at most the minimum for the rest of the sweep. */
  lemma {:induction false} HitMeansLow(g: PortGraph, ss: seq<nat>, cs: seq<bool>, vMin: int, st: Record, lo: nat,
                                       hi: nat)
    requires Schedule(g, ss, cs) && |st.x| == g.ports && lo <= hi <= |ss| && st.hit < 0
    ensures Go(g, ss, cs, vMin, st, lo, hi).hit >= 0 ==>
              Go(g, ss, cs, vMin, st, lo, hi).v <= vMin && lo <= Go(g, ss, cs, vMin, st, lo, hi).hit < hi
    decreases hi
  {
    if lo < hi {
      HitMeansLow(g, ss, cs, vMin, st, lo, hi - 1);
      ActFalls(Go(g, ss, cs, vMin, st, lo, hi - 1), g.a[ss[hi - 1]], g.b[ss[hi - 1]], cs[hi - 1], vMin, hi - 1);
    }
  }

  /** A sweep entered above the minimum hits if and only if it ends in the balanced
      class; a hit state stays balanced to the end of the sweep. */
  lemma SweepHitsIffBalanced(g: PortGraph, labels: seq<nat>, count: nat, loads: seq<int>, x: seq<int>, v: int,
                             counts: Counts, s: Sweep)
    requires SeamsInside(g, labels) && Drawn(g, s) && Labelled(labels, count)
    requires |x| == |loads| == g.ports && v == V(x) && SameTotals(labels, loads, x)
    requires v != VMin(labels, count, loads)
    ensures var end := Go(g, s.seams, s.coins, VMin(labels, count, loads), Start(x, v, counts), 0, |s.seams|);
            && end.hit == end.level
            && -1 <= end.hit < |s.seams|
            && (end.hit >= 0 <==> end.v == VMin(labels, count, loads))
  {
    var vMin := VMin(labels, count, loads);
    hide Act, Total, V, Go, VMin;
    var st := Start(x, v, counts);
    var end := Go(g, s.seams, s.coins, vMin, st, 0, |s.seams|);
    HitsEqual(g, s.seams, s.coins, vMin, st, |s.seams|);
    HitMeansLow(g, s.seams, s.coins, vMin, st, 0, |s.seams|);
    HitLow(g, s.seams, s.coins, vMin, st, 0, |s.seams|);
    RunTracksV(g, s.seams, s.coins, vMin, st, 0, |s.seams|);
    RunKeepsTotals(g, labels, s.seams, s.coins, vMin, st, 0, |s.seams|);
    TotalsDecide(labels, count, loads, end.x);
    MinimumIsBalanced(labels, count, end.x);
  }

  lemma {:induction false} HitLow(g: PortGraph, ss: seq<nat>, cs: seq<bool>, vMin: int, st: Record, lo: nat, hi: nat)
    requires Schedule(g, ss, cs) && |st.x| == g.ports && lo <= hi <= |ss| && st.hit == -1
    ensures -1 <= Go(g, ss, cs, vMin, st, lo, hi).hit
    decreases hi
  {
    if lo < hi {
      HitLow(g, ss, cs, vMin, st, lo, hi - 1);
    }
  }

  /** The sum of squares of the loads. */
  method SquareSum(x: seq<int>) returns (v: int)
    ensures v == V(x)
  {
    v := 0;
    for p := 0 to |x|
      invariant v == Sum(p, ReadingSquare(x))
    {
      v := v + x[p] * x[p];
    }
  }

  /** The minimum of the functional from the component totals of the loads. */
  method IntegerMinimumDescent(labels: seq<nat>, count: nat, loads: seq<int>) returns (vMin: int)
    requires |labels| == |loads| && Labelled(labels, count)
    ensures vMin == VMin(labels, count, loads)
  {
    vMin := 0;
    for c := 0 to count
      invariant vMin == Sum(c, (d: nat) => SplitMinimum(Total(labels, loads, d), Size(labels, d)))
    {
      var total, m := 0, 0;
      for p := 0 to |labels|
        invariant total == Sum(p, In(labels, c, Reading(loads)))
        invariant m == Sum(p, In(labels, c, ONE))
      {
        assert Reading(loads)(p) == loads[p];
        if labels[p] == c {
          total, m := total + loads[p], m + 1;
        }
      }
      vMin := vMin + SplitMinimum(total, m);
    }
  }

  datatype IntegerResult =
    | NegativeLoads
    | Finished(terminated: bool, sweeps: nat, attempts: int, v: int, counts: Counts, state: seq<int>)

  /** The terminating attempt lies in the last sweep; -1 while there is none. */
  ghost predicate AttemptIn(attempt: int, sweep: int, seams: int)
  {
    || attempt == -1
    || (attempt == 0 && sweep == 0)
    || (sweep - 1) * seams < attempt <= sweep * seams
  }

  /** The state of a schedule between sweeps. */
  ghost predicate Progress(g: PortGraph, labels: seq<nat>, count: nat, loads: seq<int>, x: seq<int>, v: int,
                           counts: Counts, sweep: int, attempt: int)
  {
    && Sound(g, labels, loads, x, v, counts, sweep * |g.a|)
    && attempt >= -1
    && (attempt >= 0 <==> v == VMin(labels, count, loads))
    && AttemptIn(attempt, sweep, |g.a|)
  }

  lemma SweepProgress(g: PortGraph, labels: seq<nat>, count: nat, loads: seq<int>, x: seq<int>, v: int,
                      counts: Counts, sweep: nat, s: Sweep, vMin: int)
    requires SeamsInside(g, labels) && Drawn(g, s) && Labelled(labels, count)
    requires Progress(g, labels, count, loads, x, v, counts, sweep, -1) && vMin == VMin(labels, count, loads)
    ensures |x| == g.ports
    ensures var end := Go(g, s.seams, s.coins, vMin, Start(x, v, counts), 0, |s.seams|);
            var attempt := if end.hit >= 0 then sweep * |g.a| + end.hit + 1 else -1;
            && end.hit == end.level
            && Progress(g, labels, count, loads, end.x, end.v, end.counts, sweep + 1, attempt)
  {
    hide Act, Go, VMin;
    SweepIsSound(g, labels, loads, x, v, counts, sweep * |g.a|, s, vMin);
    SweepHitsIffBalanced(g, labels, count, loads, x, v, counts, s);
    assert (sweep + 1) * |g.a| == sweep * |g.a| + |g.a|;
    MulMonotone(0, sweep, |g.a|);
    assert (sweep + 1 - 1) * |g.a| == sweep * |g.a|;
  }

  /** One asynchronous schedule to the balanced class, with either engine.  It stops
      exactly at the balanced class of its loads, within the drawn sweeps. */
  method RunIntegerLaw(g: PortGraph, labels: seq<nat>, count: nat, loads: seq<int>, draws: seq<Sweep>,
                       layered: bool, chunk: nat) returns (r: IntegerResult)
    requires SeamsInside(g, labels) && Labelled(labels, count) && |loads| == g.ports && chunk > 0
    requires AllDrawn(g, draws)
    ensures r.NegativeLoads? <==> exists p :: 0 <= p < |loads| && loads[p] < 0
    ensures r.Finished? ==> |r.state| == |labels| && r.sweeps <= |draws|
    ensures r.Finished? ==> Progress(g, labels, count, loads, r.state, r.v, r.counts, r.sweeps, r.attempts)
    ensures r.Finished? ==> (r.terminated <==> r.attempts >= 0)
    ensures r.Finished? ==> r.state == SweptState(g, draws, loads, r.sweeps)
    ensures r.Finished? ==>
      Searched(g, draws, loads, r.state, r.counts, VMin(labels, count, loads), r.sweeps, r.attempts)
    ensures r.Finished? ==> (r.attempts == 0 <==> Balanced(labels, loads))
    ensures r.Finished? && !r.terminated ==> r.sweeps == |draws|
    ensures r.Finished? && V(SweptState(g, draws, loads, |draws|)) == VMin(labels, count, loads) ==> r.terminated
    ensures r.Finished? ==> (r.terminated <==>
              QuotientPayload(labels, count, r.state) == ExpectedPayload(labels, count, loads))
  {
    hide Act, Go, VMin, V, Sound, QuotientPayload, ExpectedPayload, Schedule, SweptState, Searched, Balanced;
    if exists p :: 0 <= p < |loads| && loads[p] < 0 {
      return NegativeLoads;
    }
    var x := new int[g.ports](i requires 0 <= i < g.ports => loads[i]);
    assert x[..] == loads;
    var v := SquareSum(loads);
    var vMin := IntegerMinimumDescent(labels, count, loads);
    var tally := new IntegerTally();
    var sweep, firstAttempt := 0, if v == vMin then 0 else -1;
    SoundAtStart(g, labels, loads);
    SweptNone(g, draws, loads);
    SearchedNone(g, draws, loads, vMin);
    MinimumIsBalanced(labels, count, loads);
    while firstAttempt < 0 && sweep < |draws|
      invariant fresh(x) && fresh(tally) && x.Length == g.ports
      invariant 0 <= sweep <= |draws|
      invariant Progress(g, labels, count, loads, x[..], v, tally.Value(), sweep, firstAttempt)
      invariant x[..] == SweptState(g, draws, loads, sweep)
      invariant Searched(g, draws, loads, x[..], tally.Value(), vMin, sweep, firstAttempt)
      invariant firstAttempt == 0 <==> V(loads) == vMin
    {
      var s := draws[sweep];
      SweptNext(g, draws, loads, x[..], v, tally.Value(), sweep, vMin);
      SoundValue(g, labels, loads, x[..], v, tally.Value(), sweep * |g.a|);
      SearchedNext(g, draws, loads, x[..], v, tally.Value(), vMin, sweep);
      SweepProgress(g, labels, count, loads, x[..], v, tally.Value(), sweep, s, vMin);
      var first;
      if layered {
        v, first := IntegerMovesNumpy(x, g, s.seams, s.coins, v, vMin, tally, chunk);
      } else {
        v, first := IntegerMovesPython(x, g, s.seams, s.coins, v, vMin, tally);
      }
      if first >= 0 {
        firstAttempt := sweep * |g.a| + first + 1;
      }
      sweep := sweep + 1;
    }
    SoundDecides(g, labels, count, loads, x[..], v, tally.Value(), sweep * |g.a|);
    SoundValue(g, labels, loads, x[..], v, tally.Value(), sweep * |g.a|);
    r := Finished(firstAttempt >= 0, sweep, firstAttempt, v, tally.Value(), x[..]);
  }

  lemma SweptNone(g: PortGraph, draws: seq<Sweep>, loads: seq<int>)
    requires AllDrawn(g, draws) && |loads| == g.ports
    ensures SweptState(g, draws, loads, 0) == loads
  {
  }

  lemma SoundValue(g: PortGraph, labels: seq<nat>, loads: seq<int>, x: seq<int>, v: int, counts: Counts, attempts: int)
    requires Sound(g, labels, loads, x, v, counts, attempts)
    ensures v == V(x)
  {
  }

  lemma SoundDecides(g: PortGraph, labels: seq<nat>, count: nat, loads: seq<int>, x: seq<int>, v: int, counts: Counts,
                     attempts: int)
    requires Sound(g, labels, loads, x, v, counts, attempts) && Labelled(labels, count) && |labels| == g.ports
    ensures |x| == |labels|
    ensures v == VMin(labels, count, loads)
            <==> QuotientPayload(labels, count, x) == ExpectedPayload(labels, count, loads)
  {
    QuotientDecided(labels, count, loads, x);
  }

  lemma QuotientDecided(labels: seq<nat>, count: nat, loads: seq<int>, x: seq<int>)
    requires |labels| == |x| && Labelled(labels, count) && SameTotals(labels, loads, x)
    ensures V(x) == VMin(labels, count, loads)
            <==> QuotientPayload(labels, count, x) == ExpectedPayload(labels, count, loads)
  {
    TotalsDecide(labels, count, loads, x);
    PayloadIffMinimum(labels, count, x);
  }

  /** Any two runs that stop share one quotient payload, whatever their draws and engines. */
  lemma TerminalQuotientUnique(labels: seq<nat>, count: nat, loads: seq<int>, x: seq<int>, y: seq<int>)
    requires |labels| == |x| == |y| && Labelled(labels, count)
    requires SameTotals(labels, loads, x) && SameTotals(labels, loads, y)
    requires V(x) == VMin(labels, count, loads) == V(y)
    ensures QuotientPayload(labels, count, x) == QuotientPayload(labels, count, y)
  {
    QuotientDecided(labels, count, loads, x);
    QuotientDecided(labels, count, loads, y);
  }
}
