/** Reachability under the integer law: the balanced class is reachable from all
    loads, and it is one orbit of unit swaps. */
module IntegerReach {
  import opened Sums
  import opened Federation
  import opened IntegerLaw
  import opened IntegerLayered
  import opened IntegerDescent
  import opened IntegerRun

  /** A finite schedule: seams with their coins. */
  type Plan = seq<(nat, bool)>

  ghost predicate Legal(g: PortGraph, plan: Plan)
  {
    g.Valid() && forall k :: 0 <= k < |plan| ==> plan[k].0 < |g.a|
  }

  ghost function Play(g: PortGraph, x: seq<int>, plan: Plan): (r: seq<int>)
    requires Legal(g, plan) && |x| == g.ports
    ensures |r| == |x|
    decreases |plan|
  {
    if plan == [] then x else Play(g, After(g, x, plan[0]), plan[1..])
  }

  function After(g: PortGraph, x: seq<int>, step: (nat, bool)): (r: seq<int>)
    requires g.Valid() && |x| == g.ports && step.0 < |g.a|
    ensures |r| == |x|
  {
    var (i, j) := (g.a[step.0], g.b[step.0]);
    var (u, v) := NearestAgreement(x[i], x[j], step.1);
    x[i := u][j := v]
  }

  ghost function KindOfStep(g: PortGraph, x: seq<int>, step: (nat, bool)): Kind
    requires g.Valid() && |x| == g.ports && step.0 < |g.a|
  {
    KindOf(x[g.a[step.0]], x[g.b[step.0]], step.1)
  }

  /** Every attempt of the plan is a unit swap. */
  ghost predicate OnlySwaps(g: PortGraph, x: seq<int>, plan: Plan)
    requires Legal(g, plan) && |x| == g.ports
    decreases |plan|
  {
    plan == [] || (KindOfStep(g, x, plan[0]).Swap? && OnlySwaps(g, After(g, x, plan[0]), plan[1..]))
  }

  lemma {:induction false} PlayConcat(g: PortGraph, x: seq<int>, p: Plan, q: Plan)
    requires Legal(g, p) && Legal(g, q) && |x| == g.ports
    ensures Legal(g, p + q)
    ensures Play(g, x, p + q) == Play(g, Play(g, x, p), q)
    ensures OnlySwaps(g, x, p) && OnlySwaps(g, Play(g, x, p), q) ==> OnlySwaps(g, x, p + q)
    decreases |p|
  {
    hide After, KindOfStep;
    if p == [] {
      assert p + q == q;
    } else {
      PlayConcat(g, After(g, x, p[0]), p[1..], q);
      assert (p + q)[1..] == p[1..] + q;
    }
  }

  function Seams(plan: Plan): (r: seq<nat>)
    ensures |r| == |plan|
  {
    if plan == [] then [] else Seams(plan[..|plan| - 1]) + [plan[|plan| - 1].0]
  }

  function Coins(plan: Plan): (r: seq<bool>)
    ensures |r| == |plan|
  {
    if plan == [] then [] else Coins(plan[..|plan| - 1]) + [plan[|plan| - 1].1]
  }

  lemma {:induction false} PlanAt(plan: Plan, k: nat)
    requires k < |plan|
    ensures Seams(plan)[k] == plan[k].0 && Coins(plan)[k] == plan[k].1
  {
    if k < |plan| - 1 {
      PlanAt(plan[..|plan| - 1], k);
    }
  }

  /** Playing a plan is what the engines compute on its seams and coins. */
  lemma {:induction false} PlayIsGo(g: PortGraph, plan: Plan, vMin: int, st: Record, k: nat)
    requires Legal(g, plan) && |st.x| == g.ports && k <= |plan|
    ensures Schedule(g, Seams(plan), Coins(plan))
    ensures Go(g, Seams(plan), Coins(plan), vMin, st, 0, k).x == Play(g, st.x, plan[..k])
  {
    forall i | 0 <= i < |plan|
      ensures Seams(plan)[i] < |g.a|
    {
      PlanAt(plan, i);
    }
    if k == 0 {
      GoNone(g, Seams(plan), Coins(plan), vMin, st, 0);
    } else {
      PlayIsGo(g, plan, vMin, st, k - 1);
      PlanAt(plan, k - 1);
      PlaySnoc(g, st.x, plan[..k - 1], plan[k - 1]);
      assert plan[..k] == plan[..k - 1] + [plan[k - 1]];
    }
  }

  lemma PlaySnoc(g: PortGraph, x: seq<int>, plan: Plan, step: (nat, bool))
    requires Legal(g, plan) && |x| == g.ports && step.0 < |g.a|
    ensures Legal(g, plan + [step])
    ensures Play(g, x, plan + [step]) == After(g, Play(g, x, plan), step)
  {
    PlayConcat(g, x, plan, [step]);
    assert Play(g, Play(g, x, plan), [step]) == After(g, Play(g, x, plan), step);
  }

  // ----- what plans keep

  lemma AfterKeeps(g: PortGraph, labels: seq<nat>, x: seq<int>, step: (nat, bool))
    requires SeamsInside(g, labels) && |x| == g.ports && step.0 < |g.a|
    ensures SameTotals(labels, x, After(g, x, step))
    ensures V(After(g, x, step)) <= V(x)
    ensures V(After(g, x, step)) < V(x) <==> KindOfStep(g, x, step).Descent?
  {
    hide V, Total;
    var st := Start(x, V(x), NONE);
    ActTracksV(st, g.a[step.0], g.b[step.0], step.1, 0, 0);
    ActKeepsTotals(labels, st, g.a[step.0], g.b[step.0], step.1, 0, 0);
    ActFalls(st, g.a[step.0], g.b[step.0], step.1, 0, 0);
    assert Act(st, g.a[step.0], g.b[step.0], step.1, 0, 0).x == After(g, x, step);
  }

  lemma {:induction false} PlayKeeps(g: PortGraph, labels: seq<nat>, x: seq<int>, plan: Plan)
    requires SeamsInside(g, labels) && Legal(g, plan) && |x| == g.ports
    ensures SameTotals(labels, x, Play(g, x, plan))
    ensures V(Play(g, x, plan)) <= V(x)
    ensures OnlySwaps(g, x, plan) ==> V(Play(g, x, plan)) == V(x)
    decreases |plan|
  {
    hide V, Total, After, KindOfStep;
    if plan != [] {
      AfterKeeps(g, labels, x, plan[0]);
      PlayKeeps(g, labels, After(g, x, plan[0]), plan[1..]);
    }
  }

  /** Two neighbours whose readings differ by one can be swapped. */
  lemma SwapNeighbours(g: PortGraph, x: seq<int>, u: nat, w: nat) returns (step: (nat, bool))
    requires g.Valid() && |x| == g.ports && u < |x| && w < |x|
    requires g.Adjacent(u, w) && (x[u] - x[w] == 1 || x[w] - x[u] == 1)
    ensures step.0 < |g.a| && KindOfStep(g, x, step).Swap?
    ensures After(g, x, step) == x[u := x[w]][w := x[u]]
  {
    var s :| 0 <= s < |g.a| && g.Joins(s, u, w);
    step := (s, x[g.b[s]] > x[g.a[s]]);
  }

  lemma SinglePlan(g: PortGraph, x: seq<int>, step: (nat, bool))
    requires g.Valid() && |x| == g.ports && step.0 < |g.a|
    ensures Legal(g, [step]) && Play(g, x, [step]) == After(g, x, step)
    ensures KindOfStep(g, x, step).Swap? ==> OnlySwaps(g, x, [step])
  {
    assert [step][1..] == [];
    assert Play(g, After(g, x, step), []) == After(g, x, step);
  }

  // ----- lowering the functional

  /** From two readings at least two apart on a path: swaps, then a descent. */
  lemma {:induction false} LowerOnPath(g: PortGraph, x: seq<int>, path: seq<nat>)
    returns (swaps: Plan, last: (nat, bool))
    requires Path(g, path) && |x| == g.ports
    requires x[path[0]] >= x[path[|path| - 1]] + 2
    ensures Legal(g, swaps) && last.0 < |g.a|
    ensures OnlySwaps(g, x, swaps) && KindOfStep(g, Play(g, x, swaps), last).Descent?
    decreases |path|
  {
    hide After, Play, OnlySwaps;
    PathTail(g, path, 1);
    var u, w, rest := path[0], path[1], path[1..];
    if k :| 1 <= k < |path| && path[k] == u {
      PathTail(g, path, k);
      swaps, last := LowerOnPath(g, x, path[k..]);
    } else if x[w] >= x[u] {
      swaps, last := LowerOnPath(g, x, rest);
    } else if x[w] == x[u] - 1 {
      var step := SwapNeighbours(g, x, u, w);
      var y := After(g, x, step);
      var more;
      more, last := LowerOnPath(g, y, rest);
      SinglePlan(g, x, step);
      PlayConcat(g, x, [step], more);
      swaps := [step] + more;
    } else {
      var s :| 0 <= s < |g.a| && g.Joins(s, u, w);
      swaps, last := [], (s, true);
      EmptyPlan(g, x);
    }
  }

  lemma EmptyPlan(g: PortGraph, x: seq<int>)
    requires g.Valid() && |x| == g.ports
    ensures Legal(g, []) && Play(g, x, []) == x && OnlySwaps(g, x, [])
  {
  }

  /** Readings that are all above the quotient have too large a total. */
  lemma SomeLow(labels: seq<nat>, x: seq<int>, c: nat, q: int) returns (i: nat)
    requires |labels| == |x| && Total(labels, x, c) < (q + 1) * Size(labels, c)
    ensures i < |x| && labels[i] == c && x[i] <= q
  {
    hide Over;
    var above := (i: nat) => Reading(x)(i) + (-(q + 1)) * ONE(i);
    OverLinear(labels, c, Reading(x), ONE, above, -(q + 1));
    if forall i: nat :: i < |x| && labels[i] == c ==> x[i] >= q + 1 {
      OverNonnegative(labels, c, above);
      Opposite(q + 1, Size(labels, c));
      assert false;
    }
    i :| i < |x| && labels[i] == c && x[i] < q + 1;
  }

  lemma Opposite(a: int, b: int)
    ensures -a * b == -(a * b)
  {
  }

  /** A reading below the quotient is made up for by one above it. */
  lemma SomeHigh(labels: seq<nat>, x: seq<int>, c: nat, q: int, p: nat) returns (i: nat)
    requires |labels| == |x| && Total(labels, x, c) >= q * Size(labels, c) && p < |x| && labels[p] == c && x[p] < q
    ensures i < |x| && labels[i] == c && x[i] > q
  {
    hide Over;
    var below := (i: nat) => q * ONE(i) + (-1) * Reading(x)(i);
    var flat := (i: nat) => q * ONE(i);
    var none := (i: nat) => 0;
    OverLinear(labels, c, none, ONE, flat, q);
    OverNonnegative(labels, c, none);
    OverLinear(labels, c, flat, Reading(x), below, -1);
    assert below(p) > 0;
    if forall i: nat :: i < |x| && labels[i] == c ==> x[i] <= q {
      OverNonnegative(labels, c, below);
      assert false;
    }
    i :| i < |x| && labels[i] == c && x[i] > q;
  }

  /** A total lies between its quotient and the next one, times the size. */
  lemma QuotientBounds(total: int, m: int, q: int)
    requires m > 0 && q == Quotient(total, m)
    ensures q * m <= total < (q + 1) * m
  {
    assert total == m * q + total % m;
    assert (q + 1) * m == m * q + m;
  }

  /** Outside the balanced class some component has readings at least two apart. */
  lemma UnbalancedPair(labels: seq<nat>, x: seq<int>) returns (high: nat, low: nat)
    requires |labels| == |x| && !Balanced(labels, x)
    ensures high < |x| && low < |x| && labels[high] == labels[low] && x[high] >= x[low] + 2
  {
    hide Over, Quotient, Total, Size;
    var p :| 0 <= p < |x| && x[p] != QuotientAt(labels, x, p) && x[p] != QuotientAt(labels, x, p) + 1;
    var c, q := labels[p], QuotientAt(labels, x, p);
    if Size(labels, c) <= 0 {
      EmptyComponent(labels, c, Reading(x));
    }
    QuotientBounds(Total(labels, x, c), Size(labels, c), q);
    if x[p] > q + 1 {
      high := p;
      low := SomeLow(labels, x, c, q);
    } else {
      high := SomeHigh(labels, x, c, q, p);
      low := p;
    }
  }

  /** From every state above the minimum, some unit swaps followed by one descent lower the functional. */
  lemma CanLower(g: PortGraph, labels: seq<nat>, count: nat, x: seq<int>) returns (swaps: Plan, last: (nat, bool))
    requires Connected(g, labels) && Labelled(labels, count) && |x| == g.ports
    requires V(x) > VMin(labels, count, x)
    ensures Legal(g, swaps) && last.0 < |g.a| && Legal(g, swaps + [last])
    ensures OnlySwaps(g, x, swaps) && KindOfStep(g, Play(g, x, swaps), last).Descent?
    ensures V(Play(g, x, swaps + [last])) < V(x)
  {
    hide V, VMin, After, KindOfStep, OnlySwaps, Play;
    MinimumIsBalanced(labels, count, x);
    var high, low := UnbalancedPair(labels, x);
    var path :| PathBetween(g, path, high, low);
    swaps, last := LowerOnPath(g, x, path);
    PlayKeeps(g, labels, x, swaps);
    PlaySnoc(g, x, swaps, last);
    AfterKeeps(g, labels, Play(g, x, swaps), last);
  }

  /** The balanced class is reachable from all loads, by a finite schedule. */
  lemma {:induction false} BalancedReachable(g: PortGraph, labels: seq<nat>, count: nat, x: seq<int>)
    returns (plan: Plan)
    requires Connected(g, labels) && Labelled(labels, count) && |x| == g.ports
    ensures Legal(g, plan)
    ensures V(Play(g, x, plan)) == VMin(labels, count, x) && Balanced(labels, Play(g, x, plan))
    decreases V(x) - VMin(labels, count, x)
  {
    hide V, VMin, After, Play, Balanced, OnlySwaps, KindOfStep;
    MinimumIsBalanced(labels, count, x);
    if V(x) == VMin(labels, count, x) {
      plan := [];
      EmptyPlan(g, x);
    } else {
      var swaps, last := CanLower(g, labels, count, x);
      var first := swaps + [last];
      var y := Play(g, x, first);
      PlayKeeps(g, labels, x, first);
      TotalsDecide(labels, count, x, y);
      MinimumIsBalanced(labels, count, y);
      var more := BalancedReachable(g, labels, count, y);
      PlayConcat(g, x, first, more);
      plan := first + more;
    }
  }

  // ----- one orbit of unit swaps

  /** A unit moves along a path whose ends read `q + 1` and `q`, by swaps alone. */
  lemma {:induction false} MoveUnit(g: PortGraph, x: seq<int>, path: seq<nat>, q: int) returns (plan: Plan)
    requires Path(g, path) && |x| == g.ports
    requires forall k :: 0 <= k < |path| ==> x[path[k]] == q || x[path[k]] == q + 1
    requires x[path[0]] == q + 1 && x[path[|path| - 1]] == q
    ensures Legal(g, plan) && OnlySwaps(g, x, plan)
    ensures Play(g, x, plan) == x[path[0] := q][path[|path| - 1] := q + 1]
    decreases |path|
  {
    hide After, Play, OnlySwaps;
    PathTail(g, path, 1);
    var u, w, rest, end := path[0], path[1], path[1..], path[|path| - 1];
    if x[w] == q {
      var step := SwapNeighbours(g, x, u, w);
      SinglePlan(g, x, step);
      var y := After(g, x, step);
      if |rest| == 1 {
        plan := [step];
      } else if y[end] == q {
        forall k | 0 <= k < |rest|
          ensures y[rest[k]] == q || y[rest[k]] == q + 1
        {
          assert x[path[k + 1]] == q || x[path[k + 1]] == q + 1;
        }
        var more := MoveUnit(g, y, rest, q);
        PlayConcat(g, x, [step], more);
        plan := [step] + more;
        assert y[w := q][end := q + 1] == x[u := q][end := q + 1];
      } else {
        assert end == w;
        plan := [step];
      }
    } else {
      forall k | 0 <= k < |rest|
        ensures x[rest[k]] == q || x[rest[k]] == q + 1
      {
        assert x[path[k + 1]] == q || x[path[k + 1]] == q + 1;
      }
      var first := MoveUnit(g, x, rest, q);
      var y := Play(g, x, first);
      if u == w {
        plan := first;
      } else {
        var step := SwapNeighbours(g, y, u, w);
        SinglePlan(g, y, step);
        PlayConcat(g, x, first, [step]);
        plan := first + [step];
        assert y[u := y[w]][w := y[u]] == x[u := q][end := q + 1];
      }
    }
  }

  ghost function Mismatches(x: seq<int>, y: seq<int>): int
    requires |x| == |y|
  {
    Sum(|x|, Differs(x, y))
  }

  function Differs(x: seq<int>, y: seq<int>): nat -> int
  {
    (p: nat) => if p < |x| && p < |y| && x[p] == y[p] then 0 else 1
  }

  /** Two balanced states with equal totals that differ have a surplus port and a
      deficit port in one component. */
  lemma SurplusAndDeficit(labels: seq<nat>, x: seq<int>, y: seq<int>) returns (u: nat, w: nat)
    requires |labels| == |x| == |y| && x != y
    requires SameTotals(labels, x, y)
    ensures u < |x| && w < |x| && labels[u] == labels[w] && x[u] > y[u] && x[w] < y[w]
  {
    var p :| 0 <= p < |x| && x[p] != y[p];
    var c := labels[p];
    var d := (i: nat) => Reading(x)(i) + (-1) * Reading(y)(i);
    var e := (i: nat) => Reading(y)(i) + (-1) * Reading(x)(i);
    OverLinear(labels, c, Reading(x), Reading(y), d, -1);
    OverLinear(labels, c, Reading(y), Reading(x), e, -1);
    assert Total(labels, x, c) == Total(labels, y, c);
    assert Over(labels, c, d) == 0 == Over(labels, c, e) && d(p) != 0 && e(p) != 0;
    if forall i: nat :: i < |x| && labels[i] == c ==> x[i] <= y[i] {
      OverNonnegative(labels, c, e);
      assert false;
    }
    if forall i: nat :: i < |x| && labels[i] == c ==> x[i] >= y[i] {
      OverNonnegative(labels, c, d);
      assert false;
    }
    u :| u < |x| && labels[u] == c && x[u] > y[u];
    w :| w < |x| && labels[w] == c && x[w] < y[w];
  }

  lemma MismatchesFall(x: seq<int>, y: seq<int>, u: nat, w: nat)
    requires |x| == |y| && u < |x| && w < |x| && u != w && x[u] != y[u] && x[w] != y[w]
    ensures 0 <= Mismatches(x[u := y[u]][w := y[w]], y) < Mismatches(x, y)
  {
    var x1 := x[u := y[u]];
    var x2 := x1[w := y[w]];
    SumPoint(|x|, Differs(x, y), Differs(x1, y), u);
    SumPoint(|x|, Differs(x1, y), Differs(x2, y), w);
    SumNonnegative(|x|, Differs(x2, y));
  }

  /** Any balanced state reaches any other with its totals by unit swaps alone. */
  lemma {:induction false} SwapsConnect(g: PortGraph, labels: seq<nat>, x: seq<int>, y: seq<int>) returns (plan: Plan)
    requires Connected(g, labels) && |x| == |y| == g.ports
    requires Balanced(labels, x) && Balanced(labels, y) && SameTotals(labels, x, y)
    ensures Legal(g, plan) && OnlySwaps(g, x, plan) && Play(g, x, plan) == y
    decreases Mismatches(x, y)
  {
    hide After, Play, OnlySwaps, Total, Mismatches;
    if x == y {
      plan := [];
      EmptyPlan(g, x);
    } else {
      var u, w := SurplusAndDeficit(labels, x, y);
      var q := QuotientAt(labels, x, u);
      var path :| PathBetween(g, path, u, w);
      forall k | 0 <= k < |path|
        ensures x[path[k]] == q || x[path[k]] == q + 1
      {
        PathInComponent(g, labels, path, k);
      }
      var first := MoveUnit(g, x, path, q);
      var z := Play(g, x, first);
      PairKeepsTotals(labels, x, u, w, q, q + 1);
      MismatchesFall(x, y, u, w);
      var more := SwapsConnect(g, labels, z, y);
      PlayConcat(g, x, first, more);
      plan := first + more;
    }
  }

  /** The balanced class of a connected graph is one orbit of unit swaps: from a
      balanced state, the states reached by swaps are exactly the balanced states
      with the same totals. */
  lemma BalancedOrbit(g: PortGraph, labels: seq<nat>, count: nat, x: seq<int>, y: seq<int>)
    requires Connected(g, labels) && Labelled(labels, count) && |x| == |y| == g.ports && Balanced(labels, x)
    ensures (exists plan :: Legal(g, plan) && OnlySwaps(g, x, plan) && Play(g, x, plan) == y)
            <==> Balanced(labels, y) && SameTotals(labels, x, y)
  {
    hide After, Play, OnlySwaps, Balanced, VMin, V, Total;
    if plan :| Legal(g, plan) && OnlySwaps(g, x, plan) && Play(g, x, plan) == y {
      PlayKeeps(g, labels, x, plan);
      TotalsDecide(labels, count, x, y);
      MinimumIsBalanced(labels, count, x);
      MinimumIsBalanced(labels, count, y);
    }
    if Balanced(labels, y) && SameTotals(labels, x, y) {
      var plan := SwapsConnect(g, labels, x, y);
    }
  }

  // ----- whole schedules

  lemma PlayNone(g: PortGraph, x: seq<int>)
    requires g.Valid() && |x| == g.ports
    ensures Play(g, x, []) == x
  {
  }

  lemma PlanIsSchedule(g: PortGraph, plan: Plan)
    requires Legal(g, plan)
    ensures Schedule(g, Seams(plan), Coins(plan))
  {
    forall i | 0 <= i < |plan|
      ensures Seams(plan)[i] < |g.a|
    {
      PlanAt(plan, i);
    }
  }

  ghost function SweepOf(plan: Plan): Sweep
  {
    Sweep(Seams(plan), Coins(plan))
  }

  /** A plan of one sweep, as a sweep. */
  lemma SweepPlays(g: PortGraph, plan: Plan, x: seq<int>)
    requires Legal(g, plan) && |plan| == |g.a| && |x| == g.ports
    ensures AllDrawn(g, [SweepOf(plan)])
    ensures SweptState(g, [SweepOf(plan)], x, 1) == Play(g, x, plan)
  {
    hide Go, Play;
    PlanIsSchedule(g, plan);
    SweptNone(g, [SweepOf(plan)], x);
    PlayIsGo(g, plan, 0, Start(x, 0, NONE), |plan|);
    assert plan[..|plan|] == plan;
  }

  /** Prepending a sweep runs it first. */
  lemma {:induction false} SweptCons(g: PortGraph, s: Sweep, draws: seq<Sweep>, x: seq<int>, k: nat)
    requires AllDrawn(g, [s]) && AllDrawn(g, draws) && |x| == g.ports && k <= |draws|
    ensures AllDrawn(g, [s] + draws)
    ensures SweptState(g, [s] + draws, x, k + 1) == SweptState(g, draws, SweptState(g, [s], x, 1), k)
  {
    hide Go;
    if k == 0 {
      SweptNone(g, [s] + draws, x);
      SweptNone(g, [s], x);
      SweptNone(g, draws, SweptState(g, [s], x, 1));
    } else {
      SweptCons(g, s, draws, x, k - 1);
      assert ([s] + draws)[k] == draws[k - 1];
    }
  }

  /** Full sweeps that play a plan, the last one filled up with any seam. */
  lemma {:induction false} SweepsFor(g: PortGraph, x: seq<int>, plan: Plan) returns (draws: seq<Sweep>, filling: Plan)
    requires Legal(g, plan) && |x| == g.ports && |g.a| > 0
    ensures AllDrawn(g, draws) && Legal(g, plan + filling)
    ensures SweptState(g, draws, x, |draws|) == Play(g, x, plan + filling)
    decreases |plan|
  {
    hide Play, SweptState, SweepOf;
    if |plan| <= |g.a| {
      filling := seq(|g.a| - |plan|, _ => (0, true));
      SweepPlays(g, plan + filling, x);
      draws := [SweepOf(plan + filling)];
    } else {
      var head, tail := plan[..|g.a|], plan[|g.a|..];
      var later;
      later, filling := SweepsFor(g, Play(g, x, head), tail);
      SweepPlays(g, head, x);
      SweptCons(g, SweepOf(head), later, x, |later|);
      PlayConcat(g, x, head, tail + filling);
      assert head + (tail + filling) == plan + filling;
      draws := [SweepOf(head)] + later;
    }
  }

  /** A balanced state stays balanced. */
  lemma StaysMinimal(g: PortGraph, labels: seq<nat>, count: nat, x: seq<int>, p: Plan, q: Plan)
    requires SeamsInside(g, labels) && Labelled(labels, count) && |x| == g.ports == |labels|
    requires Legal(g, p) && Legal(g, q) && V(Play(g, x, p)) == VMin(labels, count, x)
    ensures Legal(g, p + q) && V(Play(g, x, p + q)) == VMin(labels, count, x)
  {
    hide V, VMin, Play, Balanced;
    PlayConcat(g, x, p, q);
    PlayKeeps(g, labels, x, p + q);
    PlayKeeps(g, labels, Play(g, x, p), q);
    TotalsDecide(labels, count, x, Play(g, x, p + q));
    MinimumIsBalanced(labels, count, Play(g, x, p + q));
  }

  lemma NoSeams(g: PortGraph, plan: Plan)
    requires Legal(g, plan) && |g.a| == 0
    ensures |plan| == 0
  {
    assert |plan| > 0 ==> plan[0].0 < |g.a|;
  }

  /** From all loads some finite list of full sweeps ends in the balanced class, so that either
      engine's schedule on them stops there. */
  lemma BalancedSweeps(g: PortGraph, labels: seq<nat>, count: nat, loads: seq<int>) returns (draws: seq<Sweep>)
    requires Connected(g, labels) && Labelled(labels, count) && |loads| == g.ports
    ensures AllDrawn(g, draws) && V(SweptState(g, draws, loads, |draws|)) == VMin(labels, count, loads)
  {
    hide V, VMin, Play, Drawn, SweptState, Balanced;
    ConnectedLabels(g, labels);
    var plan := BalancedReachable(g, labels, count, loads);
    if |g.a| == 0 {
      NoSeams(g, plan);
      PlayNone(g, loads);
      draws := [];
      SweptNone(g, draws, loads);
    } else {
      var filling;
      draws, filling := SweepsFor(g, loads, plan);
      LegalTail(g, plan, filling);
      StaysMinimal(g, labels, count, loads, plan, filling);
    }
  }

  lemma LegalTail(g: PortGraph, p: Plan, q: Plan)
    requires Legal(g, p + q)
    ensures Legal(g, q)
  {
    forall k | 0 <= k < |q|
      ensures q[k].0 < |g.a|
    {
      assert (p + q)[|p| + k] == q[k];
    }
  }

  lemma ConnectedLabels(g: PortGraph, labels: seq<nat>)
    requires Connected(g, labels)
    ensures SeamsInside(g, labels) && |labels| == g.ports
  {
  }
}
