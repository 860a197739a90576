/** The mismatch potential and the descent functional of the mean law: what the
    engines test and tally is what really changes. */
module MeanPotential {
  import opened Sums
  import opened Federation
  import opened MeanLaw

  function Sq(v: real): real { v * v }

  function Mismatch(g: PortGraph, x: seq<real>): nat -> real
    requires g.Valid() && |x| == g.ports
  {
    (s: nat) => if s < |g.a| && s < |g.b| && g.a[s] < |x| && g.b[s] < |x| then Sq(x[g.a[s]] - x[g.b[s]]) else 0.0
  }

  /** `Phi(x)`: the sum of the squared seam mismatches. */
  ghost function Phi(g: PortGraph, x: seq<real>): real
    requires g.Valid() && |x| == g.ports
  {
    RSum(|g.a|, Mismatch(g, x))
  }

  /** No seam joins a port to itself, and no two seams join the same ports. */
  ghost predicate Simple(g: PortGraph)
  {
    && g.Valid()
    && (forall s :: 0 <= s < |g.a| ==> g.a[s] != g.b[s])
    && forall s, t :: 0 <= s < t < |g.a| ==> !g.Joins(t, g.a[s], g.b[s])
  }

  // ----- seams at one port

  /** The reading at the other end of seam `s`, seen from port `p`; zero when `s` does not touch `p`. */
  function OtherEnd(g: PortGraph, x: seq<real>, p: nat): nat -> real
    requires g.Valid() && |x| == g.ports
  {
    (s: nat) =>
      if s < |g.a| && s < |g.b| && g.a[s] < |x| && g.b[s] < |x| then
        if g.a[s] == p then x[g.b[s]] else if g.b[s] == p then x[g.a[s]] else 0.0
      else 0.0
  }

  ghost predicate AdjacentWithin(g: PortGraph, p: nat, q: nat, k: nat)
    requires g.Valid() && k <= |g.a|
  {
    exists s :: 0 <= s < k && g.Joins(s, p, q)
  }

  ghost function AdjacentReading(g: PortGraph, x: seq<real>, p: nat, k: nat): nat -> real
    requires g.Valid() && |x| == g.ports && k <= |g.a|
  {
    (q: nat) => if q < |x| && g.Valid() && k <= |g.a| && AdjacentWithin(g, p, q, k) then x[q] else 0.0
  }

  /** A new seam elsewhere leaves the sum over the neighbours. */
  lemma SeamElsewhere(g: PortGraph, x: seq<real>, p: nat, k: nat)
    requires Simple(g) && |x| == g.ports && 0 < k <= |g.a| && g.a[k - 1] != p && g.b[k - 1] != p
    ensures RSum(g.ports, AdjacentReading(g, x, p, k)) == RSum(g.ports, AdjacentReading(g, x, p, k - 1))
  {
    hide RSum;
    forall q: nat | q < g.ports
      ensures AdjacentReading(g, x, p, k - 1)(q) == AdjacentReading(g, x, p, k)(q)
    {
      assert AdjacentWithin(g, p, q, k) <==> AdjacentWithin(g, p, q, k - 1);
    }
    RSumExt(g.ports, AdjacentReading(g, x, p, k - 1), AdjacentReading(g, x, p, k));
  }

  /** On a simple graph, the sum over the neighbours is the sum over the seams. */
  lemma {:induction false} NeighboursAreOtherEnds(g: PortGraph, x: seq<real>, p: nat, k: nat)
    requires Simple(g) && |x| == g.ports && k <= |g.a|
    ensures RSum(g.ports, AdjacentReading(g, x, p, k)) == RSum(k, OtherEnd(g, x, p))
  {
    if k == 0 {
      RSumZero(g.ports, AdjacentReading(g, x, p, 0));
    } else {
      NeighboursAreOtherEnds(g, x, p, k - 1);
      var s := k - 1;
      if g.a[s] == p || g.b[s] == p {
        var other := if g.a[s] == p then g.b[s] else g.a[s];
        OneMoreSeam(g, p, k);
        RSumPoint(g.ports, AdjacentReading(g, x, p, s), AdjacentReading(g, x, p, k), other);
      } else {
        SeamElsewhere(g, x, p, k);
      }
    }
  }

  /** A new seam at `p` makes exactly its other end adjacent. */
  lemma OneMoreSeam(g: PortGraph, p: nat, k: nat)
    requires Simple(g) && 0 < k <= |g.a| && (g.a[k - 1] == p || g.b[k - 1] == p)
    ensures var other := if g.a[k - 1] == p then g.b[k - 1] else g.a[k - 1];
            && !AdjacentWithin(g, p, other, k - 1) && AdjacentWithin(g, p, other, k)
            && forall q: nat :: q != other ==> (AdjacentWithin(g, p, q, k) <==> AdjacentWithin(g, p, q, k - 1))
  {
    var other := if g.a[k - 1] == p then g.b[k - 1] else g.a[k - 1];
    assert g.Joins(k - 1, p, other);
    forall s | 0 <= s < k - 1
      ensures !g.Joins(s, p, other)
    {
      assert !g.Joins(k - 1, g.a[s], g.b[s]);
    }
    forall q: nat | q != other
      ensures AdjacentWithin(g, p, q, k) <==> AdjacentWithin(g, p, q, k - 1)
    {
      assert !g.Joins(k - 1, p, q);
    }
  }

  lemma {:induction false} NeighbourSumIsRSum(g: PortGraph, x: seq<real>, p: nat, bound: nat)
    requires g.Valid() && |x| == g.ports && bound <= g.ports
    ensures NeighbourSum(x, g.NeighboursBelow(p, bound)) == RSum(bound, AdjacentReading(g, x, p, |g.a|))
  {
    hide AdjacentReading, NeighbourSum, RSum, PortGraph.NeighboursBelow, PortGraph.Adjacent;
    var f := AdjacentReading(g, x, p, |g.a|);
    if bound == 0 {
      EmptySums(g, x, p, f);
    } else {
      NeighbourSumIsRSum(g, x, p, bound - 1);
      NeighbourSumStep(g, x, p, bound);
      AdjacentReadingIs(g, x, p, bound - 1);
      RSumStep(bound, f);
    }
  }

  lemma EmptySums(g: PortGraph, x: seq<real>, p: nat, f: nat -> real)
    requires g.Valid() && |x| == g.ports
    ensures NeighbourSum(x, g.NeighboursBelow(p, 0)) == 0.0 == RSum(0, f)
  {
  }

  lemma RSumStep(n: nat, f: nat -> real)
    requires n > 0
    ensures RSum(n, f) == RSum(n - 1, f) + f(n - 1)
  {
  }

  lemma NeighbourSumStep(g: PortGraph, x: seq<real>, p: nat, bound: nat)
    requires g.Valid() && |x| == g.ports && 0 < bound <= g.ports
    ensures NeighbourSum(x, g.NeighboursBelow(p, bound)) ==
            NeighbourSum(x, g.NeighboursBelow(p, bound - 1)) + if g.Adjacent(p, bound - 1) then x[bound - 1] else 0.0
  {
    var list := g.NeighboursBelow(p, bound - 1);
    if g.Adjacent(p, bound - 1) {
      assert (list + [bound - 1])[..|list|] == list;
    } else {
      assert list + [] == list;
    }
  }

  lemma AdjacentReadingIs(g: PortGraph, x: seq<real>, p: nat, q: nat)
    requires g.Valid() && |x| == g.ports && q < g.ports
    ensures AdjacentReading(g, x, p, |g.a|)(q) == if g.Adjacent(p, q) then x[q] else 0.0
  {
    assert g.Adjacent(p, q) <==> AdjacentWithin(g, p, q, |g.a|);
  }

  /** What an engine sums at a port: the readings at the other ends of its seams. */
  lemma NeighbourSumBySeams(g: PortGraph, x: seq<real>, p: nat)
    requires Simple(g) && |x| == g.ports
    ensures NeighbourSum(x, g.Neighbours(p)) == RSum(|g.a|, OtherEnd(g, x, p))
  {
    NeighbourSumIsRSum(g, x, p, g.ports);
    NeighboursAreOtherEnds(g, x, p, |g.a|);
  }

  lemma {:induction false} SumOfOnes(x: seq<real>, nbrs: seq<nat>)
    requires forall k :: 0 <= k < |nbrs| ==> nbrs[k] < |x|
    requires forall p :: 0 <= p < |x| ==> x[p] == 1.0
    ensures NeighbourSum(x, nbrs) == |nbrs| as real
  {
    if nbrs != [] {
      SumOfOnes(x, nbrs[..|nbrs| - 1]);
    }
  }

  function Ones(n: nat): (r: seq<real>)
    ensures |r| == n && forall p :: 0 <= p < n ==> r[p] == 1.0
  {
    seq(n, _ => 1.0)
  }

  /** The degree of a port is the number of its seams. */
  lemma DegreeBySeams(g: PortGraph, p: nat)
    requires Simple(g)
    ensures |g.Neighbours(p)| as real == RSum(|g.a|, OtherEnd(g, Ones(g.ports), p))
  {
    NeighbourSumBySeams(g, Ones(g.ports), p);
    SumOfOnes(Ones(g.ports), g.Neighbours(p));
  }

  // ----- the change of Phi

  /** Coefficients of the change that a mean move to `m` makes at the seams of a port reading `v`. */
  function Flat(v: real, m: real): real { (m - v) * (m + v) }

  function Slope(v: real, m: real): real { -2.0 * (m - v) }

  function Shift(v: real, m: real, k: real): real { Flat(v, m) + Slope(v, m) * k }

  lemma SqExpand(a: real, b: real)
    ensures Sq(a - b) == a * a - 2.0 * (a * b) + b * b
    ensures Sq(b - a) == a * a - 2.0 * (a * b) + b * b
  {
  }

  lemma ShiftExpand(v: real, m: real, k: real)
    ensures Shift(v, m, k) == m * m - v * v - 2.0 * (m * k) + 2.0 * (v * k)
  {
    var mm, vv, mk, vk := m * m, v * v, m * k, v * k;
    assert Flat(v, m) == mm - vv;
    assert Slope(v, m) * k == -2.0 * mk + 2.0 * vk;
  }

  /** Change of the squared mismatch of a seam from a moved port to a fixed one. */
  lemma OneEndMoves(v: real, m: real, k: real)
    ensures Sq(m - k) == Sq(v - k) + Shift(v, m, k)
    ensures Sq(k - m) == Sq(k - v) + Shift(v, m, k)
  {
    hide Sq, Shift;
    SqExpand(m, k);
    SqExpand(v, k);
    ShiftExpand(v, m, k);
  }

  /** Change of the squared mismatch of the moved seam itself. */
  lemma BothEndsMove(xi: real, xj: real, m: real)
    requires m == Mean(xi, xj)
    ensures Sq(m - m) == Sq(xi - xj) + Shift(xi, m, xj) + Shift(xj, m, xi) + HalfSquare(xi - xj)
    ensures Sq(m - m) == Sq(xj - xi) + Shift(xi, m, xj) + Shift(xj, m, xi) + HalfSquare(xi - xj)
  {
  }

  lemma ShiftIs(v: real, m: real, k: real)
    ensures Shift(v, m, k) == Flat(v, m) + Slope(v, m) * k
  {
  }

  function Joined(g: PortGraph, i: nat, j: nat): nat -> real
    requires g.Valid()
  {
    (s: nat) => if s < |g.a| && s < |g.b| && g.Joins(s, i, j) then 1.0 else 0.0
  }

  predicate At(g: PortGraph, s: nat, p: nat)
    requires s < |g.a| && s < |g.b|
  {
    g.a[s] == p || g.b[s] == p
  }

  lemma EndFlags(g: PortGraph, x: seq<real>, p: nat, s: nat)
    requires Simple(g) && |x| == g.ports && p < |x| && s < |g.a|
    ensures OtherEnd(g, Ones(g.ports), p)(s) == if At(g, s, p) then 1.0 else 0.0
    ensures OtherEnd(g, x, p)(s) == if At(g, s, p) then x[if g.a[s] == p then g.b[s] else g.a[s]] else 0.0
  {
  }

  /** The mismatch of a seam after the move, by which of its ends moved. */
  lemma EndsMoved(g: PortGraph, x: seq<real>, i: nat, j: nat, s: nat, y: seq<real>, m: real)
    requires Simple(g) && |x| == g.ports && i < |x| && j < |x| && i != j && s < |g.a|
    requires m == Mean(x[i], x[j]) && y == x[i := m][j := m]
    ensures Mismatch(g, y)(s) == Mismatch(g, x)(s)
            + (if At(g, s, i) then Shift(x[i], m, OtherEnd(g, x, i)(s)) else 0.0)
            + (if At(g, s, j) then Shift(x[j], m, OtherEnd(g, x, j)(s)) else 0.0)
            + (if At(g, s, i) && At(g, s, j) then HalfSquare(x[i] - x[j]) else 0.0)
  {
    hide Sq, HalfSquare, Mean, Shift, OtherEnd;
    var p, q := g.a[s], g.b[s];
    EndFlags(g, x, i, s);
    EndFlags(g, x, j, s);
    if At(g, s, i) && At(g, s, j) {
      BothEndsMove(x[i], x[j], m);
    } else if At(g, s, i) {
      OneEndMoves(x[i], m, x[if p == i then q else p]);
    } else if At(g, s, j) {
      OneEndMoves(x[j], m, x[if p == j then q else p]);
    }
  }

  lemma JoinedFlag(g: PortGraph, i: nat, j: nat, s: nat)
    requires g.Valid() && i != j && s < |g.a|
    ensures Joined(g, i, j)(s) == if At(g, s, i) && At(g, s, j) then 1.0 else 0.0
  {
  }

  lemma OneSeam(g: PortGraph, x: seq<real>, i: nat, j: nat, s: nat, y: seq<real>, m: real)
    requires Simple(g) && |x| == g.ports && i < |x| && j < |x| && i != j && s < |g.a|
    requires m == Mean(x[i], x[j]) && y == x[i := m][j := m]
    ensures Mismatch(g, y)(s) ==
            Mismatch(g, x)(s)
            + Flat(x[i], m) * OtherEnd(g, Ones(g.ports), i)(s) + Slope(x[i], m) * OtherEnd(g, x, i)(s)
            + Flat(x[j], m) * OtherEnd(g, Ones(g.ports), j)(s) + Slope(x[j], m) * OtherEnd(g, x, j)(s)
            + HalfSquare(x[i] - x[j]) * Joined(g, i, j)(s)
  {
    hide Sq, Flat, Slope, HalfSquare, Mean, Shift, Mismatch, OtherEnd, Joined, At;
    var ni, nj := OtherEnd(g, x, i)(s), OtherEnd(g, x, j)(s);
    EndFlags(g, x, i, s);
    EndFlags(g, x, j, s);
    JoinedFlag(g, i, j, s);
    EndsMoved(g, x, i, j, s, y, m);
    ShiftIs(x[i], m, ni);
    ShiftIs(x[j], m, nj);
    Weighted(Mismatch(g, y)(s), Mismatch(g, x)(s),
             Flat(x[i], m), Slope(x[i], m), Flat(x[j], m), Slope(x[j], m), HalfSquare(x[i] - x[j]),
             OtherEnd(g, Ones(g.ports), i)(s), ni, Shift(x[i], m, ni),
             OtherEnd(g, Ones(g.ports), j)(s), nj, Shift(x[j], m, nj), Joined(g, i, j)(s));
  }

  /** Weights that are zero or one pick their terms. */
  lemma Weighted(after: real, before: real, fi: real, bi: real, fj: real, bj: real, h: real,
                 di: real, xi: real, ti: real, dj: real, xj: real, tj: real, w: real)
    requires (di == 1.0 || (di == 0.0 && xi == 0.0)) && (dj == 1.0 || (dj == 0.0 && xj == 0.0))
    requires (w == 1.0 || w == 0.0)
    requires ti == fi + bi * xi && tj == fj + bj * xj
    requires after == before + (if di == 1.0 then ti else 0.0) + (if dj == 1.0 then tj else 0.0)
                      + (if w == 1.0 then h else 0.0)
    ensures after == before + fi * di + bi * xi + fj * dj + bj * xj + h * w
  {
  }

  /** The sum of a combination of five functions. */
  lemma RSumFive(n: nat, t: nat -> real, f: nat -> real, c1: real, f1: nat -> real, c2: real, f2: nat -> real,
                 c3: real, f3: nat -> real, c4: real, f4: nat -> real, c5: real, f5: nat -> real)
    requires forall s: nat :: s < n ==>
      t(s) == f(s) + c1 * f1(s) + c2 * f2(s) + c3 * f3(s) + c4 * f4(s) + c5 * f5(s)
    ensures RSum(n, t) == RSum(n, f) + c1 * RSum(n, f1) + c2 * RSum(n, f2)
                          + c3 * RSum(n, f3) + c4 * RSum(n, f4) + c5 * RSum(n, f5)
  {
    hide RSum;
    var h1 := (s: nat) => f(s) + c1 * f1(s);
    var h2 := (s: nat) => h1(s) + c2 * f2(s);
    var h3 := (s: nat) => h2(s) + c3 * f3(s);
    var h4 := (s: nat) => h3(s) + c4 * f4(s);
    RSumLinear(n, f, f1, h1, c1);
    RSumLinear(n, h1, f2, h2, c2);
    RSumLinear(n, h2, f3, h3, c3);
    RSumLinear(n, h3, f4, h4, c4);
    RSumLinear(n, h4, f5, t, c5);
  }

  /** The change of `Phi` by a mean move, through degrees and neighbour sums. */
  lemma PhiChange(g: PortGraph, x: seq<real>, i: nat, j: nat, y: seq<real>, m: real)
    requires Simple(g) && |x| == g.ports && i < |x| && j < |x| && i != j
    requires m == Mean(x[i], x[j]) && y == x[i := m][j := m]
    ensures Phi(g, y) == Phi(g, x)
            + Flat(x[i], m) * RSum(|g.a|, OtherEnd(g, Ones(g.ports), i))
            + Slope(x[i], m) * RSum(|g.a|, OtherEnd(g, x, i))
            + Flat(x[j], m) * RSum(|g.a|, OtherEnd(g, Ones(g.ports), j))
            + Slope(x[j], m) * RSum(|g.a|, OtherEnd(g, x, j))
            + HalfSquare(x[i] - x[j]) * RSum(|g.a|, Joined(g, i, j))
  {
    hide Sq, Flat, Slope, HalfSquare, Mean, OtherEnd, Mismatch, Joined, RSum;
    var n, ones := |g.a|, Ones(g.ports);
    forall s: nat | s < n
      ensures Mismatch(g, y)(s) ==
              Mismatch(g, x)(s)
              + Flat(x[i], m) * OtherEnd(g, ones, i)(s) + Slope(x[i], m) * OtherEnd(g, x, i)(s)
              + Flat(x[j], m) * OtherEnd(g, ones, j)(s) + Slope(x[j], m) * OtherEnd(g, x, j)(s)
              + HalfSquare(x[i] - x[j]) * Joined(g, i, j)(s)
    {
      OneSeam(g, x, i, j, s, y, m);
    }
    RSumFive(n, Mismatch(g, y), Mismatch(g, x), Flat(x[i], m), OtherEnd(g, ones, i), Slope(x[i], m), OtherEnd(g, x, i),
             Flat(x[j], m), OtherEnd(g, ones, j), Slope(x[j], m), OtherEnd(g, x, j),
             HalfSquare(x[i] - x[j]), Joined(g, i, j));
  }

  /** On a simple graph exactly one seam joins the ports of a seam. */
  lemma {:induction false} JoinedOnce(g: PortGraph, e: nat, k: nat)
    requires Simple(g) && e < |g.a| && k <= |g.a|
    ensures RSum(k, Joined(g, g.a[e], g.b[e])) == if e < k then 1.0 else 0.0
  {
    if k > 0 {
      JoinedOnce(g, e, k - 1);
      if k - 1 < e {
        assert !g.Joins(e, g.a[k - 1], g.b[k - 1]);
      } else if e < k - 1 {
        assert !g.Joins(k - 1, g.a[e], g.b[e]);
      }
    }
  }

  lemma TestedForm(xi: real, xj: real, ni: real, nj: real, di: real, dj: real, m: real)
    requires m == Mean(xi, xj)
    ensures SeamSumChange(xi - xj, xi, xj, ni, nj, di, dj) ==
            Flat(xi, m) * di + Slope(xi, m) * ni + Flat(xj, m) * dj + Slope(xj, m) * nj + HalfSquare(xi - xj)
  {
    var d := xi - xj;
    assert Flat(xi, m) == -d * xi + 0.25 * (d * d);
    assert Flat(xj, m) == d * xj + 0.25 * (d * d);
    assert Slope(xi, m) == d && Slope(xj, m) == -d;
    FormArithmetic(d, d * d, xi, xj, ni, nj, di, dj, -d * xi + 0.25 * (d * d), d * xj + 0.25 * (d * d));
  }

  lemma FormArithmetic(d: real, dd: real, xi: real, xj: real, ni: real, nj: real, di: real, dj: real, fi: real,
                       fj: real)
    requires fi == -d * xi + 0.25 * dd && fj == d * xj + 0.25 * dd
    ensures -d * ((di * xi - ni) - (dj * xj - nj)) + dd * ((di + dj + 2.0) * 0.25) ==
            fi * di + d * ni + fj * dj + (-d) * nj + 0.5 * dd
  {
  }

  /** The tested quantity is exactly `Phi` after the move minus `Phi` before it. */
  lemma TestedDeltaIsPhiChange(g: PortGraph, x: seq<real>, e: nat)
    requires Simple(g) && |x| == g.ports && e < |g.a|
    ensures var i, j := g.a[e], g.b[e];
            var m := Mean(x[i], x[j]);
            SeamSumChange(x[i] - x[j], x[i], x[j], NeighbourSum(x, g.Neighbours(i)), NeighbourSum(x, g.Neighbours(j)),
                          |g.Neighbours(i)| as real, |g.Neighbours(j)| as real)
            == Phi(g, x[i := m][j := m]) - Phi(g, x)
  {
    hide Flat, Slope, HalfSquare, Mean, OtherEnd, RSum, SeamSumChange, NeighbourSum, Phi;
    var i, j := g.a[e], g.b[e];
    var m := Mean(x[i], x[j]);
    PhiChange(g, x, i, j, x[i := m][j := m], m);
    JoinedOnce(g, e, |g.a|);
    NeighbourSumBySeams(g, x, i);
    NeighbourSumBySeams(g, x, j);
    DegreeBySeams(g, i);
    DegreeBySeams(g, j);
    TestedForm(x[i], x[j], NeighbourSum(x, g.Neighbours(i)), NeighbourSum(x, g.Neighbours(j)),
               |g.Neighbours(i)| as real, |g.Neighbours(j)| as real, m);
  }

  /** An attempt is tallied as raising exactly when it raises `Phi`. */
  lemma RaisingIsRaising(g: PortGraph, st: Record, e: nat)
    requires Simple(g) && |st.x| == g.ports && e < |g.a|
    ensures var i, j := g.a[e], g.b[e];
            Tick(g, st.x, i, j).raising == (if Phi(g, Act(g, st, i, j).x) > Phi(g, st.x) then 1 else 0)
  {
    hide NeighbourSum, SeamSumChange, HalfSquare, Phi, Mean;
    TestedDeltaIsPhiChange(g, st.x, e);
    WaitKeepsPhi(g, st, e);
  }

  lemma WaitKeepsPhi(g: PortGraph, st: Record, e: nat)
    requires Simple(g) && |st.x| == g.ports && e < |g.a|
    ensures st.x[g.a[e]] == st.x[g.b[e]] ==> Act(g, st, g.a[e], g.b[e]).x == st.x
  {
    if st.x[g.a[e]] == st.x[g.b[e]] {
      WaitIsIdentity(g, st, g.a[e], g.b[e]);
    }
  }
}
