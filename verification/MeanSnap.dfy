/** A mean run that stops below the threshold snaps to its initial component totals. */
module MeanSnap {
  import opened Basics
  import opened Sums
  import opened Federation
  import opened IntegerDescent
  import opened MeanLaw
  import opened MeanPotential
  import opened DyadicMean

  // ----- sums over components, in reals

  function RIn(labels: seq<nat>, c: nat, f: nat -> real): nat -> real
  {
    (p: nat) => if p < |labels| && labels[p] == c then f(p) else 0.0
  }

  ghost function ROver(labels: seq<nat>, c: nat, f: nat -> real): real
  {
    RSum(|labels|, RIn(labels, c, f))
  }

  function RReading(x: seq<real>): nat -> real
  {
    (p: nat) => if p < |x| then x[p] else 0.0
  }

  ghost function RTotal(labels: seq<nat>, x: seq<real>, c: nat): real
  {
    ROver(labels, c, RReading(x))
  }

  lemma ROverPoint(labels: seq<nat>, c: nat, f: nat -> real, h: nat -> real, k: nat)
    requires k < |labels|
    requires forall p: nat :: p < |labels| && p != k ==> f(p) == h(p)
    ensures ROver(labels, c, h) == ROver(labels, c, f) + if labels[k] == c then h(k) - f(k) else 0.0
  {
    RSumPoint(|labels|, RIn(labels, c, f), RIn(labels, c, h), k);
  }

  /** The mean law keeps every component total. */
  lemma ActKeepsTotals(g: PortGraph, labels: seq<nat>, st: Record, i: nat, j: nat, c: nat)
    requires SeamsInside(g, labels) && |st.x| == g.ports && i < |st.x| && j < |st.x| && labels[i] == labels[j]
    ensures RTotal(labels, Act(g, st, i, j).x, c) == RTotal(labels, st.x, c)
  {
    hide Tick, ROver;
    var m := Mean(st.x[i], st.x[j]);
    var y := st.x[i := m];
    var z := y[j := m];
    assert z == Act(g, st, i, j).x;
    ROverPoint(labels, c, RReading(st.x), RReading(y), i);
    ROverPoint(labels, c, RReading(y), RReading(z), j);
  }

  lemma {:induction false} RunKeepsTotals(g: PortGraph, labels: seq<nat>, ss: seq<nat>, st: Record, k: nat, c: nat)
    requires SeamsInside(g, labels) && Schedule(g, ss) && |st.x| == g.ports && k <= |ss|
    ensures RTotal(labels, Go(g, ss, st, 0, k).x, c) == RTotal(labels, st.x, c)
  {
    hide Act, RTotal;
    if k == 0 {
      GoNone(g, ss, st, 0);
    } else {
      RunKeepsTotals(g, labels, ss, st, k - 1, c);
      ActKeepsTotals(g, labels, Go(g, ss, st, 0, k - 1), g.a[ss[k - 1]], g.b[ss[k - 1]], c);
    }
  }

  // ----- simple paths

  ghost predicate Distinct(path: seq<nat>)
  {
    forall i, j :: 0 <= i < j < |path| ==> path[i] != path[j]
  }

  lemma {:induction false} SimplePath(g: PortGraph, path: seq<nat>, p: nat, q: nat) returns (simple: seq<nat>)
    requires PathBetween(g, path, p, q)
    ensures PathBetween(g, simple, p, q) && Distinct(simple)
    decreases |path|
  {
    if i, j :| 0 <= i < j < |path| && path[i] == path[j] {
      var cut := path[..i] + path[j..];
      forall k | 0 <= k < |cut| - 1
        ensures g.Adjacent(cut[k], cut[k + 1])
      {
        if k < i {
          assert g.Adjacent(path[k], path[k + 1]);
          assert cut[k + 1] == path[k + 1];
        } else {
          assert g.Adjacent(path[k - i + j], path[k - i + j + 1]);
        }
      }
      simple := SimplePath(g, cut, p, q);
    } else {
      simple := path;
    }
  }

  ghost function EdgeSum(x: seq<real>, path: seq<nat>): real
    requires forall k :: 0 <= k < |path| ==> path[k] < |x|
  {
    if |path| <= 1 then 0.0 else
      EdgeSum(x, path[..|path| - 1]) + Sq(x[path[|path| - 2]] - x[path[|path| - 1]])
  }

  lemma SquareNonnegative(v: real)
    ensures Sq(v) >= 0.0
  {
    if v >= 0.0 {
      ProductNonnegative(v, v);
    } else {
      ProductNonnegative(-v, -v);
      assert (-v) * (-v) == v * v;
    }
  }

  lemma {:induction false} EdgeSumNonnegative(x: seq<real>, path: seq<nat>)
    requires forall k :: 0 <= k < |path| ==> path[k] < |x|
    ensures EdgeSum(x, path) >= 0.0
  {
    hide Sq;
    if |path| > 1 {
      EdgeSumNonnegative(x, path[..|path| - 1]);
      SquareNonnegative(x[path[|path| - 2]] - x[path[|path| - 1]]);
    }
  }

  /** `(A + d)^2 <= (L + 1)(Q + d^2)` from `A^2 <= L Q`. */
  lemma CauchyStep(a: real, d: real, l: real, q: real)
    requires l >= 0.0 && q >= 0.0 && Sq(a) <= Times(l, q)
    ensures Sq(a + d) <= Times(l + 1.0, q + Sq(d))
  {
    if l == 0.0 {
      assert Sq(a) <= 0.0;
      ZeroSquare(a);
      assert Sq(a + d) == Sq(d);
    } else {
      // l (q + l d^2 - 2 a d) >= (a - l d)^2 >= 0
      SquareNonnegative(a - l * d);
      var s := q + l * (d * d) - 2.0 * (a * d);
      assert l * s == l * q + l * (l * (d * d)) - 2.0 * (l * (a * d));
      assert Sq(a - l * d) == a * a - 2.0 * (l * (a * d)) + l * (l * (d * d));
      assert l * s >= 0.0;
      PositiveFactor(l, s);
      assert Times(l + 1.0, q + Sq(d)) == l * q + l * (d * d) + q + d * d;
      assert Sq(a + d) == a * a + 2.0 * (a * d) + d * d;
    }
  }

  lemma PositiveFactor(l: real, s: real)
    requires l > 0.0 && l * s >= 0.0
    ensures s >= 0.0
  {
    if s < 0.0 {
      ProductPositive(l, -s, -(l * s));
    }
  }

  lemma ZeroSquare(a: real)
    requires Sq(a) <= 0.0
    ensures a == 0.0
  {
    if a != 0.0 {
      SquarePositive(a, a * a);
    }
  }

  /** Cauchy-Schwarz along a path. */
  lemma {:induction false} PathCauchy(x: seq<real>, path: seq<nat>)
    requires |path| > 0 && forall k :: 0 <= k < |path| ==> path[k] < |x|
    ensures Sq(x[path[0]] - x[path[|path| - 1]]) <= Times((|path| - 1) as real, EdgeSum(x, path))
  {
    hide Sq, Times;
    if |path| == 1 {
      NoDistance(x[path[0]]);
    } else {
      var last := |path| - 1;
      PathCauchy(x, path[..last]);
      EdgeSumNonnegative(x, path[..last]);
      var a, d := x[path[0]] - x[path[last - 1]], x[path[last - 1]] - x[path[last]];
      CauchyStep(a, d, (last - 1) as real, EdgeSum(x, path[..last]));
      assert a + d == x[path[0]] - x[path[last]];
      assert (last - 1) as real + 1.0 == last as real;
    }
  }

  lemma NoDistance(v: real)
    ensures Sq(v - v) == Times(0.0, 0.0) == 0.0
  {
  }

  ghost function Masked(g: PortGraph, x: seq<real>, used: set<nat>): nat -> real
    requires g.Valid() && |x| == g.ports
  {
    (s: nat) => if s in used && g.Valid() && |x| == g.ports then Mismatch(g, x)(s) else 0.0
  }

  /** One more seam in the mask adds its mismatch. */
  lemma MaskGrows(g: PortGraph, x: seq<real>, used: set<nat>, s: nat, v: nat, w: nat)
    requires g.Valid() && |x| == g.ports && s < |g.a| && g.Joins(s, v, w) && s !in used && v < |x| && w < |x|
    ensures RSum(|g.a|, Masked(g, x, used + {s})) == RSum(|g.a|, Masked(g, x, used)) + Sq(x[v] - x[w])
  {
    hide Sq;
    SymmetricSquare(x[v], x[w]);
    assert Mismatch(g, x)(s) == Sq(x[g.a[s]] - x[g.b[s]]);
    RSumPoint(|g.a|, Masked(g, x, used), Masked(g, x, used + {s}), s);
  }

  lemma NoMask(g: PortGraph, x: seq<real>)
    requires g.Valid() && |x| == g.ports
    ensures RSum(|g.a|, Masked(g, x, {})) == 0.0
  {
    RSumZero(|g.a|, Masked(g, x, {}));
  }

  /** A path without repeated ports uses every seam at most once. */
  lemma {:induction false} PathSeams(g: PortGraph, x: seq<real>, path: seq<nat>) returns (used: set<nat>)
    requires Path(g, path) && Distinct(path) && |x| == g.ports
    ensures forall s :: s in used ==> s < |g.a| && g.a[s] in path && g.b[s] in path
    ensures EdgeSum(x, path) == RSum(|g.a|, Masked(g, x, used))
    decreases |path|
  {
    hide Sq, RSum, Masked;
    if |path| == 1 {
      used := {};
      NoMask(g, x);
    } else {
      var last := |path| - 1;
      PathPrefix(g, path);
      var before := PathSeams(g, x, path[..last]);
      var v, w := path[last - 1], path[last];
      assert g.Adjacent(path[last - 1], path[last - 1 + 1]);
      var s :| 0 <= s < |g.a| && g.Joins(s, v, w);
      assert w !in path[..last];
      MaskGrows(g, x, before, s, v, w);
      used := before + {s};
      assert EdgeSum(x, path) == EdgeSum(x, path[..last]) + Sq(x[v] - x[w]);
    }
  }

  lemma SymmetricSquare(v: real, w: real)
    ensures Sq(v - w) == Sq(w - v)
  {
  }

  lemma PathPrefix(g: PortGraph, path: seq<nat>)
    requires Path(g, path) && |path| > 1
    ensures Path(g, path[..|path| - 1])
  {
  }

  lemma EdgeSumBelowPhi(g: PortGraph, x: seq<real>, path: seq<nat>)
    requires Path(g, path) && Distinct(path) && |x| == g.ports
    ensures EdgeSum(x, path) <= Phi(g, x)
  {
    hide Sq;
    var used := PathSeams(g, x, path);
    forall s: nat | s < |g.a|
      ensures Masked(g, x, used)(s) <= Mismatch(g, x)(s)
    {
      SquareNonnegative(x[g.a[s]] - x[g.b[s]]);
    }
    RSumMonotone(|g.a|, Masked(g, x, used), Mismatch(g, x));
  }

  // ----- a path without repetition fits its component

  ghost function Present(ports: set<nat>): nat -> int
  {
    (p: nat) => if p in ports then 1 else 0
  }

  lemma {:induction false} CountPresent(n: nat, path: seq<nat>)
    requires Distinct(path) && forall k :: 0 <= k < |path| ==> path[k] < n
    ensures Sum(n, Present(set p | p in path)) == |path|
  {
    if path == [] {
      SumZero(n, Present(set p | p in path));
    } else {
      var last := |path| - 1;
      CountPresent(n, path[..last]);
      assert path == path[..last] + [path[last]];
      SumPoint(n, Present(set p | p in path[..last]), Present(set p | p in path), path[last]);
    }
  }

  lemma PathFits(g: PortGraph, labels: seq<nat>, path: seq<nat>)
    requires SeamsInside(g, labels) && Path(g, path) && Distinct(path)
    ensures |path| <= Size(labels, labels[path[0]])
  {
    var c := labels[path[0]];
    CountPresent(g.ports, path);
    forall p: nat | p < g.ports
      ensures Present(set i | i in path)(p) <= In(labels, c, ONE)(p)
    {
      if p in path {
        var k :| 0 <= k < |path| && path[k] == p;
        PathInComponent(g, labels, path, k);
      }
    }
    SumMonotone(g.ports, Present(set p | p in path), In(labels, c, ONE));
  }

  /** Two readings of one component: `(x_p - x_u)^2 <= (m - 1) Phi`. */
  lemma SpreadBelowPhi(g: PortGraph, labels: seq<nat>, x: seq<real>, p: nat, u: nat)
    requires Connected(g, labels) && |x| == g.ports && p < |x| && u < |x| && labels[p] == labels[u]
    ensures Size(labels, labels[p]) >= 1 && Phi(g, x) >= 0.0
    ensures Sq(x[p] - x[u]) <= Times((Size(labels, labels[p]) - 1) as real, Phi(g, x))
  {
    hide Sq, Times, Phi, Size, EdgeSum;
    var walk :| PathBetween(g, walk, p, u);
    var path := SimplePath(g, walk, p, u);
    PathFits(g, labels, path);
    PathCauchy(x, path);
    EdgeSumBelowPhi(g, x, path);
    EdgeSumNonnegative(x, path);
    ProductMonotone((|path| - 1) as real, (Size(labels, labels[p]) - 1) as real, EdgeSum(x, path), Phi(g, x));
  }

  lemma ProductMonotone(a: real, b: real, q: real, r: real)
    requires 0.0 <= a <= b && 0.0 <= q <= r
    ensures Times(a, q) <= Times(b, r)
  {
    ProductNonnegative(b - a, q);
    ProductNonnegative(b, r - q);
    assert b * r - a * q == (b - a) * q + b * (r - q);
  }
}
