/** Most probable label paths: a dynamic programme with exact tie counts, by two routes. */
module LabelPaths {
  import opened Basics
  import opened TiltedKernel

  /** A sector with its kernel. */
  datatype Chain = Chain(sector: Sector, beta: nat, kernel: Kernel)
  {
    predicate Valid()
    {
      sector.Valid() && Tilted(sector, beta, kernel)
    }

    predicate At(s: nat, m: nat)
    {
      s < |sector.next| && m < sector.labels
    }
  }

  function Ratio(num: int, den: int): real
    requires den > 0
  {
    num as real / den as real
  }

  /** The probability of label `m` in state `s`. */
  ghost function Chance(c: Chain, s: nat, m: nat): (r: real)
    requires c.Valid() && c.At(s, m)
    ensures r > 0.0
  {
    WeightsPositive(c.sector, c.beta, c.kernel, s, m);
    Ratio(c.kernel.weight[s][m], c.kernel.partition[s])
  }

  /** Two chances of one state compare as a doubling, `beta` times per unit between their decrements. */
  lemma ChanceRatio(c: Chain, s: nat, m: nat, m': nat)
    requires c.Valid() && c.At(s, m) && c.At(s, m') && c.sector.drop[s][m'] <= c.sector.drop[s][m]
    ensures c.beta * (c.sector.drop[s][m] - c.sector.drop[s][m']) >= 0
    ensures Chance(c, s, m') ==
            Doubled(1, c.beta * (c.sector.drop[s][m] - c.sector.drop[s][m'])) as real * Chance(c, s, m)
  {
    hide Doubled;
    var d, d' := c.sector.drop[s][m], c.sector.drop[s][m'];
    TiltedDoubles(c.sector, c.beta, c.kernel);
    var w, w', z := c.kernel.weight[s][m], c.kernel.weight[s][m'], c.kernel.partition[s];
    WeightsPositive(c.sector, c.beta, c.kernel, s, m);
    assert IsWeight(c.beta, d, w) && IsWeight(c.beta, d - (d - d'), w');
    WeightDoubles(c.beta, d, w, d - d', w');
    var k := Doubled(1, c.beta * (d - d'));
    DoubledScales(w, c.beta * (d - d'));
    RatioScales(k, w, w', z);
  }

  lemma DoubledScales(w: int, times: nat)
    ensures Doubled(w, times) == Doubled(1, times) * w
  {
    DoubledIs(w, times);
    DoubledIs(1, times);
    assert 1 * Pow2(times) * w == w * Pow2(times);
  }

  lemma RatioScales(k: int, w: int, w': int, z: int)
    requires w' == k * w && z > 0
    ensures Ratio(w', z) == k as real * Ratio(w, z)
  {
    assert w' as real == k as real * w as real;
    var x, y := Ratio(w, z), Ratio(w', z);
    assert x * z as real == w as real && y * z as real == w' as real;
    assert (k as real * x) * z as real == k as real * (x * z as real);
    SameQuotient(y, k as real * x, z as real);
  }

  lemma SameQuotient(x: real, y: real, z: real)
    requires z > 0.0 && x * z == y * z
    ensures x == y
  {
    assert (x - y) * z == 0.0;
  }

  // ----- label paths

  ghost predicate IsPath(c: Chain, p: seq<nat>)
  {
    forall k :: 0 <= k < |p| ==> p[k] < c.sector.labels
  }

  ghost function End(c: Chain, start: nat, p: seq<nat>): (r: nat)
    requires c.Valid() && start < |c.sector.next| && IsPath(c, p)
    ensures r < |c.sector.next|
    decreases |p|
  {
    if p == [] then start else
      var q := p[..|p| - 1];
      assert IsPath(c, q);
      c.sector.next[End(c, start, q)][p[|p| - 1]]
  }

  /** The probability of a label path: the product of the chances along it. */
  ghost function Prob(c: Chain, start: nat, p: seq<nat>): (r: real)
    requires c.Valid() && start < |c.sector.next| && IsPath(c, p)
    ensures r > 0.0
    decreases |p|
  {
    if p == [] then 1.0 else
      var q := p[..|p| - 1];
      assert IsPath(c, q);
      Times(Prob(c, start, q), Chance(c, End(c, start, q), p[|p| - 1]))
  }

  /** All label paths of a length. */
  ghost function AllPaths(labels: nat, length: nat): (r: set<seq<nat>>)
    ensures forall p: seq<nat> :: p in r <==> |p| == length && forall k :: 0 <= k < |p| ==> p[k] < labels
    decreases length
  {
    if length == 0 then {[]} else
      var shorter := AllPaths(labels, length - 1);
      var r := set p: seq<nat>, m: nat | p in shorter && m < labels :: p + [m];
      AllPathsStep(labels, length, shorter, r);
      r
  }

  lemma AllPathsStep(labels: nat, length: nat, shorter: set<seq<nat>>, r: set<seq<nat>>)
    requires length > 0
    requires forall p: seq<nat> :: p in shorter <==> |p| == length - 1 && forall k :: 0 <= k < |p| ==> p[k] < labels
    requires r == set p: seq<nat>, m: nat | p in shorter && m < labels :: p + [m]
    ensures forall p: seq<nat> :: p in r <==> |p| == length && forall k :: 0 <= k < |p| ==> p[k] < labels
  {
    forall p: seq<nat> | |p| == length && forall k :: 0 <= k < |p| ==> p[k] < labels
      ensures p in r
    {
      assert p == p[..length - 1] + [p[length - 1]];
      assert p[..length - 1] in shorter;
    }
  }

  /** The paths of a length that end in `t`. */
  ghost function PathsTo(c: Chain, start: nat, length: nat, t: nat): (r: set<seq<nat>>)
    requires c.Valid() && start < |c.sector.next|
    ensures forall p :: p in r <==> |p| == length && IsPath(c, p) && End(c, start, p) == t
  {
    set p | p in AllPaths(c.sector.labels, length) && IsPath(c, p) && End(c, start, p) == t
  }

  // ----- summaries

  ghost predicate Paths(c: Chain, q: set<seq<nat>>)
  {
    forall p :: p in q ==> IsPath(c, p)
  }

  /** The paths of `q` with probability `v`. */
  ghost function Attaining(c: Chain, start: nat, q: set<seq<nat>>, v: real): set<seq<nat>>
    requires c.Valid() && start < |c.sector.next| && Paths(c, q)
  {
    set p | p in q && Prob(c, start, p) == v
  }

  /** `v` is the largest probability in `q`, and `count` paths of `q` attain it. */
  ghost predicate Summary(c: Chain, start: nat, q: set<seq<nat>>, v: real, count: nat)
    requires c.Valid() && start < |c.sector.next| && Paths(c, q)
  {
    && count > 0
    && count == |Attaining(c, start, q, v)|
    && forall p :: p in q ==> Prob(c, start, p) <= v
  }

  /** A summary is determined by its paths. */
  lemma SummaryUnique(c: Chain, start: nat, q: set<seq<nat>>, v: real, count: nat, v': real, count': nat)
    requires c.Valid() && start < |c.sector.next| && Paths(c, q)
    requires Summary(c, start, q, v, count) && Summary(c, start, q, v', count')
    ensures v == v' && count == count'
  {
    var p :| p in Attaining(c, start, q, v);
    var p' :| p' in Attaining(c, start, q, v');
  }

  /** The better of two summaries; counts add on a tie. */
  lemma Merge(c: Chain, start: nat, q: set<seq<nat>>, v: real, count: nat, q': set<seq<nat>>, v': real, count': nat)
    requires c.Valid() && start < |c.sector.next| && Paths(c, q) && Paths(c, q') && q !! q'
    requires Summary(c, start, q, v, count) && Summary(c, start, q', v', count')
    ensures Paths(c, q + q')
    ensures v > v' ==> Summary(c, start, q + q', v, count)
    ensures v < v' ==> Summary(c, start, q + q', v', count')
    ensures v == v' ==> Summary(c, start, q + q', v, count + count')
  {
    hide Prob;
    if v > v' {
      assert Attaining(c, start, q + q', v) == Attaining(c, start, q, v);
    } else if v < v' {
      assert Attaining(c, start, q + q', v') == Attaining(c, start, q', v');
    } else {
      var a, b := Attaining(c, start, q, v), Attaining(c, start, q', v);
      assert Attaining(c, start, q + q', v) == a + b;
      assert a * b == {};
    }
  }

  // ----- one more label

  ghost function Extend(q: set<seq<nat>>, m: nat): (r: set<seq<nat>>)
    ensures forall p :: p in r <==> |p| > 0 && p[|p| - 1] == m && p[..|p| - 1] in q
  {
    var r := set p | p in q :: p + [m];
    assert forall p: seq<nat> :: |p| > 0 && p[|p| - 1] == m && p[..|p| - 1] in q ==> p in r by {
      forall p: seq<nat> | |p| > 0 && p[|p| - 1] == m && p[..|p| - 1] in q
        ensures p in r
      {
        assert p == p[..|p| - 1] + [m];
      }
    }
    r
  }

  lemma ExtendOne(q: set<seq<nat>>, p: seq<nat>, m: nat)
    requires p in q
    ensures Extend(q, m) == Extend(q - {p}, m) + {p + [m]} && p + [m] !in Extend(q - {p}, m)
  {
    hide Extend;
    assert (p + [m])[..|p|] == p;
    forall x
      ensures x in Extend(q, m) <==> x in Extend(q - {p}, m) || x == p + [m]
    {
      if x in Extend(q, m) && x[..|x| - 1] == p {
        assert x == p + [m];
      }
    }
  }

  lemma ExtendNone(m: nat)
    ensures Extend({}, m) == {}
  {
  }

  lemma {:induction false} ExtendSize(q: set<seq<nat>>, m: nat)
    ensures |Extend(q, m)| == |q|
  {
    hide Extend;
    if p :| p in q {
      ExtendSize(q - {p}, m);
      ExtendOne(q, p, m);
    } else {
      assert q == {};
      ExtendNone(m);
    }
  }

  lemma ExtendPath(c: Chain, start: nat, p: seq<nat>, m: nat)
    requires c.Valid() && start < |c.sector.next| && IsPath(c, p) && m < c.sector.labels
    ensures IsPath(c, p + [m])
    ensures End(c, start, p + [m]) == c.sector.next[End(c, start, p)][m]
    ensures Prob(c, start, p + [m]) == Times(Prob(c, start, p), Chance(c, End(c, start, p), m))
  {
    hide Chance, Times;
    assert (p + [m])[..|p|] == p;
  }

  lemma TimesKeepsOrder(x: real, y: real, w: real)
    requires w > 0.0
    ensures x <= y <==> Times(x, w) <= Times(y, w)
    ensures x == y <==> Times(x, w) == Times(y, w)
  {
  }

  lemma ProbExtends(c: Chain, start: nat, p: seq<nat>, s: nat, m: nat)
    requires c.Valid() && start < |c.sector.next| && c.At(s, m)
    requires |p| > 0 && p[|p| - 1] == m && IsPath(c, p[..|p| - 1]) && End(c, start, p[..|p| - 1]) == s
    ensures IsPath(c, p) && End(c, start, p) == c.sector.next[s][m]
    ensures Prob(c, start, p) == Times(Prob(c, start, p[..|p| - 1]), Chance(c, s, m))
  {
    assert p == p[..|p| - 1] + [m];
    ExtendPath(c, start, p[..|p| - 1], m);
  }

  /** Extending all paths into `s` by `m` scales the summary by the chance of `m`. */
  lemma SummaryExtends(c: Chain, start: nat, q: set<seq<nat>>, s: nat, m: nat, v: real, count: nat)
    requires c.Valid() && start < |c.sector.next| && c.At(s, m) && Paths(c, q)
    requires forall p :: p in q ==> End(c, start, p) == s
    requires Summary(c, start, q, v, count)
    ensures Paths(c, Extend(q, m))
    ensures Summary(c, start, Extend(q, m), Times(v, Chance(c, s, m)), count)
  {
    hide Prob, Chance, Times, End, IsPath, Extend;
    var w, r := Chance(c, s, m), Extend(q, m);
    forall p | p in r
      ensures IsPath(c, p) && Prob(c, start, p) <= Times(v, w)
      ensures Prob(c, start, p) == Times(v, w) <==> p[..|p| - 1] in Attaining(c, start, q, v)
    {
      ProbExtends(c, start, p, s, m);
      TimesKeepsOrder(Prob(c, start, p[..|p| - 1]), v, w);
    }
    ExtendSize(Attaining(c, start, q, v), m);
    assert Attaining(c, start, r, Times(v, w)) == Extend(Attaining(c, start, q, v), m);
  }
}
