/** Breadth-first search on the read relation, whole or pruned by a budget. */
module Search {
  import opened Basics
  import opened ReadNet

  /** `m` is the length of a shortest walk from `s` along reads to `t`. */
  ghost predicate Distance(rows: Rows, s: nat, t: nat, m: nat)
    requires WellFormed(rows) && s < |rows|
  {
    InCone(rows, t, m, s) && forall l: nat :: l < m ==> !InCone(rows, t, l, s)
  }

  lemma {:induction false} DistanceExists(rows: Rows, s: nat, t: nat, k: nat) returns (m: nat)
    requires WellFormed(rows) && s < |rows| && InCone(rows, t, k, s)
    ensures m <= k && Distance(rows, s, t, m)
    decreases k
  {
    if l: nat :| l < k && InCone(rows, t, l, s) {
      m := DistanceExists(rows, s, t, l);
    } else {
      m := k;
    }
  }

  /** One more read at the far end. */
  lemma ConeFar(rows: Rows, s: nat, m: nat, f: nat, t: nat)
    requires WellFormed(rows) && s < |rows| && f < |rows| && InCone(rows, f, m, s) && t in rows[f] && t < |rows|
    ensures InCone(rows, t, m + 1, s)
  {
    assert InCone(rows, t, 0, t);
    ConeStep(rows, t, 0, t, f);
    ConeJoins(rows, t, 1, f, m, s);
  }

  lemma {:induction false} ConeFarBack(rows: Rows, s: nat, m: nat, t: nat) returns (f: nat)
    requires WellFormed(rows) && s < |rows| && m > 0 && InCone(rows, t, m, s)
    ensures f < |rows| && t in rows[f] && InCone(rows, f, m - 1, s)
    decreases m
  {
    var u := ConeBack(rows, t, m, s);
    if m == 1 {
      f := s;
    } else {
      f := ConeFarBack(rows, u, m - 1, t);
      ConeStep(rows, f, m - 2, u, s);
    }
  }

  /** The site before the last on a shortest walk is one step nearer. */
  lemma Nearer(rows: Rows, s: nat, t: nat, m: nat) returns (f: nat)
    requires WellFormed(rows) && s < |rows| && m > 0 && t < |rows| && Distance(rows, s, t, m)
    ensures f < |rows| && t in rows[f] && Distance(rows, s, f, m - 1)
  {
    f := ConeFarBack(rows, s, m, t);
    forall l: nat | l < m - 1
      ensures !InCone(rows, f, l, s)
    {
      if InCone(rows, f, l, s) {
        ConeFar(rows, s, l, f, t);
      }
    }
  }

  /** What restricts a search: distances from the centre, and how far out it may go. */
  datatype Pruning = Nothing | Within(alpha: seq<int>, budget: int)

  predicate Sized(rows: Rows, p: Pruning)
  {
    p.Within? ==> |p.alpha| == |rows|
  }

  /** Along a read the distance from the centre grows by at most one. */
  predicate Lipschitz(rows: Rows, p: Pruning)
  {
    p.Within? ==>
      && |p.alpha| == |rows|
      && forall f: nat, t: nat :: f < |rows| && t < |rows| && t in rows[f] ==> p.alpha[f] <= p.alpha[t] + 1
  }

  /** Site `t` at layer `m` is within the budget. */
  predicate Allowed(p: Pruning, t: nat, m: int)
  {
    p.Within? ==> t < |p.alpha| && p.alpha[t] <= p.budget - m
  }

  /** On the way to an allowed target every layer holds an allowed site. */
  lemma {:induction false} Ancestor(rows: Rows, p: Pruning, s: nat, t: nat, m: nat, l: nat) returns (f: nat)
    requires WellFormed(rows) && Lipschitz(rows, p) && s < |rows| && t < |rows|
    requires Distance(rows, s, t, m) && Allowed(p, t, m) && l <= m
    ensures f < |rows| && Distance(rows, s, f, l) && Allowed(p, f, l)
    decreases m
  {
    if l == m {
      f := t;
    } else {
      var g := Nearer(rows, s, t, m);
      f := Ancestor(rows, p, s, g, m - 1, l);
    }
  }

  /** Recorded distances are lengths of walks, at most `m`. */
  ghost predicate Walked(rows: Rows, s: nat, dist: seq<int>, m: nat)
    requires WellFormed(rows) && s < |rows|
  {
    |dist| == |rows| && forall t: nat :: t < |rows| && dist[t] != -1 ==>
      0 <= dist[t] <= m && InCone(rows, t, dist[t], s)
  }

  /** Allowed targets within `m` layers have their exact distance. */
  ghost predicate Exact(rows: Rows, p: Pruning, s: nat, dist: seq<int>, m: nat)
    requires WellFormed(rows) && s < |rows| && |dist| == |rows|
  {
    forall t: nat, d: nat :: t < |rows| && d <= m && Distance(rows, s, t, d) && Allowed(p, t, d) ==> dist[t] == d
  }

  /** The sites recorded at layer `m`. */
  ghost predicate IsFrontier(dist: seq<int>, frontier: seq<nat>, m: nat)
  {
    forall t: nat :: t in frontier <==> t < |dist| && dist[t] == m
  }

  method Restrict(p: Pruning, frontier: seq<nat>, m: nat, n: nat) returns (r: seq<nat>)
    requires forall f :: f in frontier ==> f < n
    requires p.Within? ==> |p.alpha| == n
    ensures forall f :: f in r <==> f in frontier && Allowed(p, f, m)
  {
    if p == Nothing {
      return frontier;
    }
    r := [];
    for k := 0 to |frontier|
      invariant forall f :: f in r <==> f in frontier[..k] && Allowed(p, f, m)
    {
      assert frontier[..k + 1] == frontier[..k] + [frontier[k]];
      assert frontier[k] in frontier;
      if p.alpha[frontier[k]] <= p.budget - m {
        r := r + [frontier[k]];
      }
    }
    assert frontier[..|frontier|] == frontier;
  }

  /** A site not yet recorded that some site of `from` reads. */
  ghost predicate Fresh(rows: Rows, dist: seq<int>, from: seq<nat>, t: nat)
    requires |dist| == |rows|
  {
    t < |rows| && dist[t] < 0 && exists f: nat :: f in from && f < |rows| && t in rows[f]
  }

  method Mark(rows: Rows, from: seq<nat>) returns (mask: seq<bool>)
    requires WellFormed(rows) && forall f :: f in from ==> f < |rows|
    ensures |mask| == |rows|
    ensures forall t: nat :: t < |rows| ==> (mask[t] <==> exists f: nat :: f in from && f < |rows| && t in rows[f])
  {
    mask := seq(|rows|, _ => false);
    for k := 0 to |from|
      invariant |mask| == |rows|
      invariant forall t: nat :: t < |rows| ==>
        (mask[t] <==> exists f: nat :: f in from[..k] && f < |rows| && t in rows[f])
    {
      assert from[k] in from;
      var row := rows[from[k]];
      assert from[..k + 1] == from[..k] + [from[k]];
      ghost var before := mask;
      for i := 0 to |row|
        invariant |mask| == |rows|
        invariant forall t: nat :: t < |rows| ==> (mask[t] <==> before[t] || t in row[..i])
      {
        assert row[..i + 1] == row[..i] + [row[i]];
        mask := mask[row[i] := true];
      }
      assert row[..|row|] == row;
    }
    assert from[..|from|] == from;
  }

  method Expand(rows: Rows, dist: seq<int>, from: seq<nat>) returns (frontier: seq<nat>)
    requires WellFormed(rows) && |dist| == |rows| && forall f :: f in from ==> f < |rows|
    ensures forall t: nat :: t in frontier <==> Fresh(rows, dist, from, t)
  {
    var mask := Mark(rows, from);
    frontier := [];
    for t := 0 to |rows|
      invariant forall i: nat :: i in frontier <==> i < t && Fresh(rows, dist, from, i)
    {
      if mask[t] && dist[t] < 0 {
        frontier := frontier + [t];
      }
    }
  }

  method Record(dist: seq<int>, frontier: seq<nat>, d: int) returns (r: seq<int>)
    requires forall t :: t in frontier ==> t < |dist|
    ensures |r| == |dist|
    ensures forall t: nat :: t < |dist| ==> r[t] == if t in frontier then d else dist[t]
  {
    r := dist;
    for k := 0 to |frontier|
      invariant |r| == |dist|
      invariant forall t: nat :: t < |dist| ==> r[t] == if t in frontier[..k] then d else dist[t]
    {
      assert frontier[..k + 1] == frontier[..k] + [frontier[k]];
      assert frontier[k] in frontier;
      r := r[frontier[k] := d];
    }
    assert frontier[..|frontier|] == frontier;
  }

  /** The state of the search before layer `m`. */
  ghost predicate Searching(rows: Rows, p: Pruning, s: nat, dist: seq<int>, frontier: seq<nat>, m: nat)
    requires WellFormed(rows) && s < |rows|
  {
    Walked(rows, s, dist, m) && (Lipschitz(rows, p) ==> Exact(rows, p, s, dist, m)) && IsFrontier(dist, frontier, m)
  }

  lemma SearchStarts(rows: Rows, p: Pruning, s: nat, dist: seq<int>)
    requires WellFormed(rows) && s < |rows| && |dist| == |rows|
    requires forall t :: 0 <= t < |rows| ==> dist[t] == if t == s then 0 else -1
    ensures Searching(rows, p, s, dist, [s], 0)
  {
  }

  /** Nothing allowed at layer `m`: every allowed target is already recorded. */
  lemma SearchEnds(rows: Rows, p: Pruning, s: nat, dist: seq<int>, frontier: seq<nat>, m: nat, k: nat)
    requires WellFormed(rows) && s < |rows| && Searching(rows, p, s, dist, frontier, m)
    requires forall f: nat :: f in frontier ==> !Allowed(p, f, m)
    ensures Lipschitz(rows, p) ==> Exact(rows, p, s, dist, k)
  {
    hide Distance, Allowed, Lipschitz, InCone, WellFormed;
    forall t: nat, d: nat | Lipschitz(rows, p) && t < |rows| && d <= k && Distance(rows, s, t, d) && Allowed(p, t, d)
      ensures dist[t] == d
    {
      if d > m {
        var f := Ancestor(rows, p, s, t, d, m);
        assert false;
      }
    }
  }

  lemma SearchSteps(rows: Rows, p: Pruning, s: nat, dist: seq<int>, frontier: seq<nat>, m: nat,
                    from: seq<nat>, frontier': seq<nat>, dist': seq<int>)
    requires WellFormed(rows) && s < |rows| && Searching(rows, p, s, dist, frontier, m)
    requires forall f :: f in from <==> f in frontier && Allowed(p, f, m)
    requires forall t: nat :: t in frontier' <==> Fresh(rows, dist, from, t)
    requires |dist'| == |dist| && forall t: nat :: t < |dist| ==> dist'[t] == if t in frontier' then m + 1 else dist[t]
    ensures Searching(rows, p, s, dist', frontier', m + 1)
  {
    hide InCone, WellFormed, Lipschitz, Allowed;
    forall t: nat | t < |rows| && dist'[t] != -1
      ensures 0 <= dist'[t] <= m + 1 && InCone(rows, t, dist'[t], s)
    {
      if t in frontier' {
        var f: nat :| f in from && f < |rows| && t in rows[f];
        ConeFar(rows, s, m, f, t);
      }
    }
    forall t: nat, d: nat | Lipschitz(rows, p) && t < |rows| && d <= m + 1 && Distance(rows, s, t, d) &&
      Allowed(p, t, d)
      ensures dist'[t] == d
    {
      if d <= m {
        assert dist[t] == d;
      } else {
        NewExact(rows, p, s, dist, frontier, m, from, t);
      }
    }
  }

  lemma NewExact(rows: Rows, p: Pruning, s: nat, dist: seq<int>, frontier: seq<nat>, m: nat, from: seq<nat>, t: nat)
    requires WellFormed(rows) && Lipschitz(rows, p) && s < |rows| && Searching(rows, p, s, dist, frontier, m)
    requires forall f :: f in from <==> f in frontier && Allowed(p, f, m)
    requires t < |rows| && Distance(rows, s, t, m + 1) && Allowed(p, t, m + 1)
    ensures Fresh(rows, dist, from, t)
  {
    hide InCone, WellFormed;
    var f := Nearer(rows, s, t, m + 1);
    assert Allowed(p, f, m);
    assert dist[f] == m;
    assert f in from;
    assert dist[t] == -1;
  }

  /** Search from `s` for `cap` layers, one per site when no cap is given. */
  method Bfs(rows: Rows, s: nat, cap: Option<nat>, p: Pruning) returns (dist: seq<int>)
    requires WellFormed(rows) && s < |rows| && Sized(rows, p)
    ensures Walked(rows, s, dist, if cap.Some? then cap.value else |rows|)
    ensures Lipschitz(rows, p) ==> Exact(rows, p, s, dist, if cap.Some? then cap.value else |rows|)
  {
    hide Walked, Exact, IsFrontier, Lipschitz, Allowed, Fresh, Searching;
    dist := seq(|rows|, _ => -1);
    dist := dist[s := 0];
    var frontier := [s];
    var layers := if cap.Some? then cap.value else |rows|;
    SearchStarts(rows, p, s, dist);
    for m := 0 to layers
      invariant Searching(rows, p, s, dist, frontier, m)
    {
      FrontierInside(rows, p, s, dist, frontier, m);
      var from := Restrict(p, frontier, m, |rows|);
      if from == [] {
        SearchEnds(rows, p, s, dist, frontier, m, layers);
        WalkedLonger(rows, s, dist, m, layers);
        return;
      }
      var next := Expand(rows, dist, from);
      NextInside(rows, dist, from, next);
      if next == [] {
        SearchSteps(rows, p, s, dist, frontier, m, from, next, dist);
        SearchEnds(rows, p, s, dist, next, m + 1, layers);
        WalkedLonger(rows, s, dist, m, layers);
        return;
      }
      var dist' := Record(dist, next, m + 1);
      SearchSteps(rows, p, s, dist, frontier, m, from, next, dist');
      dist, frontier := dist', next;
    }
    SearchResult(rows, p, s, dist, frontier, layers);
  }

  lemma FrontierInside(rows: Rows, p: Pruning, s: nat, dist: seq<int>, frontier: seq<nat>, m: nat)
    requires WellFormed(rows) && s < |rows| && Searching(rows, p, s, dist, frontier, m)
    ensures Walked(rows, s, dist, m) && |dist| == |rows|
    ensures forall f :: f in frontier ==> f < |rows|
  {
  }

  lemma NextInside(rows: Rows, dist: seq<int>, from: seq<nat>, next: seq<nat>)
    requires |dist| == |rows| && forall t: nat :: t in next <==> Fresh(rows, dist, from, t)
    ensures forall t :: t in next ==> t < |dist|
  {
  }

  lemma SearchResult(rows: Rows, p: Pruning, s: nat, dist: seq<int>, frontier: seq<nat>, m: nat)
    requires WellFormed(rows) && s < |rows| && Searching(rows, p, s, dist, frontier, m)
    ensures Walked(rows, s, dist, m) && (Lipschitz(rows, p) ==> Exact(rows, p, s, dist, m))
  {
  }

  lemma WalkedLonger(rows: Rows, s: nat, dist: seq<int>, m: nat, k: nat)
    requires WellFormed(rows) && s < |rows| && m <= k && Walked(rows, s, dist, m)
    ensures Walked(rows, s, dist, k)
  {
  }

  // ----- no shortest walk visits a site twice

  ghost predicate NoFarther(rows: Rows, s: nat, t: nat, m: nat)
    requires WellFormed(rows) && s < |rows|
  {
    exists l: nat :: l <= m && Distance(rows, s, t, l)
  }

  /** The sites at most `m` away. */
  ghost function Near(rows: Rows, s: nat, m: nat): set<nat>
    requires WellFormed(rows) && s < |rows|
  {
    set t: nat | t < |rows| && NoFarther(rows, s, t, m)
  }

  lemma {:induction false} NearGrows(rows: Rows, s: nat, t: nat, d: nat, m: nat)
    requires WellFormed(rows) && s < |rows| && t < |rows| && Distance(rows, s, t, d) && m <= d
    ensures |Near(rows, s, m)| >= m + 1
  {
    var f := Ancestor(rows, Nothing, s, t, d, m);
    assert f in Near(rows, s, m);
    if m > 0 {
      NearGrows(rows, s, t, d, m - 1);
      assert f !in Near(rows, s, m - 1);
      assert Near(rows, s, m - 1) + {f} <= Near(rows, s, m);
      Fits(Near(rows, s, m - 1) + {f}, Near(rows, s, m));
    } else {
      Fits({f}, Near(rows, s, m));
    }
  }

  lemma {:induction false} Fits(a: set<nat>, b: set<nat>)
    requires a <= b
    ensures |a| <= |b|
  {
    assert b == a + (b - a);
  }

  lemma {:induction false} Below(n: nat) returns (r: set<nat>)
    ensures |r| == n && forall t: nat :: t in r <==> t < n
  {
    if n == 0 {
      r := {};
    } else {
      var q := Below(n - 1);
      r := q + {n - 1};
    }
  }

  /** A distance is smaller than the number of sites. */
  lemma DistanceBelowSize(rows: Rows, s: nat, t: nat, d: nat)
    requires WellFormed(rows) && s < |rows| && t < |rows| && Distance(rows, s, t, d)
    ensures d < |rows|
  {
    NearGrows(rows, s, t, d, d);
    var all := Below(|rows|);
    Fits(Near(rows, s, d), all);
  }

  /** Site `t` is reached from `s`. */
  ghost predicate Reached(rows: Rows, s: nat, t: nat)
    requires WellFormed(rows) && s < |rows|
  {
    exists k: nat :: InCone(rows, t, k, s)
  }

  /** An uncapped search records every distance, and `-1` exactly where nothing is reached. */
  lemma WholeSearch(rows: Rows, s: nat, dist: seq<int>, t: nat)
    requires WellFormed(rows) && s < |rows| && t < |rows|
    requires Walked(rows, s, dist, |rows|) && Exact(rows, Nothing, s, dist, |rows|)
    ensures dist[t] != -1 ==> dist[t] >= 0 && Distance(rows, s, t, dist[t])
    ensures dist[t] == -1 <==> !Reached(rows, s, t)
  {
    hide InCone, WellFormed;
    if dist[t] != -1 {
      var k := dist[t];
      assert k >= 0 && InCone(rows, t, k, s);
      assert Reached(rows, s, t);
    }
    if Reached(rows, s, t) {
      var k: nat :| InCone(rows, t, k, s);
      var d := DistanceExists(rows, s, t, k);
      DistanceBelowSize(rows, s, t, d);
      assert dist[t] == d;
    }
  }
}
