/** Components of a port graph by union-find with path halving. */
module UnionFind {
  import opened Basics

  type Seam = (nat, nat)

  /** No seam is listed twice. */
  predicate Unrepeated(seams: seq<Seam>)
  {
    forall i, j :: 0 <= i < j < |seams| ==> seams[i] != seams[j]
  }

  // ----- linked ports

  predicate Joined(seams: seq<Seam>, u: nat, v: nat)
  {
    (u, v) in seams || (v, u) in seams
  }

  ghost predicate Walk(seams: seq<Seam>, w: seq<nat>)
  {
    |w| > 0 && forall k :: 0 <= k < |w| - 1 ==> Joined(seams, w[k], w[k + 1])
  }

  ghost predicate WalkFrom(seams: seq<Seam>, w: seq<nat>, x: nat, y: nat)
  {
    Walk(seams, w) && w[0] == x && w[|w| - 1] == y
  }

  /** Some walk along seams joins the two ports. */
  ghost predicate Linked(seams: seq<Seam>, x: nat, y: nat)
  {
    exists w :: WalkFrom(seams, w, x, y)
  }

  lemma LinkedSelf(seams: seq<Seam>, x: nat)
    ensures Linked(seams, x, x)
  {
    assert WalkFrom(seams, [x], x, x);
  }

  lemma LinkedJoined(seams: seq<Seam>, x: nat, y: nat)
    requires Joined(seams, x, y)
    ensures Linked(seams, x, y)
  {
    assert WalkFrom(seams, [x, y], x, y);
  }

  lemma LinkedThrough(seams: seq<Seam>, x: nat, y: nat, z: nat)
    requires Linked(seams, x, y) && Linked(seams, y, z)
    ensures Linked(seams, x, z)
  {
    var v :| WalkFrom(seams, v, x, y);
    var w :| WalkFrom(seams, w, y, z);
    var u := v + w[1..];
    forall k | 0 <= k < |u| - 1
      ensures Joined(seams, u[k], u[k + 1])
    {
      if k >= |v| - 1 {
        assert u[k + 1] == w[k - |v| + 2];
        assert u[k] == w[k - |v| + 1];
        assert Joined(seams, w[k - |v| + 1], w[k - |v| + 1 + 1]);
      }
    }
    assert WalkFrom(seams, u, x, z);
  }

  lemma LinkedMore(seams: seq<Seam>, s: Seam, x: nat, y: nat)
    requires Linked(seams, x, y)
    ensures Linked(seams + [s], x, y)
  {
    var w :| WalkFrom(seams, w, x, y);
    assert WalkFrom(seams + [s], w, x, y);
  }

  // ----- parents

  /** Parents never lie above their children. */
  predicate Forest(p: seq<nat>)
  {
    forall a :: 0 <= a < |p| ==> p[a] <= a
  }

  ghost function Root(p: seq<nat>, a: nat): (r: nat)
    requires Forest(p) && a < |p|
    ensures r <= a && p[r] == r
    decreases a
  {
    if p[a] == a then a else Root(p, p[a])
  }

  ghost predicate SameRoots(p: seq<nat>, q: seq<nat>)
  {
    Forest(p) && Forest(q) && |p| == |q| && forall x: nat :: x < |p| ==> Root(q, x) == Root(p, x)
  }

  /** Pointing a port at its grandparent changes no root. */
  lemma {:induction false} HalvingKeepsRoot(p: seq<nat>, a: nat, x: nat)
    requires Forest(p) && a < |p| && x < |p|
    ensures Forest(p[a := p[p[a]]]) && Root(p[a := p[p[a]]], x) == Root(p, x)
    decreases x
  {
    var q := p[a := p[p[a]]];
    if q[x] != x {
      HalvingKeepsRoot(p, a, q[x]);
    }
  }

  /** Hanging one root below another moves exactly its ports. */
  lemma {:induction false} UnionMovesRoot(p: seq<nat>, lo: nat, hi: nat, x: nat)
    requires Forest(p) && lo < hi < |p| && p[lo] == lo && p[hi] == hi && x < |p|
    ensures Forest(p[hi := lo]) && Root(p[hi := lo], x) == if Root(p, x) == hi then lo else Root(p, x)
    decreases x
  {
    var q := p[hi := lo];
    if p[x] != x {
      UnionMovesRoot(p, lo, hi, p[x]);
    } else if x == hi {
      assert Root(q, lo) == lo;
    }
  }

  method Find(parent: array<nat>, start: nat) returns (a: nat)
    requires start < parent.Length && Forest(parent[..])
    modifies parent
    ensures SameRoots(old(parent[..]), parent[..])
    ensures a == Root(parent[..], start)
  {
    a := start;
    ghost var p := parent[..];
    while parent[a] != a
      invariant a < parent.Length && SameRoots(p, parent[..]) && Root(parent[..], a) == Root(p, start)
      decreases a
    {
      ghost var q := parent[..];
      forall x: nat | x < |q|
        ensures Forest(q[a := q[q[a]]]) && Root(q[a := q[q[a]]], x) == Root(q, x)
      {
        HalvingKeepsRoot(q, a, x);
      }
      parent[a] := parent[parent[a]];
      assert parent[..] == q[a := q[q[a]]];
      a := parent[a];
    }
  }

  /** Two ports have one root exactly when the seams link them. */
  ghost predicate Partitions(p: seq<nat>, seams: seq<Seam>)
  {
    Forest(p) && forall x: nat, y: nat :: x < |p| && y < |p| ==> (Root(p, x) == Root(p, y) <==> Linked(seams, x, y))
  }

  lemma PartitionsStart(p: seq<nat>)
    requires forall a :: 0 <= a < |p| ==> p[a] == a
    ensures Partitions(p, [])
  {
    forall x: nat, y: nat | x < |p| && y < |p|
      ensures Root(p, x) == Root(p, y) <==> Linked([], x, y)
    {
      LinkedSelf([], x);
      if Linked([], x, y) {
        var w :| WalkFrom([], w, x, y);
        assert |w| > 1 ==> Joined([], w[0], w[0 + 1]);
      }
    }
  }

  lemma PartitionsSame(p: seq<nat>, q: seq<nat>, seams: seq<Seam>)
    requires Partitions(p, seams) && SameRoots(p, q)
    ensures Partitions(q, seams)
  {
    hide Linked, Root, Forest;
    forall x: nat, y: nat | x < |q| && y < |q|
      ensures Root(q, x) == Root(q, y) <==> Linked(seams, x, y)
    {
      assert Root(q, x) == Root(p, x) && Root(q, y) == Root(p, y);
    }
  }

  lemma {:induction false} RootAlongWalk(q: seq<nat>, seams: seq<Seam>, w: seq<nat>)
    requires Forest(q) && Walk(seams, w) && w[0] < |q|
    requires forall s :: s in seams ==> s.0 < |q| && s.1 < |q|
    requires forall u: nat, v: nat :: u < |q| && v < |q| && Joined(seams, u, v) ==> Root(q, u) == Root(q, v)
    ensures w[|w| - 1] < |q| && Root(q, w[0]) == Root(q, w[|w| - 1])
    decreases |w|
  {
    hide Root;
    if |w| > 1 {
      RootAlongWalk(q, seams, w[..|w| - 1]);
      assert Joined(seams, w[|w| - 2], w[|w| - 2 + 1]);
      assert (w[|w| - 2], w[|w| - 1]) in seams || (w[|w| - 1], w[|w| - 2]) in seams;
    }
  }

  /** A seam whose ends get one root adds exactly its links. */
  lemma PartitionsSeam(p: seq<nat>, q: seq<nat>, seams: seq<Seam>, i: nat, j: nat)
    requires Partitions(p, seams) && Forest(q) && |q| == |p| && i < |p| && j < |p|
    requires forall s :: s in seams ==> s.0 < |p| && s.1 < |p|
    requires forall x: nat, y: nat :: x < |p| && y < |p| ==>
      (Root(q, x) == Root(q, y) <==>
        Root(p, x) == Root(p, y) || (InEnds(p, i, j, x) && InEnds(p, i, j, y)))
    ensures Partitions(q, seams + [(i, j)])
  {
    hide Root, Linked, Forest;
    var more := seams + [(i, j)];
    forall u: nat, v: nat | u < |q| && v < |q| && Joined(more, u, v)
      ensures Root(q, u) == Root(q, v)
    {
      if Joined(seams, u, v) {
        LinkedJoined(seams, u, v);
      }
    }
    forall x: nat, y: nat | x < |q| && y < |q|
      ensures Root(q, x) == Root(q, y) <==> Linked(more, x, y)
    {
      if Linked(more, x, y) {
        var w := SomeWalk(more, x, y);
        RootAlongWalk(q, more, w);
      }
      if Root(q, x) == Root(q, y) {
        if Root(p, x) == Root(p, y) {
          LinkedMore(seams, (i, j), x, y);
        } else {
          LinkAcross(p, seams, i, j, x, y);
        }
      }
    }
  }

  ghost predicate InEnds(p: seq<nat>, i: nat, j: nat, x: nat)
    requires Forest(p) && i < |p| && j < |p| && x < |p|
  {
    Root(p, x) == Root(p, i) || Root(p, x) == Root(p, j)
  }

  lemma SomeWalk(seams: seq<Seam>, x: nat, y: nat) returns (w: seq<nat>)
    requires Linked(seams, x, y)
    ensures WalkFrom(seams, w, x, y)
  {
    w :| WalkFrom(seams, w, x, y);
  }

  lemma LinkAcross(p: seq<nat>, seams: seq<Seam>, i: nat, j: nat, x: nat, y: nat)
    requires Partitions(p, seams) && i < |p| && j < |p| && x < |p| && y < |p|
    requires InEnds(p, i, j, x) && InEnds(p, i, j, y) && Root(p, x) != Root(p, y)
    ensures Linked(seams + [(i, j)], x, y)
  {
    hide Root, Linked, Forest;
    var more := seams + [(i, j)];
    var u, v := if Root(p, x) == Root(p, i) then i else j, if Root(p, x) == Root(p, i) then j else i;
    assert Linked(seams, x, u) && Linked(seams, v, y);
    LinkedMore(seams, (i, j), x, u);
    LinkedMore(seams, (i, j), v, y);
    assert (i, j) in more;
    LinkedJoined(more, u, v);
    LinkedThrough(more, x, u, v);
    LinkedThrough(more, x, v, y);
  }

  lemma SeamAlready(p: seq<nat>, seams: seq<Seam>, i: nat, j: nat)
    requires Partitions(p, seams) && i < |p| && j < |p| && Root(p, i) == Root(p, j)
    requires forall s :: s in seams ==> s.0 < |p| && s.1 < |p|
    ensures Partitions(p, seams + [(i, j)])
  {
    hide Root, Linked, Forest;
    PartitionsSeam(p, p, seams, i, j);
  }

  lemma SeamJoins(p: seq<nat>, seams: seq<Seam>, i: nat, j: nat, lo: nat, hi: nat)
    requires Partitions(p, seams) && i < |p| && j < |p| && lo < hi
    requires (lo == Root(p, i) && hi == Root(p, j)) || (lo == Root(p, j) && hi == Root(p, i))
    requires forall s :: s in seams ==> s.0 < |p| && s.1 < |p|
    ensures hi < |p| && Partitions(p[hi := lo], seams + [(i, j)])
  {
    hide Linked;
    forall x: nat | x < |p|
      ensures Forest(p[hi := lo]) && Root(p[hi := lo], x) == if Root(p, x) == hi then lo else Root(p, x)
    {
      UnionMovesRoot(p, lo, hi, x);
    }
    PartitionsSeam(p, p[hi := lo], seams, i, j);
  }

  /** Link the ends of every seam. */
  method LinkSeams(ports: nat, seams: seq<Seam>) returns (parent: array<nat>)
    requires forall s :: s in seams ==> s.0 < ports && s.1 < ports
    ensures fresh(parent) && parent.Length == ports && Partitions(parent[..], seams)
  {
    hide Partitions, Root, Forest, SameRoots;
    parent := new nat[ports](a => a);
    PartitionsStart(parent[..]);
    assert seams[..0] == [];
    for k := 0 to |seams|
      invariant fresh(parent) && parent.Length == ports && Partitions(parent[..], seams[..k])
    {
      assert seams[k] in seams;
      var (i, j) := seams[k];
      ghost var p := parent[..];
      PartitionsForest(p, seams[..k]);
      var ri := Find(parent, i);
      PartitionsSame(p, parent[..], seams[..k]);
      ghost var q := parent[..];
      PartitionsForest(q, seams[..k]);
      var rj := Find(parent, j);
      PartitionsSame(q, parent[..], seams[..k]);
      SameRootAt(q, parent[..], i);
      assert seams[..k + 1] == seams[..k] + [(i, j)];
      ghost var r := parent[..];
      if ri != rj {
        var lo, hi := if ri < rj then ri else rj, if ri < rj then rj else ri;
        SeamJoins(r, seams[..k], i, j, lo, hi);
        parent[hi] := lo;
        assert parent[..] == r[hi := lo];
      } else {
        SeamAlready(r, seams[..k], i, j);
      }
    }
    assert seams[..|seams|] == seams;
  }

  lemma PartitionsForest(p: seq<nat>, seams: seq<Seam>)
    requires Partitions(p, seams)
    ensures Forest(p)
  {
  }

  lemma SameRootAt(p: seq<nat>, q: seq<nat>, x: nat)
    requires SameRoots(p, q) && x < |p|
    ensures Forest(p) && Forest(q) && |p| == |q| && Root(q, x) == Root(p, x)
  {
  }

  // ----- components

  /** The ports below `n` with root `r`, ascending. */
  ghost function Class(p: seq<nat>, r: nat, n: nat): (g: seq<nat>)
    requires Forest(p) && n <= |p|
    ensures Increasing(g) && forall x: nat :: x in g <==> x < n && Root(p, x) == r
    decreases n
  {
    if n == 0 then [] else
      var g := Class(p, r, n - 1);
      assert forall i :: 0 <= i < |g| ==> g[i] in g;
      if Root(p, n - 1) == r then g + [n - 1] else g
  }

  ghost predicate Grouped(p: seq<nat>, groups: map<nat, seq<nat>>, n: nat)
    requires Forest(p) && n <= |p|
  {
    forall r: nat :: (r in groups <==> Class(p, r, n) != []) && (r in groups ==> groups[r] == Class(p, r, n))
  }

  lemma {:induction false} ClassSame(p: seq<nat>, q: seq<nat>, r: nat, n: nat)
    requires SameRoots(p, q) && n <= |p|
    ensures Class(p, r, n) == Class(q, r, n)
    decreases n
  {
    hide Root;
    if n > 0 {
      ClassSame(p, q, r, n - 1);
    }
  }

  lemma GroupedSame(p: seq<nat>, q: seq<nat>, groups: map<nat, seq<nat>>, n: nat)
    requires SameRoots(p, q) && n <= |p| && Grouped(p, groups, n)
    ensures Grouped(q, groups, n)
  {
    hide Class;
    forall r: nat
      ensures Class(p, r, n) == Class(q, r, n)
    {
      ClassSame(p, q, r, n);
    }
  }

  lemma GroupedNext(p: seq<nat>, groups: map<nat, seq<nat>>, n: nat, r: nat)
    requires Forest(p) && n < |p| && Grouped(p, groups, n) && r == Root(p, n)
    ensures Grouped(p, groups[r := (if r in groups then groups[r] else []) + [n]], n + 1)
  {
    hide Root;
    var after := groups[r := (if r in groups then groups[r] else []) + [n]];
    forall s: nat
      ensures (s in after <==> Class(p, s, n + 1) != []) && (s in after ==> after[s] == Class(p, s, n + 1))
    {
      assert Class(p, s, n + 1) == if s == r then Class(p, s, n) + [n] else Class(p, s, n);
    }
  }

  method GroupPorts(parent: array<nat>) returns (groups: map<nat, seq<nat>>)
    requires Forest(parent[..])
    modifies parent
    ensures SameRoots(old(parent[..]), parent[..])
    ensures Grouped(parent[..], groups, parent.Length)
  {
    hide Grouped, Root, Forest, SameRoots;
    groups := map[];
    ghost var start := parent[..];
    RootsReflexive(start);
    GroupedNone(start);
    for x := 0 to parent.Length
      invariant SameRoots(start, parent[..]) && Forest(parent[..]) && Grouped(parent[..], groups, x)
    {
      ghost var p := parent[..];
      var r := Find(parent, x);
      SameRootAt(p, parent[..], x);
      RootsCompose(start, p, parent[..]);
      GroupedSame(p, parent[..], groups, x);
      GroupedNext(parent[..], groups, x, r);
      groups := groups[r := (if r in groups then groups[r] else []) + [x]];
    }
  }

  lemma GroupedNone(p: seq<nat>)
    requires Forest(p)
    ensures Grouped(p, map[], 0)
  {
  }

  lemma RootsReflexive(p: seq<nat>)
    requires Forest(p)
    ensures SameRoots(p, p)
  {
  }

  lemma RootsCompose(p: seq<nat>, q: seq<nat>, r: seq<nat>)
    requires SameRoots(p, q) && SameRoots(q, r)
    ensures SameRoots(p, r) && Forest(r)
  {
    hide Root;
    forall x: nat | x < |p|
      ensures Root(r, x) == Root(p, x)
    {
      assert Root(q, x) == Root(p, x);
    }
  }

  /** One component: ascending, and closed under links. */
  ghost predicate IsComponent(ports: nat, seams: seq<Seam>, g: seq<nat>)
  {
    && g != [] && Increasing(g)
    && forall x: nat, y: nat :: x in g ==> x < ports && (y in g <==> y < ports && Linked(seams, x, y))
  }

  ghost predicate Covered(comps: seq<seq<nat>>, x: nat)
  {
    exists c :: 0 <= c < |comps| && x in comps[c]
  }

  /** All components, by their least port. */
  ghost predicate AreComponents(ports: nat, seams: seq<Seam>, comps: seq<seq<nat>>)
  {
    && (forall c :: 0 <= c < |comps| ==> IsComponent(ports, seams, comps[c]))
    && (forall c, d :: 0 <= c < d < |comps| ==> comps[c] != [] && comps[d] != [] && comps[c][0] < comps[d][0])
    && forall x: nat :: x < ports ==> Covered(comps, x)
  }

  lemma ClassIsComponent(p: seq<nat>, seams: seq<Seam>, r: nat)
    requires Partitions(p, seams) && Class(p, r, |p|) != []
    ensures IsComponent(|p|, seams, Class(p, r, |p|)) && r < |p| && Class(p, r, |p|)[0] == r
  {
    hide Linked, Class;
    var g := Class(p, r, |p|);
    assert g[0] in g;
    RootOfRoot(p, g[0]);
    assert r in g;
    var i :| 0 <= i < |g| && g[i] == r;
  }

  lemma RootOfRoot(p: seq<nat>, x: nat)
    requires Forest(p) && x < |p|
    ensures Root(p, x) <= x && Root(p, Root(p, x)) == Root(p, x)
  {
  }

  /** The components listed so far: those with a root below `n`. */
  ghost predicate Listed(p: seq<nat>, seams: seq<Seam>, comps: seq<seq<nat>>, n: nat)
    requires Forest(p)
  {
    && (forall c :: 0 <= c < |comps| ==> IsComponent(|p|, seams, comps[c]) && comps[c][0] < n)
    && (forall c, d :: 0 <= c < d < |comps| ==> comps[c] != [] && comps[d] != [] && comps[c][0] < comps[d][0])
    && forall x: nat :: x < |p| && Root(p, x) < n ==> Covered(comps, x)
  }

  lemma ListedWith(p: seq<nat>, seams: seq<Seam>, comps: seq<seq<nat>>, n: nat, group: seq<nat>)
    requires Partitions(p, seams) && n < |p| && Listed(p, seams, comps, n)
    requires group == Class(p, n, |p|) && group != []
    ensures Listed(p, seams, comps + [group], n + 1)
  {
    hide Root, Linked, Forest;
    ClassIsComponent(p, seams, n);
    var more := comps + [group];
    forall x: nat | x < |p| && Root(p, x) < n + 1
      ensures Covered(more, x)
    {
      if Root(p, x) == n {
        assert x in more[|comps|];
      } else {
        assert Covered(comps, x);
        var c :| 0 <= c < |comps| && x in comps[c];
        assert x in more[c];
      }
    }
  }

  lemma ListedWithout(p: seq<nat>, seams: seq<Seam>, comps: seq<seq<nat>>, n: nat)
    requires Partitions(p, seams) && n < |p| && Listed(p, seams, comps, n) && Class(p, n, |p|) == []
    ensures Listed(p, seams, comps, n + 1)
  {
    hide Root, Linked, Forest;
    forall x: nat | x < |p|
      ensures Root(p, x) != n
    {
      assert x in Class(p, n, |p|) <==> Root(p, x) == n;
    }
  }

  lemma ListedNext(p: seq<nat>, seams: seq<Seam>, groups: map<nat, seq<nat>>, comps: seq<seq<nat>>, n: nat)
    requires Partitions(p, seams) && Grouped(p, groups, |p|) && n < |p| && Listed(p, seams, comps, n)
    ensures n in groups ==> Listed(p, seams, comps + [groups[n]], n + 1)
    ensures n !in groups ==> Listed(p, seams, comps, n + 1)
  {
    hide Root, Linked, Listed, Class;
    assert n in groups <==> Class(p, n, |p|) != [];
    if n in groups {
      ListedWith(p, seams, comps, n, groups[n]);
    } else {
      ListedWithout(p, seams, comps, n);
    }
  }

  lemma ListedAll(p: seq<nat>, seams: seq<Seam>, comps: seq<seq<nat>>)
    requires Forest(p) && Listed(p, seams, comps, |p|)
    ensures AreComponents(|p|, seams, comps)
  {
    hide Root, Linked;
    forall x: nat | x < |p|
      ensures Covered(comps, x)
    {
      RootOfRoot(p, x);
    }
  }

  /** The connected components of the seams; the least port of a group is its root. */
  method Components(ports: nat, seams: seq<Seam>) returns (comps: seq<seq<nat>>)
    requires forall s :: s in seams ==> s.0 < ports && s.1 < ports
    ensures AreComponents(ports, seams, comps)
  {
    hide Partitions, Root, Forest, Grouped, Listed, AreComponents;
    var parent := LinkSeams(ports, seams);
    ghost var q := parent[..];
    PartitionsForest(q, seams);
    var groups := GroupPorts(parent);
    ghost var p := parent[..];
    PartitionsSame(q, p, seams);
    PartitionsForest(p, seams);
    comps := [];
    ListedNone(p, seams);
    for r := 0 to ports
      invariant Listed(p, seams, comps, r)
    {
      ListedNext(p, seams, groups, comps, r);
      if r in groups {
        comps := comps + [groups[r]];
      }
    }
    ListedAll(p, seams, comps);
  }

  lemma ListedNone(p: seq<nat>, seams: seq<Seam>)
    requires Forest(p)
    ensures Listed(p, seams, [], 0)
  {
  }

  ghost predicate Connected(ports: nat, seams: seq<Seam>)
  {
    forall x: nat, y: nat :: x < ports && y < ports ==> Linked(seams, x, y)
  }

  lemma ComponentOfConnected(ports: nat, seams: seq<Seam>, g: seq<nat>)
    requires ports > 0 && Connected(ports, seams) && IsComponent(ports, seams, g)
    ensures g[0] == 0 && forall x: nat :: x in g <==> x < ports
  {
    hide Linked;
    assert g[0] in g;
    assert Linked(seams, g[0], 0);
    assert 0 in g;
    var i :| 0 <= i < |g| && g[i] == 0;
    assert i == 0;
    forall x: nat
      ensures x in g <==> x < ports
    {
      if x < ports {
        assert Linked(seams, g[0], x);
      }
    }
  }

  /** A connected graph has one component, all its ports. */
  lemma ConnectedIsOne(ports: nat, seams: seq<Seam>, comps: seq<seq<nat>>)
    requires ports > 0 && Connected(ports, seams) && AreComponents(ports, seams, comps)
    ensures |comps| == 1 && forall x: nat :: x in comps[0] <==> x < ports
  {
    hide Linked, Connected, IsComponent;
    assert Covered(comps, 0);
    assert |comps| > 1 ==> comps[0][0] < comps[1][0];
    forall d | 0 <= d < |comps|
      ensures comps[d] != [] ==> comps[d][0] == 0
      ensures forall x: nat :: x in comps[d] <==> x < ports
    {
      ComponentNonempty(ports, seams, comps[d]);
      ComponentOfConnected(ports, seams, comps[d]);
    }
    assert |comps| <= 1;
  }

  lemma ComponentNonempty(ports: nat, seams: seq<Seam>, g: seq<nat>)
    requires IsComponent(ports, seams, g)
    ensures g != []
  {
  }
}
