/** The neighbour lists of the golden sites, by per-axis candidates. */
module SiteGraph {
  import opened Basics
  import opened Indexing
  import opened ReadNet
  import opened NeighbourTests
  import GoldenMetric

  predicate InCube(q: nat, s: Label)
  {
    s.b1 < q && s.b2 < q && s.b3 < q
  }

  function Size(q: nat): nat { q * q * q }

  /** Sites in product order. */
  function Code(q: nat, s: Label): nat
  {
    Id(q, Id(q, s.b1, s.b2), s.b3)
  }

  function LabelOf(q: nat, i: nat): Label
    requires q > 0
  {
    Label(Major(q, Major(q, i)), Minor(q, Major(q, i)), Minor(q, i))
  }

  lemma CodeLabels(q: nat, s: Label)
    requires InCube(q, s)
    ensures LabelOf(q, Code(q, s)) == s && Code(q, s) < Size(q)
  {
    hide Id, Major, Minor;
    IdSplits(q, Id(q, s.b1, s.b2), s.b3);
    IdSplits(q, s.b1, s.b2);
    IdFits(q, q, s.b1, s.b2);
    IdFits(q, q * q, Id(q, s.b1, s.b2), s.b3);
  }

  lemma IdFits(n: nat, m: nat, j: nat, i: nat)
    requires i < n && j < m
    ensures Id(n, j, i) < m * n
  {
    IdRange(n, m - 1, j, i);
  }

  lemma LabelCodes(q: nat, i: nat)
    requires i < Size(q)
    ensures q > 0 && InCube(q, LabelOf(q, i)) && Code(q, LabelOf(q, i)) == i
  {
    assert q > 0;
    IdJoins(q, i);
    IdJoins(q, Major(q, i));
    var s := LabelOf(q, i);
    if s.b1 >= q {
      Farther(q, q - 1, s.b1);
      Farther(q, q * q - 1, Major(q, i));
    }
  }

  // ----- candidates

  ghost predicate Candidates(q: nat, b: nat, cand: seq<nat>)
  {
    Increasing(cand) && forall c: nat :: c in cand <==> c < q && AxisNear(q, b, c)
  }

  method AxisCandidates(q: nat, b: nat) returns (cand: seq<nat>)
    ensures Candidates(q, b, cand)
  {
    cand := [];
    for c := 0 to q
      invariant Increasing(cand)
      invariant forall i: nat :: i in cand <==> i < c && AxisNear(q, b, i)
    {
      if AxisNear(q, b, c) {
        IncreasingGrows(cand, c);
        cand := cand + [c];
      }
    }
  }

  /** The box positions visited so far. */
  predicate Visited(c1: seq<nat>, c2: seq<nat>, c3: seq<nat>, i: nat, j: nat, k: nat, t: Label)
    requires i <= |c1| && j <= |c2| && k <= |c3|
  {
    || (t.b1 in c1[..i] && t.b2 in c2 && t.b3 in c3)
    || (i < |c1| && t.b1 == c1[i] && t.b2 in c2[..j] && t.b3 in c3)
    || (i < |c1| && j < |c2| && t.b1 == c1[i] && t.b2 == c2[j] && t.b3 in c3[..k])
  }

  ghost predicate RowSoFar(q: nat, s: Label, c1: seq<nat>, c2: seq<nat>, c3: seq<nat>, i: nat, j: nat, k: nat,
                           row: seq<nat>)
    requires q > 0 && i <= |c1| && j <= |c2| && k <= |c3|
  {
    forall r: nat :: r in row <==>
      r < Size(q) && GoldenNeighbours(q, s, LabelOf(q, r)) && Visited(c1, c2, c3, i, j, k, LabelOf(q, r))
  }

  lemma VisitNext(c1: seq<nat>, c2: seq<nat>, c3: seq<nat>, i: nat, j: nat, k: nat, t: Label)
    requires i < |c1| && j < |c2| && k < |c3|
    ensures Visited(c1, c2, c3, i, j, k + 1, t) <==> Visited(c1, c2, c3, i, j, k, t) || t == Label(c1[i], c2[j], c3[k])
  {
    assert c3[..k + 1] == c3[..k] + [c3[k]];
  }

  lemma VisitColumn(c1: seq<nat>, c2: seq<nat>, c3: seq<nat>, i: nat, j: nat, t: Label)
    requires i < |c1| && j < |c2|
    ensures Visited(c1, c2, c3, i, j + 1, 0, t) <==> Visited(c1, c2, c3, i, j, |c3|, t)
  {
    assert c2[..j + 1] == c2[..j] + [c2[j]];
    assert c3[..|c3|] == c3;
  }

  lemma VisitPlane(c1: seq<nat>, c2: seq<nat>, c3: seq<nat>, i: nat, t: Label)
    requires i < |c1|
    ensures Visited(c1, c2, c3, i + 1, 0, 0, t) <==> Visited(c1, c2, c3, i, |c2|, 0, t)
  {
    assert c1[..i + 1] == c1[..i] + [c1[i]];
    assert c2[..|c2|] == c2;
  }

  lemma RowNext(q: nat, s: Label, c1: seq<nat>, c2: seq<nat>, c3: seq<nat>, i: nat, j: nat, k: nat, row: seq<nat>)
    requires q > 0 && i < |c1| && j < |c2| && k < |c3| && InCube(q, Label(c1[i], c2[j], c3[k]))
    requires RowSoFar(q, s, c1, c2, c3, i, j, k, row)
    ensures var t := Label(c1[i], c2[j], c3[k]);
      RowSoFar(q, s, c1, c2, c3, i, j, k + 1, if GoldenNeighbours(q, s, t) then row + [Code(q, t)] else row)
  {
    hide GoldenNeighbours, Visited, Code, LabelOf, Size;
    var t := Label(c1[i], c2[j], c3[k]);
    CodeLabels(q, t);
    forall r: nat | r < Size(q)
      ensures Visited(c1, c2, c3, i, j, k + 1, LabelOf(q, r)) <==>
        Visited(c1, c2, c3, i, j, k, LabelOf(q, r)) || r == Code(q, t)
    {
      VisitNext(c1, c2, c3, i, j, k, LabelOf(q, r));
      LabelCodes(q, r);
    }
  }

  lemma RowColumn(q: nat, s: Label, c1: seq<nat>, c2: seq<nat>, c3: seq<nat>, i: nat, j: nat, row: seq<nat>)
    requires q > 0 && i < |c1| && j < |c2| && RowSoFar(q, s, c1, c2, c3, i, j, |c3|, row)
    ensures RowSoFar(q, s, c1, c2, c3, i, j + 1, 0, row)
  {
    hide GoldenNeighbours, Visited, LabelOf, Size;
    forall r: nat | r < Size(q)
      ensures Visited(c1, c2, c3, i, j + 1, 0, LabelOf(q, r)) <==> Visited(c1, c2, c3, i, j, |c3|, LabelOf(q, r))
    {
      VisitColumn(c1, c2, c3, i, j, LabelOf(q, r));
    }
  }

  lemma RowPlane(q: nat, s: Label, c1: seq<nat>, c2: seq<nat>, c3: seq<nat>, i: nat, row: seq<nat>)
    requires q > 0 && i < |c1| && RowSoFar(q, s, c1, c2, c3, i, |c2|, 0, row)
    ensures RowSoFar(q, s, c1, c2, c3, i + 1, 0, 0, row)
  {
    hide GoldenNeighbours, Visited, LabelOf, Size;
    forall r: nat | r < Size(q)
      ensures Visited(c1, c2, c3, i + 1, 0, 0, LabelOf(q, r)) <==> Visited(c1, c2, c3, i, |c2|, 0, LabelOf(q, r))
    {
      VisitPlane(c1, c2, c3, i, LabelOf(q, r));
    }
  }

  ghost predicate IsRow(q: nat, s: Label, row: seq<nat>)
    requires q > 0
  {
    forall r: nat :: r in row <==> r < Size(q) && GoldenNeighbours(q, s, LabelOf(q, r))
  }

  lemma RowEnds(q: nat, s: Label, c1: seq<nat>, c2: seq<nat>, c3: seq<nat>, row: seq<nat>)
    requires q > 0 && RowSoFar(q, s, c1, c2, c3, |c1|, 0, 0, row)
    requires Candidates(q, s.b1, c1) && Candidates(q, s.b2, c2) && Candidates(q, s.b3, c3)
    ensures IsRow(q, s, row)
  {
    hide GoldenNeighbours, LabelOf, Size, AxisNear;
    assert c1[..|c1|] == c1;
    forall r: nat | r < Size(q) && GoldenNeighbours(q, s, LabelOf(q, r))
      ensures Visited(c1, c2, c3, |c1|, 0, 0, LabelOf(q, r))
    {
      BoxLosesNothing(q, s, LabelOf(q, r));
      LabelCodes(q, r);
    }
  }

  lemma RowStarts(q: nat, s: Label, c1: seq<nat>, c2: seq<nat>, c3: seq<nat>)
    requires q > 0
    ensures RowSoFar(q, s, c1, c2, c3, 0, 0, 0, [])
  {
  }

  // ----- ascending rows

  /** Where a list stands: its next entry, or the end of the axis. */
  function Next(q: nat, list: seq<nat>, i: nat): nat
    requires i <= |list|
  {
    if i < |list| then list[i] else q
  }

  lemma NextGrows(q: nat, b: nat, cand: seq<nat>, i: nat)
    requires Candidates(q, b, cand) && i < |cand|
    ensures cand[i] < q && cand[i] + 1 <= Next(q, cand, i + 1)
  {
    assert cand[i] in cand;
    if i + 1 < |cand| {
      assert cand[i + 1] in cand;
    }
  }

  /** Ascending, and all below a position still to come. */
  ghost predicate RowBelow(q: nat, row: seq<nat>, a: nat, b: nat, c: nat)
  {
    Increasing(row) && forall r :: r in row ==> r < Id(q, Id(q, a, b), c)
  }

  lemma IdMonotone(q: nat, a: nat, b: nat, c: nat, d: nat)
    requires a <= c && b <= d
    ensures Id(q, a, b) <= Id(q, c, d)
  {
    assert (c - a) * q >= 0;
    assert c * q == (c - a) * q + a * q;
  }

  lemma IdCarries(q: nat, a: nat)
    ensures Id(q, a, q) == Id(q, a + 1, 0)
  {
  }

  lemma BelowLater(q: nat, row: seq<nat>, a: nat, b: nat, c: nat, b': nat, c': nat)
    requires RowBelow(q, row, a, b, c) && b <= b' && c <= c'
    ensures RowBelow(q, row, a, b', c')
  {
    IdMonotone(q, a, b, a, b');
    IdMonotone(q, Id(q, a, b), c, Id(q, a, b'), c');
  }

  lemma BelowColumn(q: nat, row: seq<nat>, a: nat, b: nat, b': nat)
    requires RowBelow(q, row, a, b, q) && b + 1 <= b'
    ensures RowBelow(q, row, a, b', 0)
  {
    IdCarries(q, Id(q, a, b));
    assert Id(q, a, b) + 1 == Id(q, a, b + 1);
    IdMonotone(q, a, b + 1, a, b');
    IdMonotone(q, Id(q, a, b + 1), 0, Id(q, a, b'), 0);
  }

  lemma BelowPlane(q: nat, row: seq<nat>, a: nat, a': nat)
    requires RowBelow(q, row, a, q, 0) && a + 1 <= a'
    ensures RowBelow(q, row, a', 0, 0)
  {
    IdCarries(q, a);
    IdMonotone(q, a + 1, 0, a', 0);
    IdMonotone(q, Id(q, a + 1, 0), 0, Id(q, a', 0), 0);
  }

  lemma BelowGrows(q: nat, row: seq<nat>, s: Label, c: nat)
    requires RowBelow(q, row, s.b1, s.b2, s.b3) && s.b3 + 1 <= c
    ensures RowBelow(q, row + [Code(q, s)], s.b1, s.b2, c)
  {
    IncreasingGrows(row, Code(q, s));
    IdMonotone(q, Id(q, s.b1, s.b2), s.b3 + 1, Id(q, s.b1, s.b2), c);
  }

  /** The neighbours of one site: every box position is decided by the full sum. */
  method SiteRow(q: nat, s: Label, c1: seq<nat>, c2: seq<nat>, c3: seq<nat>) returns (row: seq<nat>)
    requires q > 0
    requires Candidates(q, s.b1, c1) && Candidates(q, s.b2, c2) && Candidates(q, s.b3, c3)
    ensures IsRow(q, s, row) && Increasing(row)
  {
    hide RowSoFar, GoldenNeighbours, Code, IsRow, AxisNear, RowBelow;
    row := [];
    NoRow(q, c1);
    RowStarts(q, s, c1, c2, c3);
    for i := 0 to |c1|
      invariant RowSoFar(q, s, c1, c2, c3, i, 0, 0, row) && RowBelow(q, row, Next(q, c1, i), 0, 0)
    {
      assert c1[i] in c1;
      NextGrows(q, s.b1, c1, i);
      BelowLater(q, row, c1[i], 0, 0, Next(q, c2, 0), 0);
      for j := 0 to |c2|
        invariant RowSoFar(q, s, c1, c2, c3, i, j, 0, row) && RowBelow(q, row, c1[i], Next(q, c2, j), 0)
      {
        assert c2[j] in c2;
        NextGrows(q, s.b2, c2, j);
        BelowLater(q, row, c1[i], c2[j], 0, c2[j], Next(q, c3, 0));
        for k := 0 to |c3|
          invariant RowSoFar(q, s, c1, c2, c3, i, j, k, row) && RowBelow(q, row, c1[i], c2[j], Next(q, c3, k))
        {
          assert c3[k] in c3;
          var t := Label(c1[i], c2[j], c3[k]);
          NextGrows(q, s.b3, c3, k);
          BelowGrows(q, row, t, Next(q, c3, k + 1));
          BelowLater(q, row, t.b1, t.b2, t.b3, t.b2, Next(q, c3, k + 1));
          RowNext(q, s, c1, c2, c3, i, j, k, row);
          if GoldenNeighbours(q, s, t) {
            row := row + [Code(q, t)];
          }
        }
        RowColumn(q, s, c1, c2, c3, i, j, row);
        BelowColumn(q, row, c1[i], c2[j], Next(q, c2, j + 1));
      }
      RowPlane(q, s, c1, c2, c3, i, row);
      BelowPlane(q, row, c1[i], Next(q, c1, i + 1));
    }
    RowEnds(q, s, c1, c2, c3, row);
    BelowIsIncreasing(q, row);
  }

  lemma NoRow(q: nat, c1: seq<nat>)
    ensures RowBelow(q, [], Next(q, c1, 0), 0, 0)
  {
  }

  lemma BelowIsIncreasing(q: nat, row: seq<nat>)
    requires RowBelow(q, row, q, 0, 0)
    ensures Increasing(row)
  {
  }

  /** The rows list exactly the neighbours. */
  ghost predicate IsSiteGraph(q: nat, rows: Rows)
    requires q > 0
  {
    |rows| == Size(q) && forall i: nat :: i < |rows| ==> IsRow(q, LabelOf(q, i), rows[i])
  }

  /** The place of a site in product order. */
  ghost function Place(q: nat, s: Label): nat { (s.b1 * q + s.b2) * q + s.b3 }

  lemma PlaceIsCode(q: nat, s: Label)
    ensures Place(q, s) == Code(q, s)
  {
  }

  /** `t` is in the row of `s` exactly when they are within distance `1 / sqrt q` in the unit cube. */
  ghost predicate ReadsExactly(q: nat, rows: Rows, s: Label, t: Label, r: real)
  {
    Place(q, s) < |rows| &&
    (Place(q, t) in rows[Place(q, s)] <==> q as real * GoldenMetric.SquareDistance(s, t, r) <= 1.0)
  }

  ghost predicate ReadsNear(q: nat, rows: Rows)
  {
    && |rows| == q * q * q
    && forall s: Label, t: Label, r: real ::
         InCube(q, s) && InCube(q, t) && GoldenMetric.Root5(r) ==> ReadsExactly(q, rows, s, t, r)
  }

  lemma RowReads(q: nat, rows: Rows, s: Label, t: Label, r: real)
    requires q > 0 && IsSiteGraph(q, rows) && InCube(q, s) && InCube(q, t) && GoldenMetric.Root5(r)
    ensures ReadsExactly(q, rows, s, t, r)
  {
    hide GoldenNeighbours, LabelOf, GoldenMetric.SquareDistance, Size, Code, Place;
    CodeLabels(q, s);
    CodeLabels(q, t);
    PlaceIsCode(q, s);
    PlaceIsCode(q, t);
    assert IsRow(q, LabelOf(q, Code(q, s)), rows[Code(q, s)]);
    GoldenMetric.NeighboursAreNear(q, s, t, r);
  }

  lemma SiteGraphReadsNear(q: nat, rows: Rows)
    requires q > 0 && IsSiteGraph(q, rows)
    ensures ReadsNear(q, rows)
  {
    hide IsRow, LabelOf, ReadsExactly;
    forall s: Label, t: Label, r: real | InCube(q, s) && InCube(q, t) && GoldenMetric.Root5(r)
      ensures ReadsExactly(q, rows, s, t, r)
    {
      RowReads(q, rows, s, t, r);
    }
  }

  method BuildSiteGraph(q: nat) returns (rows: Rows)
    requires q > 0
    ensures IsSiteGraph(q, rows) && forall i: nat :: i < |rows| ==> Increasing(rows[i])
    ensures ReadsNear(q, rows)
  {
    hide IsRow, AxisNear, LabelOf, ReadsNear;
    var cand: seq<seq<nat>> := [];
    for b := 0 to q
      invariant |cand| == b && forall i: nat :: i < b ==> Candidates(q, i, cand[i])
    {
      var c := AxisCandidates(q, b);
      cand := cand + [c];
    }
    rows := [];
    for i := 0 to Size(q)
      invariant |rows| == i && forall k: nat :: k < i ==> IsRow(q, LabelOf(q, k), rows[k]) && Increasing(rows[k])
    {
      var s := LabelOf(q, i);
      LabelCodes(q, i);
      var row := SiteRow(q, s, cand[s.b1], cand[s.b2], cand[s.b3]);
      rows := rows + [row];
    }
    SiteGraphReadsNear(q, rows);
  }

  /** The graph is a symmetric read relation with self-reads, and the record test decides the same rows. */
  lemma SiteGraphIsReadRelation(q: nat, rows: Rows)
    requires q > 0 && IsSiteGraph(q, rows)
    ensures WellFormed(rows) && SelfReads(rows) && Symmetric(rows)
    ensures forall i: nat, r: nat :: i < |rows| && r < |rows| ==>
      (r in rows[i] <==> RecordNeighbours(q, LabelOf(q, i), LabelOf(q, r)))
  {
    hide GoldenNeighbours, RecordNeighbours, LabelOf, Size;
    forall i: nat, r: nat | i < |rows| && r < |rows|
      ensures r in rows[i] <==> GoldenNeighbours(q, LabelOf(q, i), LabelOf(q, r))
    {
      assert IsRow(q, LabelOf(q, i), rows[i]);
    }
    forall i: nat, r: nat | i < |rows| && r < |rows|
      ensures r in rows[i] <==> RecordNeighbours(q, LabelOf(q, i), LabelOf(q, r))
      ensures i in rows[i] && (r in rows[i] <==> i in rows[r])
    {
      TestsAgree(q, LabelOf(q, i), LabelOf(q, r));
      ReadsAreMutual(q, LabelOf(q, i), LabelOf(q, r));
    }
    forall i, k | 0 <= i < |rows| && 0 <= k < |rows[i]|
      ensures rows[i][k] < |rows|
    {
      assert IsRow(q, LabelOf(q, i), rows[i]);
      assert rows[i][k] in rows[i];
    }
  }
}
