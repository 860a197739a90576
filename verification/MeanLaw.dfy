/** The seam-mean law over real readings: its two move engines and their agreement. */
module MeanLaw {
  import opened Basics
  import opened Federation

  function NeighbourSum(x: seq<real>, nbrs: seq<nat>): real
    requires forall k :: 0 <= k < |nbrs| ==> nbrs[k] < |x|
  {
    if nbrs == [] then 0.0 else NeighbourSum(x, nbrs[..|nbrs| - 1]) + x[nbrs[|nbrs| - 1]]
  }

  /** The tested change of the mismatch potential, in the engines' operation order. */
  function SeamSumChange(d: real, xi: real, xj: real, ni: real, nj: real, degi: real, degj: real): real
  {
    -d * ((degi * xi - ni) - (degj * xj - nj)) + (d * d) * ((degi + degj + 2.0) * 0.25)
  }

  /** The drop of the sum of squares under a mean move of mismatch `d`. */
  function HalfSquare(d: real): real { 0.5 * (d * d) }

  datatype MeanCounts = MeanCounts(waits: int, ledger: real, violations: int, raising: int) {
    function Plus(c: MeanCounts): MeanCounts
    {
      MeanCounts(waits + c.waits, ledger + c.ledger, violations + c.violations, raising + c.raising)
    }
  }

  const NOTHING := MeanCounts(0, 0.0, 0, 0)

  lemma PlusAssoc(a: MeanCounts, b: MeanCounts, c: MeanCounts)
    ensures a.Plus(b).Plus(c) == a.Plus(b.Plus(c))
  {
  }

  /** What an attempt at two readings with the given neighbour sums adds to the
      tally; a violation of strict descent never occurs. */
  function Score(xi: real, xj: real, ni: real, nj: real, degi: nat, degj: nat): MeanCounts
  {
    var d := xi - xj;
    if d == 0.0 then NOTHING.(waits := 1) else
      MeanCounts(0, HalfSquare(d), 0,
                 if SeamSumChange(d, xi, xj, ni, nj, degi as real, degj as real) > 0.0 then 1 else 0)
  }

  /** What an attempt on ports `i` and `j` adds to the tally. */
  ghost function Tick(g: PortGraph, x: seq<real>, i: nat, j: nat): MeanCounts
    requires g.Valid() && |x| == g.ports && i < |x| && j < |x|
  {
    Score(x[i], x[j], NeighbourSum(x, g.Neighbours(i)), NeighbourSum(x, g.Neighbours(j)),
          |g.Neighbours(i)|, |g.Neighbours(j)|)
  }

  function Mean(xi: real, xj: real): real { 0.5 * (xi + xj) }

  class MeanTally {
    var waits: int
    var ledger: real
    var descentViolations: int
    var phiRaisingMoves: int

    constructor ()
      ensures Value() == NOTHING
    {
      waits, ledger, descentViolations, phiRaisingMoves := 0, 0.0, 0, 0;
    }

    function Value(): MeanCounts
      reads this
    {
      MeanCounts(waits, ledger, descentViolations, phiRaisingMoves)
    }

    method Add(c: MeanCounts)
      modifies this
      ensures Value() == old(Value()).Plus(c)
    {
      waits := waits + c.waits;
      ledger := ledger + c.ledger;
      descentViolations := descentViolations + c.violations;
      phiRaisingMoves := phiRaisingMoves + c.raising;
    }
  }

  // ----- sequential meaning

  ghost predicate Schedule(g: PortGraph, ss: seq<nat>)
  {
    g.Valid() && forall k :: 0 <= k < |ss| ==> ss[k] < |g.a|
  }

  datatype Record = Record(x: seq<real>, counts: MeanCounts)

  ghost function Act(g: PortGraph, st: Record, i: nat, j: nat): (r: Record)
    requires g.Valid() && |st.x| == g.ports && i < |st.x| && j < |st.x|
    ensures |r.x| == |st.x|
  {
    var m := Mean(st.x[i], st.x[j]);
    Record(st.x[i := m][j := m], st.counts.Plus(Tick(g, st.x, i, j)))
  }

  /** The record after the attempts `lo, ..., hi - 1`. */
  ghost function Go(g: PortGraph, ss: seq<nat>, st: Record, lo: nat, hi: nat): (r: Record)
    requires Schedule(g, ss) && |st.x| == g.ports && lo <= hi <= |ss|
    ensures |r.x| == |st.x|
    decreases hi
  {
    if hi == lo then st else
      Act(g, Go(g, ss, st, lo, hi - 1), g.a[ss[hi - 1]], g.b[ss[hi - 1]])
  }

  lemma {:induction false} GoTwice(g: PortGraph, ss: seq<nat>, st: Record, lo: nat, mid: nat, hi: nat)
    requires Schedule(g, ss) && |st.x| == g.ports && lo <= mid <= hi <= |ss|
    ensures Go(g, ss, Go(g, ss, st, lo, mid), mid, hi) == Go(g, ss, st, lo, hi)
    decreases hi
  {
    hide Act;
    if mid < hi {
      GoTwice(g, ss, st, lo, mid, hi - 1);
    } else {
      GoNone(g, ss, Go(g, ss, st, lo, mid), mid);
    }
  }

  lemma GoNone(g: PortGraph, ss: seq<nat>, st: Record, lo: nat)
    requires Schedule(g, ss) && |st.x| == g.ports && lo <= |ss|
    ensures Go(g, ss, st, lo, lo) == st
  {
  }

  // ----- the reference engine

  /** The sum of the readings of a list of ports, in list order. */
  method SumNeighbours(x: array<real>, nbrs: seq<nat>) returns (total: real)
    requires forall k :: 0 <= k < |nbrs| ==> nbrs[k] < x.Length
    ensures total == NeighbourSum(x[..], nbrs)
  {
    total := 0.0;
    for k := 0 to |nbrs|
      invariant total == NeighbourSum(x[..], nbrs[..k])
    {
      assert nbrs[..k + 1][..k] == nbrs[..k];
      total := total + x[nbrs[k]];
    }
    assert nbrs[..|nbrs|] == nbrs;
  }

  lemma HalfSquarePositive(d: real, s: real)
    requires d != 0.0 && s == HalfSquare(d)
    ensures s > 0.0
  {
    SquarePositive(d, 2.0 * s);
  }

  /** One attempt, from its readings and neighbour sums. */
  method Resolve(xi: real, xj: real, ni: real, nj: real, degi: nat, degj: nat) returns (m: real, tick: MeanCounts)
    ensures m == Mean(xi, xj) && tick == Score(xi, xj, ni, nj, degi, degj)
  {
    hide SeamSumChange, HalfSquare;
    m, tick := 0.5 * (xi + xj), NOTHING;
    var d := xi - xj;
    if d == 0.0 {
      tick := tick.(waits := 1);
    } else {
      var halfSq := HalfSquare(d);
      HalfSquarePositive(d, halfSq);
      if !(halfSq > 0.0) {
        tick := tick.(violations := 1);
      }
      tick := tick.(ledger := halfSq);
      var delta := SeamSumChange(d, xi, xj, ni, nj, degi as real, degj as real);
      if delta > 0.0 {
        tick := tick.(raising := 1);
      }
    }
  }

  method WriteBoth(x: array<real>, i: nat, j: nat, m: real)
    requires i < x.Length && j < x.Length
    modifies x
    ensures x[..] == old(x[..])[i := m][j := m]
  {
    x[i] := m;
    x[j] := m;
  }

  lemma WaitIsIdentity(g: PortGraph, st: Record, i: nat, j: nat)
    requires g.Valid() && |st.x| == g.ports && i < |st.x| && j < |st.x| && st.x[i] == st.x[j]
    ensures Act(g, st, i, j).x == st.x
  {
  }

  method MeanMovesPython(x: array<real>, g: PortGraph, ss: seq<nat>, tally: MeanTally)
    requires Schedule(g, ss) && x.Length == g.ports
    modifies x, tally
    ensures var end := Go(g, ss, Record(old(x[..]), old(tally.Value())), 0, |ss|);
            x[..] == end.x && tally.Value() == end.counts
  {
    hide Score, Mean, NeighbourSum;
    ghost var st := Record(x[..], tally.Value());
    for t := 0 to |ss|
      invariant st == Go(g, ss, Record(old(x[..]), old(tally.Value())), 0, t)
      invariant x[..] == st.x && tally.Value() == st.counts
    {
      var i, j := g.a[ss[t]], g.b[ss[t]];
      var xi, xj := x[i], x[j];
      var ni := SumNeighbours(x, g.Neighbours(i));
      var nj := SumNeighbours(x, g.Neighbours(j));
      var m, tick := Resolve(xi, xj, ni, nj, |g.Neighbours(i)|, |g.Neighbours(j)|);
      tally.Add(tick);
      if xi == xj {
        WaitIsIdentity(g, st, i, j);
      } else {
        WriteBoth(x, i, j, m);
      }
      st := Act(g, st, i, j);
    }
  }
}
