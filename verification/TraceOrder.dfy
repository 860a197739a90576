/** The log of a layered run generates exactly the layered order of its read relation. */
module TraceOrder {
  import opened Indexing
  import opened ReadNet
  import opened EventOrder

  /** Round `j` reads version `j`, which round `j - 1` wrote; round `0` reads nothing. */
  function TraceEvent(rows: Rows, j: nat, i: nat): Event
    requires i < |rows|
  {
    Event((i, j + 1), if j == 0 then [] else seq(|rows[i]|, k requires 0 <= k < |rows[i]| => (rows[i][k], j)))
  }

  function Trace(rows: Rows, rounds: nat): (log: Log)
    ensures |log| == (rounds + 1) * |rows|
  {
    seq((rounds + 1) * |rows|, e requires 0 <= e < (rounds + 1) * |rows| =>
      TraceEvent(rows, Major(|rows|, e), Minor(|rows|, e)))
  }

  lemma TraceAt(rows: Rows, rounds: nat, j: nat, i: nat)
    requires i < |rows| && j <= rounds
    ensures Id(|rows|, j, i) < |Trace(rows, rounds)|
    ensures Trace(rows, rounds)[Id(|rows|, j, i)] == TraceEvent(rows, j, i)
  {
    IdRange(|rows|, rounds, j, i);
    IdSplits(|rows|, j, i);
  }

  lemma InTrace(rows: Rows, rounds: nat, e: nat) returns (j: nat, i: nat)
    requires e < |Trace(rows, rounds)|
    ensures i < |rows| && j <= rounds && e == Id(|rows|, j, i)
    ensures Trace(rows, rounds)[e] == TraceEvent(rows, j, i)
  {
    assert |rows| > 0;
    j, i := Major(|rows|, e), Minor(|rows|, e);
    IdJoins(|rows|, e);
    IdRange(|rows|, rounds, j, i);
    TraceAt(rows, rounds, j, i);
  }

  /** The edges of the log join neighbouring rounds along the read relation. */
  lemma TraceEdge(rows: Rows, rounds: nat, j: nat, s: nat, j': nat, t: nat)
    requires s < |rows| && t < |rows| && j <= rounds && j' <= rounds
    ensures Edge(Trace(rows, rounds), Id(|rows|, j, s), Id(|rows|, j', t)) <==> j' == j + 1 && s in rows[t]
  {
    hide Trace, Id;
    TraceAt(rows, rounds, j, s);
    TraceAt(rows, rounds, j', t);
    var e := TraceEvent(rows, j', t);
    if j' == j + 1 && s in rows[t] {
      var k :| 0 <= k < |rows[t]| && rows[t][k] == s;
      assert e.inputs[k] == (s, j + 1);
    }
    if (s, j + 1) in e.inputs {
      var k :| 0 <= k < |e.inputs| && e.inputs[k] == (s, j + 1);
      assert rows[t][k] == s;
    }
  }

  /** Every version has one writer and every read resolves: the log is sound. */
  lemma TraceIsSound(rows: Rows, rounds: nat)
    requires WellFormed(rows)
    ensures Sound(Trace(rows, rounds))
  {
    hide Trace, Id;
    var log := Trace(rows, rounds);
    forall p, q | 0 <= p < q < |log|
      ensures log[p].write != log[q].write
    {
      var j, i := InTrace(rows, rounds, p);
      var j', i' := InTrace(rows, rounds, q);
    }
    forall e | 0 <= e < |log|
      ensures ResolvesBelow(log, e, |log[e].inputs|)
    {
      var j, i := InTrace(rows, rounds, e);
      forall k | 0 <= k < |log[e].inputs|
        ensures Resolves(log, e, log[e].inputs[k])
      {
        var u := rows[i][k];
        TraceAt(rows, rounds, j - 1, u);
        Earlier(|rows|, j - 1, u, j, i);
        assert log[Id(|rows|, j - 1, u)].write == log[e].inputs[k];
      }
    }
  }

  lemma Earlier(n: nat, j: nat, u: nat, j': nat, i: nat)
    requires u < n && j < j'
    ensures Id(n, j, u) < Id(n, j', i)
  {
    Farther(n, j, j');
  }

  // ----- the order

  /** A chain climbs one round per edge and stays in the cone of its first site. */
  lemma {:induction false} ChainInCone(rows: Rows, rounds: nat, w: seq<nat>, j: nat, s: nat) returns (t: nat)
    requires WellFormed(rows) && s < |rows| && j <= rounds
    requires Chain(Trace(rows, rounds), w) && w[0] == Id(|rows|, j, s)
    ensures t < |rows| && j + |w| - 1 <= rounds
    ensures w[|w| - 1] == Id(|rows|, j + |w| - 1, t) && InCone(rows, s, |w| - 1, t)
    decreases |w|
  {
    hide Trace, Id, Edge;
    if |w| == 1 {
      t := s;
    } else {
      var last := |w| - 1;
      var u := ChainInCone(rows, rounds, w[..last], j, s);
      assert Edge(Trace(rows, rounds), w[last - 1], w[last - 1 + 1]);
      var j', i := InTrace(rows, rounds, w[last]);
      TraceEdge(rows, rounds, j + last - 1, u, j', i);
      t := i;
      ConeStep(rows, s, last - 1, u, t);
    }
  }

  lemma {:induction false} ConeHasChain(rows: Rows, rounds: nat, j: nat, s: nat, k: nat, t: nat) returns (w: seq<nat>)
    requires WellFormed(rows) && s < |rows| && t < |rows| && j + k <= rounds && InCone(rows, s, k, t)
    ensures ChainBetween(Trace(rows, rounds), w, Id(|rows|, j, s), Id(|rows|, j + k, t)) && |w| == k + 1
    decreases k
  {
    hide Trace, Id, Edge;
    TraceAt(rows, rounds, j + k, t);
    if k == 0 {
      w := [Id(|rows|, j, s)];
    } else {
      var u := ConeBack(rows, s, k, t);
      var v := ConeHasChain(rows, rounds, j, s, k - 1, u);
      TraceEdge(rows, rounds, j + k - 1, u, j + k, t);
      w := v + [Id(|rows|, j + k, t)];
    }
  }

  /** The generated order is the layered order: strictly below means in the cone of an earlier round. */
  lemma OrderIsLayered(rows: Rows, rounds: nat, j: nat, s: nat, j': nat, t: nat)
    requires WellFormed(rows) && s < |rows| && t < |rows| && j <= rounds && j' <= rounds
    ensures Precedes(Trace(rows, rounds), Id(|rows|, j, s), Id(|rows|, j', t)) <==>
            j < j' && InCone(rows, s, j' - j, t)
  {
    hide Trace, Id, Chain;
    var log, p, e := Trace(rows, rounds), Id(|rows|, j, s), Id(|rows|, j', t);
    if Precedes(log, p, e) {
      var w :| ChainBetween(log, w, p, e) && |w| > 1;
      ChainNonempty(log, w);
      var t' := ChainInCone(rows, rounds, w, j, s);
      IdSplits(|rows|, j', t);
      IdSplits(|rows|, j + |w| - 1, t');
    }
    if j < j' && InCone(rows, s, j' - j, t) {
      var w := ConeHasChain(rows, rounds, j, s, j' - j, t);
    }
  }

  lemma ChainNonempty(log: Log, w: seq<nat>)
    requires Chain(log, w)
    ensures |w| > 0
  {
  }

  /** With self-reads: `(j, s)` is below `(j', t)`, or equal to it, exactly when `d(s, t) <= j' - j`. */
  lemma OrderIsDistance(rows: Rows, rounds: nat, j: nat, s: nat, j': nat, t: nat)
    requires WellFormed(rows) && SelfReads(rows) && s < |rows| && t < |rows| && j <= rounds && j' <= rounds
    ensures (Id(|rows|, j, s) == Id(|rows|, j', t)
        || Precedes(Trace(rows, rounds), Id(|rows|, j, s), Id(|rows|, j', t)))
            <==> j <= j' && DistanceAtMost(rows, s, t, j' - j)
  {
    hide Trace, Id, InCone, DistanceAtMost;
    OrderIsLayered(rows, rounds, j, s, j', t);
    IdSplits(|rows|, j, s);
    IdSplits(|rows|, j', t);
    if j <= j' {
      ConeIsBall(rows, s, j' - j, t);
    }
    if j == j' {
      ConeAtOnce(rows, s, t);
    }
  }

  lemma ConeAtOnce(rows: Rows, s: nat, t: nat)
    requires WellFormed(rows) && t < |rows|
    ensures InCone(rows, s, 0, t) <==> s == t
  {
  }

  // ----- ranks

  predicate NonemptyRows(rows: Rows)
  {
    forall i :: 0 <= i < |rows| ==> rows[i] != []
  }

  lemma {:induction false} SomeCone(rows: Rows, k: nat, t: nat) returns (s: nat)
    requires WellFormed(rows) && NonemptyRows(rows) && t < |rows|
    ensures s < |rows| && InCone(rows, s, k, t)
    decreases k
  {
    if k == 0 {
      s := t;
    } else {
      s := SomeCone(rows, k - 1, rows[t][0]);
      ConeStep(rows, s, k - 1, rows[t][0], t);
    }
  }

  /** The longest-path rank of an event is the round it ran in. */
  lemma RankIsRound(rows: Rows, rounds: nat, j: nat, t: nat, r: nat)
    requires WellFormed(rows) && NonemptyRows(rows) && t < |rows| && j <= rounds
    ensures LongestChain(Trace(rows, rounds), Id(|rows|, j, t), r) <==> r == j
  {
    hide Trace, Id, Chain, InCone;
    var log, e := Trace(rows, rounds), Id(|rows|, j, t);
    var s := SomeCone(rows, j, t);
    var v := ConeHasChain(rows, rounds, 0, s, j, t);
    assert ChainTo(log, v, e);
    forall w | ChainTo(log, w, e)
      ensures |w| <= j + 1
    {
      ChainNonempty(log, w);
      ChainStarts(log, w);
      var j', i := InTrace(rows, rounds, w[0]);
      var t' := ChainInCone(rows, rounds, w, j', i);
      IdSplits(|rows|, j, t);
      IdSplits(|rows|, j' + |w| - 1, t');
    }
  }

  lemma ChainStarts(log: Log, w: seq<nat>)
    requires Chain(log, w)
    ensures w[0] < |log|
  {
  }
}
