/** The fast strict-pair count equals the number of strictly ordered pairs of the generated order. */
module PairCount {
  import opened Basics
  import opened Indexing
  import opened Sums
  import opened ReadNet
  import opened EventOrder
  import opened TraceOrder
  import opened Search
  import opened PairWeights
  import opened PairHistogram
  import opened CentreInterval

  // ----- a finite relation by rows

  ghost function Bit(p: set<(nat, nat)>, e: nat): nat -> int
  {
    (f: nat) => One((e, f) in p)
  }

  ghost function Bits(p: set<(nat, nat)>, n: nat): nat -> int
  {
    (e: nat) => Sum(n, Bit(p, e))
  }

  ghost function RowOf(p: set<(nat, nat)>, e: nat, n: nat): set<(nat, nat)>
  {
    set x | x in p && x.0 == e && x.1 < n
  }

  ghost function RowsOf(p: set<(nat, nat)>, m: nat, n: nat): set<(nat, nat)>
  {
    set x | x in p && x.0 < m && x.1 < n
  }

  lemma {:induction false} CountRow(p: set<(nat, nat)>, e: nat, n: nat)
    ensures |RowOf(p, e, n)| == Sum(n, Bit(p, e))
  {
    if n == 0 {
      assert RowOf(p, e, n) == {};
    } else {
      CountRow(p, e, n - 1);
      if (e, n - 1) in p {
        assert RowOf(p, e, n) == RowOf(p, e, n - 1) + {(e, n - 1)};
      } else {
        assert RowOf(p, e, n) == RowOf(p, e, n - 1);
      }
    }
  }

  lemma {:induction false} CountRows(p: set<(nat, nat)>, m: nat, n: nat)
    ensures |RowsOf(p, m, n)| == Sum(m, Bits(p, n))
  {
    if m == 0 {
      assert RowsOf(p, m, n) == {};
    } else {
      CountRows(p, m - 1, n);
      CountRow(p, m - 1, n);
      RowsSplit(p, m - 1, n);
    }
  }

  lemma RowsSplit(p: set<(nat, nat)>, m: nat, n: nat)
    ensures |RowsOf(p, m + 1, n)| == |RowsOf(p, m, n)| + |RowOf(p, m, n)|
  {
    var a, b := RowsOf(p, m, n), RowOf(p, m, n);
    assert RowsOf(p, m + 1, n) == a + b;
    assert a * b == {};
  }

  // ----- sums over rounds and sites

  ghost function Shifted(g: nat -> int, n: nat, j: nat): nat -> int
  {
    (i: nat) => g(Id(n, j, i))
  }

  ghost function RoundSums(g: nat -> int, n: nat): nat -> int
  {
    (j: nat) => Sum(n, Shifted(g, n, j))
  }

  lemma {:induction false} SumRound(n: nat, j: nat, m: nat, g: nat -> int)
    ensures Sum(Id(n, j, m), g) == Sum(Id(n, j, 0), g) + Sum(m, Shifted(g, n, j))
  {
    if m > 0 {
      SumRound(n, j, m - 1, g);
      assert Id(n, j, m) == Id(n, j, m - 1) + 1;
    }
  }

  /** A sum over events is a sum over rounds and sites. */
  lemma {:induction false} SumByRounds(r: nat, n: nat, g: nat -> int)
    ensures Sum(r * n, g) == Sum(r, RoundSums(g, n))
  {
    if r > 0 {
      SumByRounds(r - 1, n, g);
      SumRound(n, r - 1, n, g);
      NextRound(n, r - 1);
    }
  }

  lemma NextRound(n: nat, j: nat)
    ensures Id(n, j, n) == (j + 1) * n && Id(n, j, 0) == j * n
  {
  }

  // ----- four-fold sums

  type Quad = (nat, nat, nat, nat) -> int

  ghost function Targets(q: Quad, j: nat, s: nat): (nat, nat) -> int { (j': nat, t: nat) => q(j, s, j', t) }
  ghost function Targets'(q: Quad, j: nat, s: nat): (nat, nat) -> int { (t: nat, j': nat) => q(j, s, j', t) }

  ghost function ByRound(q: Quad, r: nat, n: nat): (nat, nat) -> int
  {
    (j: nat, s: nat) => Sum(r, Lines(Targets(q, j, s), n))
  }

  ghost function BySite(q: Quad, r: nat, n: nat): (nat, nat) -> int
  {
    (s: nat, j: nat) => Sum(n, Lines(Targets'(q, j, s), r))
  }

  ghost function RoundThenTarget(q: Quad, r: nat, s: nat): (nat, nat) -> int
  {
    (j: nat, t: nat) => Sum(r, Line(Targets'(q, j, s), t))
  }

  ghost function TargetThenRound(q: Quad, r: nat, s: nat): (nat, nat) -> int
  {
    (t: nat, j: nat) => Sum(r, Line(Targets'(q, j, s), t))
  }

  ghost function BySites(q: Quad, r: nat, n: nat): nat -> int
  {
    (s: nat) => Sum(n, Lines(TargetThenRound(q, r, s), r))
  }

  /** Summing by rounds first or by sites first gives the same total. */
  lemma SumQuad(q: Quad, r: nat, n: nat)
    ensures Sum(r, Lines(ByRound(q, r, n), n)) == Sum(n, BySites(q, r, n))
  {
    forall j: nat, s: nat | j < r && s < n
      ensures ByRound(q, r, n)(j, s) == BySite(q, r, n)(s, j)
    {
      SwapTwo(r, n, Targets(q, j, s), Targets'(q, j, s));
    }
    SwapTwo(r, n, ByRound(q, r, n), BySite(q, r, n));
    forall s: nat | s < n
      ensures Lines(BySite(q, r, n), r)(s) == BySites(q, r, n)(s)
    {
      SiteTotal(q, r, n, s);
    }
    SumExt(n, Lines(BySite(q, r, n), r), BySites(q, r, n));
  }

  lemma SiteTotal(q: Quad, r: nat, n: nat, s: nat)
    ensures Sum(r, Line(BySite(q, r, n), s)) == Sum(n, Lines(TargetThenRound(q, r, s), r))
  {
    forall j: nat | j < r
      ensures Line(BySite(q, r, n), s)(j) == Lines(RoundThenTarget(q, r, s), n)(j)
    {
      SumExt(n, Lines(Targets'(q, j, s), r), Line(RoundThenTarget(q, r, s), j));
    }
    SumExt(r, Line(BySite(q, r, n), s), Lines(RoundThenTarget(q, r, s), n));
    SwapTwo(r, n, RoundThenTarget(q, r, s), TargetThenRound(q, r, s));
  }

  // ----- strict pairs of the centre interval

  ghost function PairQuad(rows: Rows, alpha: seq<int>, k: int): Quad
    requires WellFormed(rows) && |alpha| == |rows|
  {
    (j: nat, s: nat, j': nat, t: nat) =>
      if s < |rows| && t < |rows| then One(StrictPair(rows, alpha, k, j, s, j', t)) else 0
  }

  ghost function IntervalPairs(rows: Rows, centre: nat, rounds: nat, k: nat): set<(nat, nat)>
  {
    PairSet(Trace(rows, rounds), Id(|rows|, 0, centre), Id(|rows|, k, centre))
  }

  lemma PairIsStrict(rows: Rows, centre: nat, alpha: seq<int>, rounds: nat, k: nat, j: nat, s: nat, j': nat, t: nat)
    requires Net(rows, centre, alpha) && k <= rounds && j <= rounds && j' <= rounds && s < |rows| && t < |rows|
    ensures (Id(|rows|, j, s), Id(|rows|, j', t)) in IntervalPairs(rows, centre, rounds, k) <==>
            StrictPair(rows, alpha, k, j, s, j', t)
  {
    hide Trace, Id, InCone, Precedes, Inside, SelfReads, Symmetric, WellFormed;
    IntervalIsLayered(rows, centre, alpha, rounds, k, j, s);
    IntervalIsLayered(rows, centre, alpha, rounds, k, j', t);
    OrderIsLayered(rows, rounds, j, s, j', t);
    TraceAt(rows, rounds, j, s);
    TraceAt(rows, rounds, j', t);
  }

  lemma TargetsByRounds(rows: Rows, centre: nat, alpha: seq<int>, rounds: nat, k: nat, j: nat, s: nat)
    requires Net(rows, centre, alpha) && k <= rounds && j <= rounds && s < |rows|
    ensures Sum((rounds + 1) * |rows|, Bit(IntervalPairs(rows, centre, rounds, k), Id(|rows|, j, s))) ==
            Sum(rounds + 1, Lines(Targets(PairQuad(rows, alpha, k), j, s), |rows|))
  {
    hide Net, Id, StrictPair, WellFormed, IntervalPairs;
    NetParts(rows, centre, alpha);
    var r, n, q := rounds + 1, |rows|, PairQuad(rows, alpha, k);
    var bit := Bit(IntervalPairs(rows, centre, rounds, k), Id(n, j, s));
    SumByRounds(r, n, bit);
    forall j': nat | j' < r
      ensures RoundSums(bit, n)(j') == Lines(Targets(q, j, s), n)(j')
    {
      forall t: nat | t < n
        ensures Shifted(bit, n, j')(t) == Line(Targets(q, j, s), j')(t)
      {
        PairIsStrict(rows, centre, alpha, rounds, k, j, s, j', t);
      }
      SumExt(n, Shifted(bit, n, j'), Line(Targets(q, j, s), j'));
    }
    SumExt(r, RoundSums(bit, n), Lines(Targets(q, j, s), n));
  }

  lemma PairsInLog(rows: Rows, centre: nat, rounds: nat, k: nat)
    ensures RowsOf(IntervalPairs(rows, centre, rounds, k), (rounds + 1) * |rows|, (rounds + 1) * |rows|) ==
            IntervalPairs(rows, centre, rounds, k)
  {
    hide Id, PairInside;
  }

  lemma CountByRounds(rows: Rows, centre: nat, alpha: seq<int>, rounds: nat, k: nat)
    requires Net(rows, centre, alpha) && k <= rounds
    ensures |IntervalPairs(rows, centre, rounds, k)| ==
            Sum(rounds + 1, Lines(ByRound(PairQuad(rows, alpha, k), rounds + 1, |rows|), |rows|))
  {
    hide Net, Id, StrictPair, WellFormed, IntervalPairs, RowsOf;
    NetParts(rows, centre, alpha);
    var r, n, q := rounds + 1, |rows|, PairQuad(rows, alpha, k);
    var p := IntervalPairs(rows, centre, rounds, k);
    PairsInLog(rows, centre, rounds, k);
    CountRows(p, r * n, r * n);
    var bits := Bits(p, r * n);
    SumByRounds(r, n, bits);
    forall j: nat | j < r
      ensures RoundSums(bits, n)(j) == Lines(ByRound(q, r, n), n)(j)
    {
      forall s: nat | s < n
        ensures Shifted(bits, n, j)(s) == Line(ByRound(q, r, n), j)(s)
      {
        TargetsByRounds(rows, centre, alpha, rounds, k, j, s);
      }
      SumExt(n, Shifted(bits, n, j), Line(ByRound(q, r, n), j));
    }
    SumExt(r, RoundSums(bits, n), Lines(ByRound(q, r, n), n));
  }

  // ----- the weights of the support

  lemma SupportNext(alpha: seq<int>, h: int, i: nat, g: nat -> int)
    requires i < |alpha|
    ensures Tally(SupportBelow(alpha, h, i + 1), g) ==
            Tally(SupportBelow(alpha, h, i), g) + if alpha[i] <= h then g(i) else 0
  {
    if alpha[i] <= h {
      TallySnoc<nat>(SupportBelow(alpha, h, i), i, g);
    } else {
      assert SupportBelow(alpha, h, i + 1) == SupportBelow(alpha, h, i);
    }
  }

  lemma SupportNone(alpha: seq<int>, h: int, g: nat -> int)
    ensures Tally(SupportBelow(alpha, h, 0), g) == 0
  {
  }

  lemma {:induction false} SumOfSupport(alpha: seq<int>, h: int, i: nat, g: nat -> int)
    requires i <= |alpha| && forall s: nat :: s < i && alpha[s] > h ==> g(s) == 0
    ensures Tally(SupportBelow(alpha, h, i), g) == Sum(i, g)
  {
    hide SupportBelow, Tally;
    if i == 0 {
      SupportNone(alpha, h, g);
    } else {
      SumOfSupport(alpha, h, i - 1, g);
      SupportNext(alpha, h, i - 1, g);
    }
  }

  /** A site beyond half the rounds is in no interval. */
  lemma NoWeightOutside(rows: Rows, centre: nat, alpha: seq<int>, k: nat, rounds: nat, s: nat, t: nat)
    requires Net(rows, centre, alpha) && k <= rounds && s < |rows| && t < |rows|
    requires alpha[s] > rounds / 2 || alpha[t] > rounds / 2
    ensures PairWeight(rows, alpha, k, rounds, s, t) == 0
  {
    hide InCone;
    forall j: nat | j < rounds + 1
      ensures LowerPair(rows, alpha, k, rounds, s, t)(j) == 0
    {
      SumZero(rounds + 1, UpperPair(rows, alpha, k, j, s, t));
    }
    SumZero(rounds + 1, LowerPair(rows, alpha, k, rounds, s, t));
  }

  lemma WeightIsQuad(rows: Rows, alpha: seq<int>, k: nat, rounds: nat, s: nat, t: nat)
    requires WellFormed(rows) && |alpha| == |rows| && s < |rows| && t < |rows|
    ensures PairWeight(rows, alpha, k, rounds, s, t) ==
            Lines(TargetThenRound(PairQuad(rows, alpha, k), rounds + 1, s), rounds + 1)(t)
  {
    hide StrictPair, WellFormed;
    var r, q := rounds + 1, PairQuad(rows, alpha, k);
    forall j: nat | j < r
      ensures LowerPair(rows, alpha, k, rounds, s, t)(j) == Line(TargetThenRound(q, r, s), t)(j)
    {
      SumExt(r, UpperPair(rows, alpha, k, j, s, t), Line(Targets'(q, j, s), t));
    }
    SumExt(r, LowerPair(rows, alpha, k, rounds, s, t), Line(TargetThenRound(q, r, s), t));
  }

  lemma StartIsQuad(rows: Rows, centre: nat, alpha: seq<int>, k: nat, rounds: nat, s: nat)
    requires Net(rows, centre, alpha) && k <= rounds && s < |rows|
    ensures StartPairs(rows, alpha, k, rounds, Support(alpha, rounds / 2))(s) ==
            BySites(PairQuad(rows, alpha, k), rounds + 1, |rows|)(s)
    ensures alpha[s] > rounds / 2 ==> BySites(PairQuad(rows, alpha, k), rounds + 1, |rows|)(s) == 0
  {
    hide Net, StrictPair, WellFormed, PairWeight, PairQuad;
    NetParts(rows, centre, alpha);
    var n, r, q := |rows|, rounds + 1, PairQuad(rows, alpha, k);
    var g := PairsOf(rows, alpha, k, rounds, s);
    forall t: nat | t < n
      ensures g(t) == Lines(TargetThenRound(q, r, s), r)(t)
      ensures alpha[s] > rounds / 2 || alpha[t] > rounds / 2 ==> g(t) == 0
    {
      WeightIsQuad(rows, alpha, k, rounds, s, t);
      if alpha[s] > rounds / 2 || alpha[t] > rounds / 2 {
        NoWeightOutside(rows, centre, alpha, k, rounds, s, t);
      }
    }
    SumOfSupport(alpha, rounds / 2, n, g);
    SumExt(n, g, Lines(TargetThenRound(q, r, s), r));
    if alpha[s] > rounds / 2 {
      SumZero(n, g);
    }
  }

  /** The support contributes exactly the strict pairs of the centre interval. */
  lemma SupportCountsPairs(rows: Rows, centre: nat, alpha: seq<int>, rounds: nat, k: nat)
    requires Net(rows, centre, alpha) && k <= rounds
    ensures Tally(Support(alpha, rounds / 2), StartPairs(rows, alpha, k, rounds, Support(alpha, rounds / 2))) ==
            |IntervalPairs(rows, centre, rounds, k)|
  {
    hide Net, WellFormed, PairQuad, IntervalPairs, StartPairs, BySites;
    NetParts(rows, centre, alpha);
    var n, r, q := |rows|, rounds + 1, PairQuad(rows, alpha, k);
    CountByRounds(rows, centre, alpha, rounds, k);
    SumQuad(q, r, n);
    var g := StartPairs(rows, alpha, k, rounds, Support(alpha, rounds / 2));
    forall s: nat | s < n
      ensures g(s) == BySites(q, r, n)(s) && (alpha[s] > rounds / 2 ==> g(s) == 0)
    {
      StartIsQuad(rows, centre, alpha, k, rounds, s);
    }
    SumOfSupport(alpha, rounds / 2, n, g);
    SumExt(n, g, BySites(q, r, n));
  }

  lemma ListCountsPairs(rows: Rows, centre: nat, alpha: seq<int>, rounds: nat, list: seq<Entry>, k: nat)
    requires Net(rows, centre, alpha) && k <= rounds
    requires Weighs(rows, alpha, rounds, list, Support(alpha, rounds / 2), Support(alpha, rounds / 2), centre, [])
    ensures Tally(list, Weights(k, rounds)) == |IntervalPairs(rows, centre, rounds, k)|
  {
    hide Net, WellFormed, Support, IntervalPairs, StartPairs, Weights;
    NetParts(rows, centre, alpha);
    SupportCountsPairs(rows, centre, alpha, rounds, k);
  }

  // ----- the whole count

  lemma WholeNet(rows: Rows, centre: nat, alpha: seq<int>)
    requires WellFormed(rows) && SelfReads(rows) && Symmetric(rows) && centre < |rows|
    requires Walked(rows, centre, alpha, |rows|) && Exact(rows, Nothing, centre, alpha, |rows|)
    requires forall t: nat :: t < |rows| ==> alpha[t] >= 0
    ensures Net(rows, centre, alpha)
  {
    hide WellFormed, SelfReads, Symmetric, Distance, Exact, InCone;
    forall t: nat | t < |rows|
      ensures Distance(rows, centre, t, alpha[t])
    {
      WholeSearch(rows, centre, alpha, t);
    }
  }

  /** `alpha.min() < 0` */
  method SomeNegative(alpha: seq<int>) returns (r: bool)
    ensures r <==> exists t: nat :: t < |alpha| && alpha[t] < 0
  {
    r := false;
    for t := 0 to |alpha|
      invariant r <==> exists i: nat :: i < t && alpha[i] < 0
    {
      if alpha[t] < 0 {
        r := true;
      }
    }
  }

  /**
   * Strict pair counts of the centre intervals of all lengths, on any symmetric read relation with
   * self-reads: nothing on a disconnected relation, else the number of strictly ordered event pairs.
   */
  method CountStrictPairs(rows: Rows, centre: nat, rounds: nat, size: nat) returns (r: Option<map<nat, int>>)
    requires WellFormed(rows) && SelfReads(rows) && Symmetric(rows) && centre < |rows| && size > 0
    ensures r.None? <==> exists t: nat :: t < |rows| && !Reached(rows, centre, t)
    ensures r.Some? ==> forall k: nat :: k in r.value <==> 1 <= k <= rounds
    ensures r.Some? ==> forall k: nat :: 1 <= k <= rounds ==>
      r.value[k] == |PairSet(Trace(rows, rounds), Id(|rows|, 0, centre), Id(|rows|, k, centre))|
  {
    hide SelfReads, Symmetric, InCone, Exact, Reached, PairSet, Weighs, Counts, Weights, Trace, Net;
    var alpha := Bfs(rows, centre, None, Nothing);
    forall t: nat | t < |rows|
      ensures alpha[t] < 0 <==> !Reached(rows, centre, t)
    {
      WholeSearch(rows, centre, alpha, t);
    }
    var disconnected := SomeNegative(alpha);
    if disconnected {
      return None;
    }
    WholeNet(rows, centre, alpha);
    var support := Support(alpha, rounds / 2);
    var h, list := AllHistograms(rows, centre, alpha, rounds, support, size);
    var counts := StrictPairCounts(h, rounds, list);
    forall k: nat | 1 <= k <= rounds
      ensures counts[k] == |IntervalPairs(rows, centre, rounds, k)|
    {
      ListCountsPairs(rows, centre, alpha, rounds, list, k);
    }
    r := Some(counts);
  }

  // ----- the brute-force count

  lemma InsideRounds(rows: Rows, centre: nat, rounds: nat, k: nat, e: nat)
    requires WellFormed(rows) && NonemptyRows(rows) && centre < |rows| && k <= rounds
    requires e < |Trace(rows, rounds)| && Inside(Trace(rows, rounds), Id(|rows|, 0, centre), Id(|rows|, k, centre), e)
    ensures forall r: nat :: LongestChain(Trace(rows, rounds), e, r) ==> r <= k
  {
    hide Trace, Id, InCone, Precedes, LongestChain, WellFormed;
    var j, s := InTrace(rows, rounds, e);
    OrderIsLayered(rows, rounds, j, s, k, centre);
    IdSplits(|rows|, j, s);
    IdSplits(|rows|, k, centre);
    forall r: nat | LongestChain(Trace(rows, rounds), e, r)
      ensures r <= k
    {
      RankIsRound(rows, rounds, j, s, r);
    }
  }

  lemma SelfReadsNonempty(rows: Rows)
    requires SelfReads(rows)
    ensures NonemptyRows(rows)
  {
    forall i: nat | i < |rows|
      ensures rows[i] != []
    {
      assert i in rows[i];
    }
  }

  lemma GeneratedRank(log: Log, order: Order, e: nat)
    requires Generated(log, order) && e < |log|
    ensures LongestChain(log, e, order.rank[e])
  {
  }

  /** The same number, by transitive closure of the log's edges. */
  method BruteStrictPairs(rows: Rows, centre: nat, rounds: nat, k: nat) returns (r: Readout)
    requires WellFormed(rows) && SelfReads(rows) && centre < |rows| && k <= rounds
    ensures r.strictPairs == |PairSet(Trace(rows, rounds), Id(|rows|, 0, centre), Id(|rows|, k, centre))|
    ensures forall e: nat :: e in r.members <==>
      e < |Trace(rows, rounds)| && Inside(Trace(rows, rounds), Id(|rows|, 0, centre), Id(|rows|, k, centre), e)
  {
    hide Generated, Inside, PairSet, LongestChain, Sound, InCone;
    SelfReadsNonempty(rows);
    TraceIsSound(rows, rounds);
    var log := Trace(rows, rounds);
    var seed, top := Id(|rows|, 0, centre), Id(|rows|, k, centre);
    TraceAt(rows, rounds, 0, centre);
    TraceAt(rows, rounds, k, centre);
    var order := Provenance(log);
    GeneratedSizes(log, order.value);
    forall e: nat | e < |log| && Inside(log, seed, top, e)
      ensures order.value.rank[e] <= k
    {
      InsideRounds(rows, centre, rounds, k, e);
      GeneratedRank(log, order.value, e);
    }
    r := IntervalReadout(log, order.value, seed, top, k);
  }

  lemma GeneratedSizes(log: Log, order: Order)
    requires Generated(log, order)
    ensures |order.rank| == |log|
  {
  }
}
