/** Histograms of site pairs, one pruned search per start. */
module PairHistogram {
  import opened Basics
  import opened Sums
  import opened ReadNet
  import opened Search
  import opened PairWeights

  /** A connected symmetric read relation with self-reads; `alpha` holds the distances from the centre. */
  ghost predicate Net(rows: Rows, centre: nat, alpha: seq<int>)
  {
    && WellFormed(rows) && SelfReads(rows) && Symmetric(rows)
    && centre < |rows| && |alpha| == |rows|
    && forall t: nat :: t < |rows| ==> alpha[t] >= 0 && Distance(rows, centre, t, alpha[t])
  }

  lemma SiteDistance(rows: Rows, centre: nat, alpha: seq<int>, t: nat)
    requires Net(rows, centre, alpha) && t < |rows|
    ensures alpha[t] >= 0 && Distance(rows, centre, t, alpha[t])
  {
  }

  /** A cone holds the sites that are near enough. */
  lemma ConeByDistance(rows: Rows, s: nat, t: nat, m: nat, l: nat)
    requires WellFormed(rows) && SelfReads(rows) && Symmetric(rows) && s < |rows| && t < |rows|
    requires Distance(rows, s, t, m)
    ensures InCone(rows, s, l, t) <==> m <= l
  {
    hide InCone, WellFormed, SelfReads, Symmetric;
    if InCone(rows, s, l, t) {
      ConeReverses(rows, s, l, t);
    }
    if m <= l {
      ConeReverses(rows, t, m, s);
      ConeGrows(rows, s, m, l, t);
    }
  }

  lemma ConeOfCentre(rows: Rows, centre: nat, alpha: seq<int>, t: nat, l: nat)
    requires Net(rows, centre, alpha) && t < |rows|
    ensures InCone(rows, centre, l, t) <==> alpha[t] <= l
    ensures InCone(rows, t, l, centre) <==> alpha[t] <= l
  {
    hide InCone, WellFormed, SelfReads, Symmetric;
    ConeByDistance(rows, centre, t, alpha[t], l);
    if InCone(rows, t, l, centre) {
      ConeReverses(rows, t, l, centre);
    } else if InCone(rows, centre, l, t) {
      ConeReverses(rows, centre, l, t);
    }
  }

  /** Distances from the centre change by at most one along a read. */
  lemma AlphaIsLipschitz(rows: Rows, centre: nat, alpha: seq<int>, budget: int)
    requires Net(rows, centre, alpha)
    ensures Lipschitz(rows, Within(alpha, budget))
  {
    hide InCone, WellFormed, SelfReads;
    forall f: nat, t: nat | f < |rows| && t < |rows| && t in rows[f]
      ensures alpha[f] <= alpha[t] + 1
    {
      assert f in rows[t];
      assert Distance(rows, centre, t, alpha[t]);
      ConeFar(rows, centre, alpha[t], t, f);
      assert Distance(rows, centre, f, alpha[f]);
    }
  }

  /** Any two sites are joined. */
  lemma Joined(rows: Rows, centre: nat, alpha: seq<int>, s: nat, t: nat) returns (m: nat)
    requires Net(rows, centre, alpha) && s < |rows| && t < |rows|
    ensures Distance(rows, s, t, m)
  {
    hide InCone, WellFormed, SelfReads, Symmetric, Distance;
    ConeOfCentre(rows, centre, alpha, s, alpha[s]);
    ConeOfCentre(rows, centre, alpha, t, alpha[t]);
    ConeJoins(rows, t, alpha[t], centre, alpha[s], s);
    m := DistanceExists(rows, s, t, alpha[t] + alpha[s]);
  }

  // ----- what a pair of sites contributes

  /** The event of `s` in round `j` and that of `t` in round `j'` are a strict pair of the `k`-interval. */
  ghost predicate StrictPair(rows: Rows, alpha: seq<int>, k: int, j: nat, s: nat, j': nat, t: nat)
    requires WellFormed(rows) && s < |rows| && t < |rows| && |alpha| == |rows|
  {
    alpha[s] <= Min(j, k - j) && j < j' && alpha[t] <= Min(j', k - j') && InCone(rows, s, j' - j, t)
  }

  ghost function UpperPair(rows: Rows, alpha: seq<int>, k: int, j: nat, s: nat, t: nat): nat -> int
    requires WellFormed(rows) && s < |rows| && t < |rows| && |alpha| == |rows|
  {
    (j': nat) => One(StrictPair(rows, alpha, k, j, s, j', t))
  }

  ghost function LowerPair(rows: Rows, alpha: seq<int>, k: int, rounds: nat, s: nat, t: nat): nat -> int
    requires WellFormed(rows) && s < |rows| && t < |rows| && |alpha| == |rows|
  {
    (j: nat) => Sum(rounds + 1, UpperPair(rows, alpha, k, j, s, t))
  }

  ghost function PairWeight(rows: Rows, alpha: seq<int>, k: int, rounds: nat, s: nat, t: nat): int
    requires WellFormed(rows) && s < |rows| && t < |rows| && |alpha| == |rows|
  {
    Sum(rounds + 1, LowerPair(rows, alpha, k, rounds, s, t))
  }

  lemma ExactWeight(rows: Rows, centre: nat, alpha: seq<int>, k: int, rounds: nat, s: nat, t: nat, m: nat)
    requires Net(rows, centre, alpha) && s < |rows| && t < |rows| && Distance(rows, s, t, m)
    ensures alpha[s] >= 0 && alpha[t] >= 0
    ensures Weight(k, rounds, Entry(alpha[s], alpha[t], m)) == PairWeight(rows, alpha, k, rounds, s, t)
  {
    hide InCone, WellFormed, SelfReads, Symmetric, Distance;
    var x := Entry(alpha[s], alpha[t], m);
    forall j: nat | j < rounds + 1
      ensures Lower(k, rounds, x)(j) == LowerPair(rows, alpha, k, rounds, s, t)(j)
    {
      forall j': nat | j' < rounds + 1
        ensures Upper(k, j, x)(j') == UpperPair(rows, alpha, k, j, s, t)(j')
      {
        if j < j' {
          ConeByDistance(rows, s, t, m, j' - j);
        }
      }
      SumExt(rounds + 1, Upper(k, j, x), UpperPair(rows, alpha, k, j, s, t));
    }
    SumExt(rounds + 1, Lower(k, rounds, x), LowerPair(rows, alpha, k, rounds, s, t));
  }

  /** A recorded distance is exact, or both it and the true one are beyond the budget. */
  ghost predicate GoodEnough(rows: Rows, alpha: seq<int>, rounds: nat, s: nat, t: nat, d: nat)
    requires WellFormed(rows) && s < |rows| && t < |rows| && |alpha| == |rows|
  {
    forall m: nat :: Distance(rows, s, t, m) ==>
      d == m || (alpha[s] + alpha[t] + d > rounds && alpha[s] + alpha[t] + m > rounds)
  }

  lemma EntryWeight(rows: Rows, centre: nat, alpha: seq<int>, k: int, rounds: nat, s: nat, t: nat, d: nat)
    requires Net(rows, centre, alpha) && s < |rows| && t < |rows| && k <= rounds
    requires GoodEnough(rows, alpha, rounds, s, t, d)
    ensures alpha[s] >= 0 && alpha[t] >= 0
    ensures Weight(k, rounds, Entry(alpha[s], alpha[t], d)) == PairWeight(rows, alpha, k, rounds, s, t)
  {
    hide WellFormed, SelfReads, Symmetric, Distance, Weight, PairWeight;
    var m := Joined(rows, centre, alpha, s, t);
    ExactWeight(rows, centre, alpha, k, rounds, s, t, m);
    if d != m {
      FarWeighsNothing(k, rounds, Entry(alpha[s], alpha[t], d));
      FarWeighsNothing(k, rounds, Entry(alpha[s], alpha[t], m));
    }
  }

  // ----- one start

  function Bin(rounds: nat, d: int): nat
  {
    if d < 0 then rounds + 1 else d
  }

  /** What the search from `s` records is good enough for every target. */
  ghost predicate Measured(rows: Rows, alpha: seq<int>, rounds: nat, s: nat, dist: seq<int>)
    requires WellFormed(rows) && s < |rows| && |alpha| == |rows|
  {
    |dist| == |rows| && forall t: nat :: t < |rows| ==>
      dist[t] <= rounds && GoodEnough(rows, alpha, rounds, s, t, Bin(rounds, dist[t]))
  }

  lemma PrunedIsGoodEnough(rows: Rows, centre: nat, alpha: seq<int>, rounds: nat, s: nat, t: nat, dist: seq<int>)
    requires Net(rows, centre, alpha) && s < |rows| && t < |rows| && t != centre && alpha[s] + 1 <= rounds
    requires Walked(rows, s, dist, rounds - alpha[s] - 1)
    requires Exact(rows, Within(alpha, rounds - alpha[s]), s, dist, rounds - alpha[s] - 1)
    ensures GoodEnough(rows, alpha, rounds, s, t, Bin(rounds, dist[t]))
  {
    hide WellFormed, SelfReads, Symmetric, InCone;
    Apart(rows, centre, alpha, t);
    forall m: nat | Distance(rows, s, t, m)
      ensures Bin(rounds, dist[t]) == m ||
              (alpha[s] + alpha[t] + Bin(rounds, dist[t]) > rounds && alpha[s] + alpha[t] + m > rounds)
    {
      if m <= rounds - alpha[s] - 1 && alpha[t] <= rounds - alpha[s] - m {
        assert Allowed(Within(alpha, rounds - alpha[s]), t, m);
      } else {
        if dist[t] != -1 {
          assert dist[t] >= m;
        }
      }
    }
  }

  /** Only the centre is at distance zero from it. */
  lemma Apart(rows: Rows, centre: nat, alpha: seq<int>, t: nat)
    requires Net(rows, centre, alpha) && t < |rows| && t != centre
    ensures alpha[t] >= 1
  {
    assert Distance(rows, centre, t, alpha[t]);
  }

  lemma NearStart(rows: Rows, centre: nat, alpha: seq<int>, rounds: nat, s: nat, t: nat)
    requires Net(rows, centre, alpha) && s < |rows| && t < |rows| && t != centre && alpha[s] + 1 >= rounds
    ensures GoodEnough(rows, alpha, rounds, s, t, if t == s then 0 else rounds + 1)
  {
    Apart(rows, centre, alpha, t);
    SiteDistance(rows, centre, alpha, s);
    forall m: nat | Distance(rows, s, t, m)
      ensures m == 0 <==> t == s
    {
      assert InCone(rows, t, 0, s) <==> t == s;
    }
  }

  lemma CentreIsExact(rows: Rows, centre: nat, alpha: seq<int>, rounds: nat, s: nat)
    requires Net(rows, centre, alpha) && s < |rows|
    ensures alpha[s] >= 0 && GoodEnough(rows, alpha, rounds, s, centre, alpha[s])
  {
    hide WellFormed, SelfReads, Symmetric, InCone;
    SiteDistance(rows, centre, alpha, s);
    forall m: nat | Distance(rows, s, centre, m)
      ensures m == alpha[s]
    {
      ConeOfCentre(rows, centre, alpha, s, m);
      ConeByDistance(rows, s, centre, m, alpha[s]);
      ConeOfCentre(rows, centre, alpha, s, alpha[s]);
    }
  }

  /** Distances from one start, pruned by the budget `rounds - alpha[s]`. */
  method StartDistances(rows: Rows, centre: nat, alpha: seq<int>, rounds: nat, s: nat) returns (dist: seq<int>)
    requires Net(rows, centre, alpha) && s < |rows| && alpha[s] <= rounds
    ensures Measured(rows, alpha, rounds, s, dist)
  {
    hide Net, SelfReads, Symmetric, InCone, Distance, Lipschitz, Exact, GoodEnough;
    NetParts(rows, centre, alpha);
    SiteDistance(rows, centre, alpha, s);
    var cap := rounds - alpha[s] - 1;
    if cap > 0 {
      AlphaIsLipschitz(rows, centre, alpha, rounds - alpha[s]);
      dist := Bfs(rows, s, Some(cap), Within(alpha, rounds - alpha[s]));
      forall t: nat | t < |rows| && t != centre
        ensures GoodEnough(rows, alpha, rounds, s, t, Bin(rounds, dist[t]))
      {
        PrunedIsGoodEnough(rows, centre, alpha, rounds, s, t, dist);
      }
    } else {
      dist := seq(|rows|, _ => -1);
      dist := dist[s := 0];
      forall t: nat | t < |rows| && t != centre
        ensures GoodEnough(rows, alpha, rounds, s, t, Bin(rounds, dist[t]))
      {
        NearStart(rows, centre, alpha, rounds, s, t);
      }
    }
    CentreIsExact(rows, centre, alpha, rounds, s);
    dist := dist[centre := alpha[s]];
  }

  lemma NetParts(rows: Rows, centre: nat, alpha: seq<int>)
    requires Net(rows, centre, alpha)
    ensures WellFormed(rows) && centre < |rows| && |alpha| == |rows|
    ensures forall t: nat :: t < |rows| ==> alpha[t] >= 0
  {
  }

  // ----- all starts

  /** The sites at distance at most `h` from the centre, ascending, below site `i`. */
  function SupportBelow(alpha: seq<int>, h: int, i: nat): (r: seq<nat>)
    requires i <= |alpha|
    ensures forall t: nat :: t in r <==> t < i && alpha[t] <= h
  {
    if i == 0 then [] else
      SupportBelow(alpha, h, i - 1) + if alpha[i - 1] <= h then [i - 1] else []
  }

  function Support(alpha: seq<int>, h: int): (r: seq<nat>)
    ensures forall t: nat :: t in r <==> t < |alpha| && alpha[t] <= h
  {
    SupportBelow(alpha, h, |alpha|)
  }

  ghost function PairsOf(rows: Rows, alpha: seq<int>, k: int, rounds: nat, s: nat): nat -> int
    requires WellFormed(rows) && s < |rows| && |alpha| == |rows|
  {
    (t: nat) => if t < |rows| then PairWeight(rows, alpha, k, rounds, s, t) else 0
  }

  ghost function StartPairs(rows: Rows, alpha: seq<int>, k: int, rounds: nat, support: seq<nat>): nat -> int
    requires WellFormed(rows) && |alpha| == |rows|
  {
    (s: nat) => if s < |rows| then Tally(support, PairsOf(rows, alpha, k, rounds, s)) else 0
  }

  /** For every `k`, the entries weigh as much as the starts contribute, plus `s` against `part`. */
  ghost predicate Weighs(rows: Rows, alpha: seq<int>, rounds: nat, list: seq<Entry>,
                         starts: seq<nat>, support: seq<nat>, s: nat, part: seq<nat>)
    requires WellFormed(rows) && |alpha| == |rows| && s < |rows|
  {
    forall k: nat :: k <= rounds ==>
      Tally(list, Weights(k, rounds)) ==
      Tally(starts, StartPairs(rows, alpha, k, rounds, support)) + Tally(part, PairsOf(rows, alpha, k, rounds, s))
  }

  lemma CellCounted(h: array3<int>, rounds: nat, list: seq<Entry>, x: Entry, a: int, b: int, d: int)
    requires Counts(h, rounds, list) && 0 <= a <= rounds && 0 <= b <= rounds && 0 <= d <= rounds + 1
    ensures Tally(list + [x], Cell(a, b, d)) == h[a, b, d] + One(x.a == a && x.b == b && x.d == d)
  {
    TallySnoc(list, x, Cell(a, b, d));
  }

  /** One more entry in its bin. */
  method Increment(h: array3<int>, rounds: nat, ghost list: seq<Entry>, x: Entry)
    requires Counts(h, rounds, list) && x.a <= rounds && x.b <= rounds && x.d <= rounds + 1
    modifies h
    ensures Counts(h, rounds, list + [x])
  {
    forall a, b, d | 0 <= a <= rounds && 0 <= b <= rounds && 0 <= d <= rounds + 1
      ensures Tally(list + [x], Cell(a, b, d)) == h[a, b, d] + One(x.a == a && x.b == b && x.d == d)
    {
      CellCounted(h, rounds, list, x, a, b, d);
    }
    h[x.a, x.b, x.d] := h[x.a, x.b, x.d] + 1;
  }

  lemma WeighsNext(rows: Rows, centre: nat, alpha: seq<int>, rounds: nat, list: seq<Entry>,
                   starts: seq<nat>, support: seq<nat>, s: nat, part: seq<nat>, t: nat, d: nat)
    requires Net(rows, centre, alpha) && s < |rows| && t < |rows| && alpha[s] >= 0 && alpha[t] >= 0
    requires Weighs(rows, alpha, rounds, list, starts, support, s, part)
    requires GoodEnough(rows, alpha, rounds, s, t, d)
    ensures Weighs(rows, alpha, rounds, list + [Entry(alpha[s], alpha[t], d)], starts, support, s, part + [t])
  {
    hide Net, SelfReads, Symmetric, InCone, Distance, GoodEnough, Weight, PairWeight;
    NetParts(rows, centre, alpha);
    var x := Entry(alpha[s], alpha[t], d);
    forall k: nat | k <= rounds
      ensures Tally(list + [x], Weights(k, rounds)) ==
              Tally(starts, StartPairs(rows, alpha, k, rounds, support)) +
                Tally(part + [t], PairsOf(rows, alpha, k, rounds, s))
    {
      EntryWeight(rows, centre, alpha, k, rounds, s, t, d);
      TallySnoc(list, x, Weights(k, rounds));
      TallySnoc(part, t, PairsOf(rows, alpha, k, rounds, s));
    }
  }

  lemma WeighsStart(rows: Rows, alpha: seq<int>, rounds: nat, list: seq<Entry>,
                    starts: seq<nat>, support: seq<nat>, s: nat, s': nat)
    requires WellFormed(rows) && |alpha| == |rows| && s < |rows| && s' < |rows|
    requires Weighs(rows, alpha, rounds, list, starts, support, s, support)
    ensures Weighs(rows, alpha, rounds, list, starts + [s], support, s', [])
  {
    hide WellFormed, PairWeight;
    forall k: nat | k <= rounds
      ensures Tally(list, Weights(k, rounds)) ==
              Tally(starts + [s], StartPairs(rows, alpha, k, rounds, support)) +
                Tally<nat>([], PairsOf(rows, alpha, k, rounds, s'))
    {
      TallySnoc(starts, s, StartPairs(rows, alpha, k, rounds, support));
    }
  }

  /** Bin one start against every support site. */
  method AddStart(rows: Rows, centre: nat, alpha: seq<int>, rounds: nat, support: seq<nat>, s: nat,
                  h: array3<int>, ghost starts: seq<nat>, ghost list: seq<Entry>) returns (ghost list': seq<Entry>)
    requires Net(rows, centre, alpha) && support == Support(alpha, rounds / 2) && s in support
    requires Counts(h, rounds, list) && Weighs(rows, alpha, rounds, list, starts, support, s, [])
    modifies h
    ensures Counts(h, rounds, list') && Weighs(rows, alpha, rounds, list', starts, support, s, support)
  {
    hide Net, SelfReads, Symmetric, InCone, Distance, GoodEnough, Weighs, Counts;
    NetParts(rows, centre, alpha);
    var dist := StartDistances(rows, centre, alpha, rounds, s);
    list' := list;
    assert support[..0] == [];
    for i := 0 to |support|
      invariant Counts(h, rounds, list')
      invariant Weighs(rows, alpha, rounds, list', starts, support, s, support[..i])
    {
      var t := support[i];
      assert t in support;
      var d := Bin(rounds, dist[t]);
      WeighsNext(rows, centre, alpha, rounds, list', starts, support, s, support[..i], t, d);
      assert support[..i + 1] == support[..i] + [t];
      Increment(h, rounds, list', Entry(alpha[s], alpha[t], d));
      list' := list' + [Entry(alpha[s], alpha[t], d)];
    }
    assert support[..|support|] == support;
  }

  method Zeros(rounds: nat) returns (h: array3<int>)
    ensures fresh(h) && Counts(h, rounds, [])
  {
    h := new int[rounds + 1, rounds + 1, rounds + 2]((_, _, _) => 0);
  }

  /** The histogram of one batch of starts. */
  method Histograms(rows: Rows, centre: nat, alpha: seq<int>, rounds: nat, support: seq<nat>, starts: seq<nat>)
    returns (h: array3<int>, ghost list: seq<Entry>)
    requires Net(rows, centre, alpha) && support == Support(alpha, rounds / 2)
    requires forall s :: s in starts ==> s in support
    ensures fresh(h) && Counts(h, rounds, list)
    ensures Weighs(rows, alpha, rounds, list, starts, support, centre, [])
  {
    hide Net, SelfReads, Symmetric, InCone, Distance, Counts, WellFormed;
    NetParts(rows, centre, alpha);
    h := Zeros(rounds);
    list := [];
    assert starts[..0] == [];
    for i := 0 to |starts|
      invariant fresh(h) && Counts(h, rounds, list)
      invariant Weighs(rows, alpha, rounds, list, starts[..i], support, centre, [])
    {
      var s := starts[i];
      assert s in starts;
      list := AddStart(rows, centre, alpha, rounds, support, s, h, starts[..i], list);
      WeighsStart(rows, alpha, rounds, list, starts[..i], support, s, centre);
      assert starts[..i + 1] == starts[..i] + [s];
    }
    assert starts[..|starts|] == starts;
  }

  /** `h += g` for the histograms of two lists. */
  method Accumulate(h: array3<int>, g: array3<int>, rounds: nat, ghost list: seq<Entry>, ghost more: seq<Entry>)
    requires h != g && Counts(h, rounds, list) && Counts(g, rounds, more)
    modifies h
    ensures Counts(h, rounds, list + more)
  {
    forall a, b, d | 0 <= a <= rounds && 0 <= b <= rounds && 0 <= d <= rounds + 1
      ensures Tally(list + more, Cell(a, b, d)) == h[a, b, d] + g[a, b, d]
    {
      TallyJoin(list, more, Cell(a, b, d));
    }
    forall a, b, d | 0 <= a <= rounds && 0 <= b <= rounds && 0 <= d <= rounds + 1
    {
      h[a, b, d] := h[a, b, d] + g[a, b, d];
    }
  }

  lemma WeighsJoin(rows: Rows, alpha: seq<int>, rounds: nat, list: seq<Entry>, more: seq<Entry>,
                   starts: seq<nat>, next: seq<nat>, support: seq<nat>, s: nat)
    requires WellFormed(rows) && |alpha| == |rows| && s < |rows|
    requires Weighs(rows, alpha, rounds, list, starts, support, s, [])
    requires Weighs(rows, alpha, rounds, more, next, support, s, [])
    ensures Weighs(rows, alpha, rounds, list + more, starts + next, support, s, [])
  {
    hide WellFormed, PairWeight;
    forall k: nat | k <= rounds
      ensures Tally(list + more, Weights(k, rounds)) ==
              Tally(starts + next, StartPairs(rows, alpha, k, rounds, support)) +
                Tally<nat>([], PairsOf(rows, alpha, k, rounds, s))
    {
      TallyJoin(list, more, Weights(k, rounds));
      TallyJoin(starts, next, StartPairs(rows, alpha, k, rounds, support));
    }
  }

  /** The histograms of all batches of `size` support sites, added up. */
  method AllHistograms(rows: Rows, centre: nat, alpha: seq<int>, rounds: nat, support: seq<nat>, size: nat)
    returns (h: array3<int>, ghost list: seq<Entry>)
    requires Net(rows, centre, alpha) && support == Support(alpha, rounds / 2) && size > 0
    ensures fresh(h) && Counts(h, rounds, list)
    ensures Weighs(rows, alpha, rounds, list, support, support, centre, [])
  {
    hide Net, SelfReads, Symmetric, InCone, Distance, Counts, WellFormed;
    NetParts(rows, centre, alpha);
    h := Zeros(rounds);
    list := [];
    assert support[..0] == [];
    var i := 0;
    while i < |support|
      invariant 0 <= i <= |support|
      invariant fresh(h) && Counts(h, rounds, list)
      invariant Weighs(rows, alpha, rounds, list, support[..i], support, centre, [])
    {
      var next := if i + size < |support| then i + size else |support|;
      var g, more := Histograms(rows, centre, alpha, rounds, support, support[i..next]);
      WeighsJoin(rows, alpha, rounds, list, more, support[..i], support[i..next], support, centre);
      assert support[..next] == support[..i] + support[i..next];
      Accumulate(h, g, rounds, list, more);
      list := list + more;
      i := next;
    }
    assert support[..|support|] == support;
  }
}
