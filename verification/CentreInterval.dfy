/** The interval between two events of a log, its strict pairs, and its layers in a layered run. */
module CentreInterval {
  import opened Basics
  import opened Indexing
  import opened ReadNet
  import opened EventOrder
  import opened TraceOrder
  import opened PairWeights
  import opened PairHistogram

  ghost predicate AtOrAbove(log: Log, p: nat, e: nat)
  {
    p == e || Precedes(log, p, e)
  }

  ghost predicate Inside(log: Log, seed: nat, top: nat, e: nat)
  {
    AtOrAbove(log, seed, e) && AtOrAbove(log, e, top)
  }

  ghost predicate PairInside(log: Log, seed: nat, top: nat, e: nat, f: nat)
  {
    Inside(log, seed, top, e) && Inside(log, seed, top, f) && Precedes(log, e, f)
  }

  /** All strictly ordered pairs of events of the interval. */
  ghost function PairSet(log: Log, seed: nat, top: nat): set<(nat, nat)>
  {
    set e: nat, f: nat | e < |log| && f < |log| && PairInside(log, seed, top, e, f) :: (e, f)
  }

  ghost predicate Listing(members: seq<nat>, inside: set<nat>)
  {
    && (forall e: nat :: e in members <==> e in inside)
    && forall i, i' :: 0 <= i < i' < |members| ==> members[i] < members[i']
  }

  // ----- reading the interval off descendant sets

  /** The members, ascending. */
  method Members(log: Log, order: Order, seed: nat, top: nat) returns (members: seq<nat>, inside: set<nat>)
    requires Generated(log, order) && seed < |log| && top < |log|
    ensures Listing(members, inside) && Increasing(members)
    ensures forall e: nat :: e in inside <==> e < |log| && Inside(log, seed, top, e)
  {
    hide Precedes, LongestChain, Chain;
    members, inside := [], {};
    for e := 0 to |log|
      invariant Listing(members, inside) && Increasing(members)
      invariant forall i: nat :: i in members ==> i < e
      invariant forall i: nat :: i in inside <==> i < e && Inside(log, seed, top, i)
    {
      assert Descendants(log, seed, order.descendants[seed]);
      assert Descendants(log, e, order.descendants[e]);
      if (e == seed || e in order.descendants[seed]) && (e == top || top in order.descendants[e]) {
        ListingGrows(members, inside, e);
        IncreasingGrows(members, e);
        members, inside := members + [e], inside + {e};
      }
    }
  }

  lemma ListingGrows(members: seq<nat>, inside: set<nat>, e: nat)
    requires Listing(members, inside) && forall i :: i in inside ==> i < e
    ensures Listing(members + [e], inside + {e})
  {
    forall i | 0 <= i < |members|
      ensures members[i] < e
    {
      assert members[i] in members;
    }
  }

  /** The pairs whose lower event is one of the first `m` members. */
  ghost function PairsFrom(log: Log, seed: nat, top: nat, members: seq<nat>, m: nat): set<(nat, nat)>
    requires m <= |members|
  {
    set x | x in PairSet(log, seed, top) && x.0 in members[..m]
  }

  /** The pairs of `e` with the events of `s`. */
  ghost function Beneath(e: nat, s: set<nat>): (r: set<(nat, nat)>)
    ensures forall x :: x in r <==> x.0 == e && x.1 in s
  {
    set f | f in s :: (e, f)
  }

  lemma {:induction false} PairUp(e: nat, s: set<nat>)
    ensures |Beneath(e, s)| == |s|
  {
    hide Beneath;
    if g :| g in s {
      PairUp(e, s - {g});
      assert Beneath(e, s) == Beneath(e, s - {g}) + {(e, g)};
    } else {
      assert s == {};
      assert Beneath(e, s) == {};
    }
  }

  lemma PairsFromMember(log: Log, order: Order, seed: nat, top: nat, inside: set<nat>, e: nat, f: nat)
    requires Generated(log, order) && e in inside
    requires forall e: nat :: e in inside <==> e < |log| && Inside(log, seed, top, e)
    ensures e < |log| && (f in order.descendants[e] * inside <==> (e, f) in PairSet(log, seed, top))
  {
    hide Precedes, LongestChain, Chain, Inside;
    assert Descendants(log, e, order.descendants[e]);
  }

  lemma PairsFromNext(log: Log, order: Order, seed: nat, top: nat, members: seq<nat>, inside: set<nat>, m: nat)
    requires Generated(log, order) && m < |members| && Listing(members, inside)
    requires forall e: nat :: e in inside <==> e < |log| && Inside(log, seed, top, e)
    ensures members[m] < |log|
    ensures |PairsFrom(log, seed, top, members, m + 1)| ==
            |PairsFrom(log, seed, top, members, m)| + |order.descendants[members[m]] * inside|
  {
    hide LongestChain, Inside, PairSet, Beneath, Descendants;
    var e := members[m];
    assert e in members;
    var row := order.descendants[e] * inside;
    assert members[..m + 1] == members[..m] + [e];
    var a, b, c := PairsFrom(log, seed, top, members, m), Beneath(e, row), PairsFrom(log, seed, top, members, m + 1);
    forall x
      ensures x in c <==> x in a || x in b
      ensures !(x in a && x in b)
    {
      assert x == (x.0, x.1);
      if x.0 == e {
        PairsFromMember(log, order, seed, top, inside, e, x.1);
      }
    }
    assert c == a + b;
    assert a * b == {};
    PairUp(e, row);
  }

  lemma PairsFromAll(log: Log, seed: nat, top: nat, members: seq<nat>, inside: set<nat>)
    requires Listing(members, inside)
    requires forall e: nat :: e in inside <==> e < |log| && Inside(log, seed, top, e)
    ensures PairsFrom(log, seed, top, members, |members|) == PairSet(log, seed, top)
  {
    assert members[..|members|] == members;
    forall x | x in PairSet(log, seed, top)
      ensures x.0 in members
    {
      assert x.0 in inside;
    }
  }

  ghost function OfRank(inside: set<nat>, rank: seq<nat>, j: nat): set<nat>
  {
    set e | e in inside && e < |rank| && rank[e] == j
  }

  method CountByRank(members: seq<nat>, ghost inside: set<nat>, rank: seq<nat>, k: nat) returns (counts: seq<nat>)
    requires Listing(members, inside)
    requires forall e: nat :: e in inside ==> e < |rank| && rank[e] <= k
    ensures |counts| == k + 1
    ensures forall j :: 0 <= j <= k ==> counts[j] == |OfRank(inside, rank, j)|
  {
    counts := seq(k + 1, _ => 0);
    ghost var seen: set<nat> := {};
    for i := 0 to |members|
      invariant |counts| == k + 1
      invariant forall e: nat :: e in seen <==> e in members[..i]
      invariant forall j :: 0 <= j <= k ==> counts[j] == |OfRank(seen, rank, j)|
    {
      var e := members[i];
      assert e in members;
      assert members[..i + 1] == members[..i] + [e];
      SeenGrows(members, inside, rank, i, seen);
      counts := counts[rank[e] := counts[rank[e]] + 1];
      seen := seen + {e};
    }
    assert members[..|members|] == members;
    assert seen == inside;
  }

  lemma SeenGrows(members: seq<nat>, inside: set<nat>, rank: seq<nat>, i: nat, seen: set<nat>)
    requires Listing(members, inside) && i < |members| && members[i] < |rank|
    requires forall e: nat :: e in seen <==> e in members[..i]
    ensures forall j: nat :: |OfRank(seen + {members[i]}, rank, j)| ==
                             |OfRank(seen, rank, j)| + One(j == rank[members[i]])
  {
    var e := members[i];
    assert e !in seen;
    forall j: nat
      ensures |OfRank(seen + {e}, rank, j)| == |OfRank(seen, rank, j)| + One(j == rank[e])
    {
      if j == rank[e] {
        assert OfRank(seen + {e}, rank, j) == OfRank(seen, rank, j) + {e};
      } else {
        assert OfRank(seen + {e}, rank, j) == OfRank(seen, rank, j);
      }
    }
  }

  datatype Readout = Readout(members: seq<nat>, countsByLayer: seq<nat>, strictPairs: nat)

  /** Layer counts and strict pairs of an interval, by intersecting descendant sets. */
  method IntervalReadout(log: Log, order: Order, seed: nat, top: nat, k: nat) returns (r: Readout)
    requires Generated(log, order) && seed < |log| && top < |log|
    requires forall e: nat :: e < |log| && Inside(log, seed, top, e) ==> order.rank[e] <= k
    ensures Increasing(r.members)
    ensures forall e: nat :: e in r.members <==> e < |log| && Inside(log, seed, top, e)
    ensures |r.countsByLayer| == k + 1
    ensures forall j :: 0 <= j <= k ==>
      r.countsByLayer[j] == |set e: nat | e in r.members && e < |order.rank| && order.rank[e] == j|
    ensures r.strictPairs == |PairSet(log, seed, top)|
  {
    hide Precedes, LongestChain, Chain, Inside;
    var members, inside := Members(log, order, seed, top);
    var counts := CountByRank(members, inside, order.rank, k);
    var total := 0;
    assert PairsFrom(log, seed, top, members, 0) == {};
    for i := 0 to |members|
      invariant total == |PairsFrom(log, seed, top, members, i)|
    {
      PairsFromNext(log, order, seed, top, members, inside, i);
      total := total + |order.descendants[members[i]] * inside|;
    }
    PairsFromAll(log, seed, top, members, inside);
    r := Readout(members, counts, total);
    forall j | 0 <= j <= k
      ensures counts[j] == |set e: nat | e in members && e < |order.rank| && order.rank[e] == j|
    {
      assert OfRank(inside, order.rank, j) == set e: nat | e in members && e < |order.rank| && order.rank[e] == j;
    }
  }

  // ----- in a layered run

  /** The centre interval holds, in round `j`, exactly the sites with `alpha <= min(j, k - j)`. */
  lemma IntervalIsLayered(rows: Rows, centre: nat, alpha: seq<int>, rounds: nat, k: nat, j: nat, s: nat)
    requires Net(rows, centre, alpha) && k <= rounds && j <= rounds && s < |rows|
    ensures Inside(Trace(rows, rounds), Id(|rows|, 0, centre), Id(|rows|, k, centre), Id(|rows|, j, s)) <==>
            alpha[s] <= Min(j, k - j)
  {
    hide Trace, Id, InCone, Precedes, SelfReads, Symmetric, WellFormed;
    SiteDistance(rows, centre, alpha, s);
    OrderIsLayered(rows, rounds, 0, centre, j, s);
    OrderIsLayered(rows, rounds, j, s, k, centre);
    ConeOfCentre(rows, centre, alpha, s, j);
    IdSplits(|rows|, j, s);
    IdSplits(|rows|, 0, centre);
    IdSplits(|rows|, k, centre);
    if j <= k {
      ConeOfCentre(rows, centre, alpha, s, k - j);
    }
    if j == 0 || j == k {
      AtCentre(rows, centre, alpha, s);
    }
  }

  lemma AtCentre(rows: Rows, centre: nat, alpha: seq<int>, s: nat)
    requires Net(rows, centre, alpha) && s < |rows|
    ensures alpha[s] <= 0 <==> s == centre
  {
    hide WellFormed, SelfReads, Symmetric;
    ConeOfCentre(rows, centre, alpha, s, 0);
  }

  predicate Sooner(e: (nat, nat), f: (nat, nat))
  {
    e.0 < f.0 || (e.0 == f.0 && e.1 < f.1)
  }

  /** Layer by layer, and by site within a layer. */
  ghost predicate InOrder(events: seq<(nat, nat)>)
  {
    forall i, j :: 0 <= i < j < |events| ==> Sooner(events[i], events[j])
  }

  lemma LayerInOrder(events: seq<(nat, nat)>, j: nat, sites: seq<nat>, layer: seq<(nat, nat)>)
    requires InOrder(events) && Increasing(sites) && forall e :: e in events ==> e.0 < j
    requires |layer| == |sites| && forall i :: 0 <= i < |sites| ==> layer[i] == (j, sites[i])
    ensures InOrder(events + layer)
  {
    forall a, b | 0 <= a < b < |events + layer|
      ensures Sooner((events + layer)[a], (events + layer)[b])
    {
      if a < |events| {
        assert events[a] in events;
      }
    }
  }

  lemma {:induction false} SupportIncreasing(alpha: seq<int>, h: int, i: nat)
    requires i <= |alpha|
    ensures Increasing(SupportBelow(alpha, h, i))
  {
    if i > 0 {
      SupportIncreasing(alpha, h, i - 1);
      if alpha[i - 1] <= h {
        IncreasingGrows(SupportBelow(alpha, h, i - 1), i - 1);
      }
    }
  }

  /** The interval listed by layers. */
  method LayeredInterval(alpha: seq<int>, k: nat) returns (counts: seq<nat>, events: seq<(nat, nat)>)
    ensures |counts| == k + 1
    ensures forall j :: 0 <= j <= k ==> counts[j] == |Support(alpha, Min(j, k - j))|
    ensures forall j: nat, s: nat :: (j, s) in events <==> j <= k && s < |alpha| && alpha[s] <= Min(j, k - j)
    ensures InOrder(events)
  {
    counts, events := [], [];
    for j := 0 to k + 1
      invariant |counts| == j
      invariant forall i :: 0 <= i < j ==> counts[i] == |Support(alpha, Min(i, k - i))|
      invariant forall i: nat, s: nat :: (i, s) in events <==> i < j && s < |alpha| && alpha[s] <= Min(i, k - i)
      invariant InOrder(events) && forall e :: e in events ==> e.0 < j
    {
      var sites := Support(alpha, Min(j, k - j));
      var layer := seq(|sites|, i requires 0 <= i < |sites| => (j, sites[i]));
      forall i: nat, s: nat
        ensures (i, s) in layer <==> i == j && s in sites
      {
        if i == j && s in sites {
          var at :| 0 <= at < |sites| && sites[at] == s;
          assert layer[at] == (i, s);
        }
      }
      SupportIncreasing(alpha, Min(j, k - j), |alpha|);
      LayerInOrder(events, j, sites, layer);
      counts, events := counts + [|sites|], events + layer;
    }
  }
}
