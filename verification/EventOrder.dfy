/** The causal order that a read-after-write log generates, from the log alone. */
module EventOrder {

  /** A register and a version of it. */
  type Key = (nat, nat)

  /** What one event wrote and what it read; an event is named by its position in the log. */
  datatype Event = Event(write: Key, inputs: seq<Key>)

  type Log = seq<Event>

  predicate OneWriter(log: Log)
  {
    forall p, q :: 0 <= p < q < |log| ==> log[p].write != log[q].write
  }

  /** An edge runs from the writer of a version to every event that reads it. */
  predicate Edge(log: Log, p: nat, e: nat)
  {
    p < |log| && e < |log| && log[p].write in log[e].inputs
  }

  predicate Chain(log: Log, w: seq<nat>)
  {
    && |w| > 0
    && (forall k :: 0 <= k < |w| ==> w[k] < |log|)
    && forall k :: 0 <= k < |w| - 1 ==> Edge(log, w[k], w[k + 1])
  }

  predicate ChainBetween(log: Log, w: seq<nat>, p: nat, e: nat)
  {
    Chain(log, w) && w[0] == p && w[|w| - 1] == e
  }

  /** The transitive closure of the edges. */
  ghost predicate Precedes(log: Log, p: nat, e: nat)
  {
    exists w :: ChainBetween(log, w, p, e) && |w| > 1
  }

  lemma PrecedesByEdge(log: Log, p: nat, e: nat)
    requires Edge(log, p, e)
    ensures Precedes(log, p, e)
  {
    assert ChainBetween(log, [p, e], p, e);
  }

  lemma PrecedesByHead(log: Log, p: nat, c: nat, e: nat)
    requires Edge(log, p, c) && Precedes(log, c, e)
    ensures Precedes(log, p, e)
  {
    var w :| ChainBetween(log, w, c, e) && |w| > 1;
    assert ChainBetween(log, [p] + w, p, e);
  }

  lemma PrecedesHead(log: Log, p: nat, e: nat) returns (c: nat)
    requires Precedes(log, p, e)
    ensures Edge(log, p, c) && (c == e || Precedes(log, c, e))
  {
    var w :| ChainBetween(log, w, p, e) && |w| > 1;
    c := w[1];
    assert Edge(log, w[0], w[0 + 1]);
    if |w| > 2 {
      assert ChainBetween(log, w[1..], c, e);
    }
  }

  // ----- reading a log

  datatype Fault = Unwritten | OwnVersion | NotEarlier

  datatype Outcome<T> = Ok(value: T) | TwoWriters | Faulty(fault: Fault)

  /** What is wrong with event `e` reading `key`, if anything. */
  ghost predicate HasFault(log: Log, e: nat, key: Key, fault: Fault)
    requires e < |log|
  {
    match fault
    case Unwritten => forall p :: 0 <= p < |log| ==> log[p].write != key
    case OwnVersion => log[e].write == key
    case NotEarlier => exists p :: e < p < |log| && log[p].write == key
  }

  ghost predicate Resolves(log: Log, e: nat, key: Key)
    requires e < |log|
  {
    exists p :: 0 <= p < e && log[p].write == key
  }

  ghost predicate ResolvesBelow(log: Log, e: nat, k: nat)
    requires e < |log| && k <= |log[e].inputs|
  {
    forall i :: 0 <= i < k ==> Resolves(log, e, log[e].inputs[i])
  }

  /** Every version has one writer and every read resolves to an earlier event. */
  ghost predicate Sound(log: Log)
  {
    OneWriter(log) && forall e :: 0 <= e < |log| ==> ResolvesBelow(log, e, |log[e].inputs|)
  }

  /** The first read that does not resolve, in execution order. */
  ghost predicate FirstFault(log: Log, fault: Fault)
  {
    exists e, k ::
      && 0 <= e < |log| && 0 <= k < |log[e].inputs|
      && (forall e' :: 0 <= e' < e ==> ResolvesBelow(log, e', |log[e'].inputs|))
      && ResolvesBelow(log, e, k)
      && HasFault(log, e, log[e].inputs[k], fault)
  }

  ghost predicate IsTable(log: Log, table: map<Key, nat>, m: nat)
    requires m <= |log|
  {
    && (forall key :: key in table ==> table[key] < m && log[table[key]].write == key)
    && forall p :: 0 <= p < m ==> log[p].write in table && table[log[p].write] == p
  }

  method WriterTable(log: Log) returns (r: Outcome<map<Key, nat>>)
    ensures r.Ok? || r == TwoWriters
    ensures r.Ok? <==> OneWriter(log)
    ensures r.Ok? ==> IsTable(log, r.value, |log|)
  {
    var table: map<Key, nat> := map[];
    for e := 0 to |log|
      invariant IsTable(log, table, e)
    {
      if log[e].write in table {
        assert log[table[log[e].write]].write == log[e].write;
        return TwoWriters;
      }
      table := table[log[e].write := e];
    }
    r := Ok(table);
  }

  /** `parents[e][k]` wrote what read `k` of event `e` names. */
  predicate ParentsOf(log: Log, e: nat, ps: seq<nat>)
    requires e < |log|
  {
    |ps| <= |log[e].inputs| && forall k :: 0 <= k < |ps| ==> ps[k] < e && log[ps[k]].write == log[e].inputs[k]
  }

  method ResolveReads(log: Log, table: map<Key, nat>, e: nat) returns (r: Outcome<seq<nat>>)
    requires e < |log| && IsTable(log, table, |log|)
    ensures r != TwoWriters
    ensures r.Ok? ==> ParentsOf(log, e, r.value) && |r.value| == |log[e].inputs|
    ensures r.Ok? ==> ResolvesBelow(log, e, |log[e].inputs|)
    ensures r.Faulty? ==> exists k :: 0 <= k < |log[e].inputs| && ResolvesBelow(log, e, k)
                                      && HasFault(log, e, log[e].inputs[k], r.fault)
  {
    var ps: seq<nat> := [];
    for k := 0 to |log[e].inputs|
      invariant |ps| == k && ParentsOf(log, e, ps) && ResolvesBelow(log, e, k)
    {
      var key := log[e].inputs[k];
      if key !in table {
        assert HasFault(log, e, log[e].inputs[k], Unwritten);
        return Faulty(Unwritten);
      }
      var p := table[key];
      if p == e {
        return Faulty(OwnVersion);
      }
      if p > e {
        return Faulty(NotEarlier);
      }
      assert Resolves(log, e, log[e].inputs[k]);
      ps := ps + [p];
    }
    r := Ok(ps);
  }

  predicate AllParents(log: Log, parents: seq<seq<nat>>)
  {
    |parents| <= |log| && forall e :: 0 <= e < |parents| ==>
      ParentsOf(log, e, parents[e]) && |parents[e]| == |log[e].inputs|
  }

  method Parents(log: Log) returns (r: Outcome<seq<seq<nat>>>)
    ensures r == TwoWriters <==> !OneWriter(log)
    ensures r.Ok? <==> Sound(log)
    ensures r.Ok? ==> AllParents(log, r.value) && |r.value| == |log|
    ensures r.Faulty? ==> FirstFault(log, r.fault)
  {
    var table := WriterTable(log);
    if table == TwoWriters {
      return TwoWriters;
    }
    var parents: seq<seq<nat>> := [];
    for e := 0 to |log|
      invariant |parents| == e && AllParents(log, parents)
      invariant forall e' :: 0 <= e' < e ==> ResolvesBelow(log, e', |log[e'].inputs|)
    {
      var ps := ResolveReads(log, table.value, e);
      if ps.Faulty? {
        ghost var k :| 0 <= k < |log[e].inputs| && ResolvesBelow(log, e, k) &&
          HasFault(log, e, log[e].inputs[k], ps.fault);
        FaultsExclude(log, e, log[e].inputs[k], ps.fault);
        return Faulty(ps.fault);
      }
      parents := parents + [ps.value];
    }
    r := Ok(parents);
  }

  /** A faulty read resolves nowhere. */
  lemma FaultsExclude(log: Log, e: nat, key: Key, fault: Fault)
    requires OneWriter(log) && e < |log| && HasFault(log, e, key, fault)
    ensures !Resolves(log, e, key)
  {
  }

  /** In a sound log the parents of an event are the sources of its edges. */
  lemma ParentsAreEdges(log: Log, parents: seq<seq<nat>>, p: nat, e: nat)
    requires OneWriter(log) && AllParents(log, parents) && e < |parents| && p < |log|
    ensures p in parents[e] <==> Edge(log, p, e)
    ensures Edge(log, p, e) ==> p < e
  {
    if Edge(log, p, e) {
      var k :| 0 <= k < |log[e].inputs| && log[e].inputs[k] == log[p].write;
      assert log[parents[e][k]].write == log[p].write;
    }
  }

  // ----- ranks

  ghost predicate ChainTo(log: Log, w: seq<nat>, e: nat)
  {
    Chain(log, w) && w[|w| - 1] == e
  }

  ghost predicate SomeChain(log: Log, e: nat, r: nat)
  {
    exists w :: ChainTo(log, w, e) && |w| == r + 1
  }

  ghost predicate NoLonger(log: Log, e: nat, r: nat)
  {
    forall w :: ChainTo(log, w, e) ==> |w| <= r + 1
  }

  /** The longest chain that ends in `e` has `r` edges. */
  ghost predicate LongestChain(log: Log, e: nat, r: nat)
  {
    SomeChain(log, e, r) && NoLonger(log, e, r)
  }

  method Ranks(log: Log, parents: seq<seq<nat>>) returns (rank: seq<nat>)
    requires OneWriter(log) && AllParents(log, parents) && |parents| == |log|
    ensures |rank| == |log|
    ensures forall e :: 0 <= e < |log| ==> LongestChain(log, e, rank[e])
  {
    hide OneWriter, LongestChain;
    rank := [];
    for e := 0 to |log|
      invariant |rank| == e
      invariant forall i :: 0 <= i < e ==> LongestChain(log, i, rank[i])
    {
      var best := BestParent(log, parents, rank, e);
      RankExtends(log, parents, rank, e, best);
      rank := rank + [best];
    }
  }

  /** One more than the largest parent rank, `0` without parents. */
  predicate Best(ps: seq<nat>, rank: seq<nat>, best: nat)
    requires forall k :: 0 <= k < |ps| ==> ps[k] < |rank|
  {
    && (forall i :: 0 <= i < |ps| ==> rank[ps[i]] + 1 <= best)
    && (best == 0 || exists i :: 0 <= i < |ps| && rank[ps[i]] + 1 == best)
  }

  method BestParent(log: Log, parents: seq<seq<nat>>, rank: seq<nat>, e: nat) returns (best: nat)
    requires AllParents(log, parents) && |rank| == e < |parents|
    ensures Best(parents[e], rank, best)
  {
    var ps := parents[e];
    best := 0;
    for k := 0 to |ps|
      invariant forall i :: 0 <= i < k ==> rank[ps[i]] + 1 <= best
      invariant best == 0 || exists i :: 0 <= i < k && rank[ps[i]] + 1 == best
    {
      if rank[ps[k]] + 1 > best {
        best := rank[ps[k]] + 1;
      }
    }
  }

  lemma RankExtends(log: Log, parents: seq<seq<nat>>, rank: seq<nat>, e: nat, best: nat)
    requires OneWriter(log) && AllParents(log, parents) && |rank| == e < |parents|
    requires forall i :: 0 <= i < e ==> LongestChain(log, i, rank[i])
    requires Best(parents[e], rank, best)
    ensures LongestChain(log, e, best)
  {
    hide Chain, OneWriter;
    if best == 0 {
      ChainOfOne(log, e);
    } else {
      var i :| 0 <= i < |parents[e]| && rank[parents[e][i]] + 1 == best;
      var p := parents[e][i];
      ParentsAreEdges(log, parents, p, e);
      ChainLonger(log, p, e, rank[p]);
    }
    forall w | ChainTo(log, w, e)
      ensures |w| <= best + 1
    {
      if |w| > 1 {
        var p := ChainShorter(log, w, e);
        ParentsAreEdges(log, parents, p, e);
        assert LongestChain(log, p, rank[p]);
        var i :| 0 <= i < |parents[e]| && parents[e][i] == p;
        assert rank[parents[e][i]] + 1 <= best;
      }
    }
  }

  lemma ChainOfOne(log: Log, e: nat)
    requires e < |log|
    ensures SomeChain(log, e, 0)
  {
    assert ChainTo(log, [e], e);
  }

  lemma ChainLonger(log: Log, p: nat, e: nat, r: nat)
    requires Edge(log, p, e) && SomeChain(log, p, r)
    ensures SomeChain(log, e, r + 1)
  {
    var w :| ChainTo(log, w, p) && |w| == r + 1;
    assert ChainTo(log, w + [e], e);
  }

  lemma ChainShorter(log: Log, w: seq<nat>, e: nat) returns (p: nat)
    requires ChainTo(log, w, e) && |w| > 1
    ensures p < |log| && Edge(log, p, e) && ChainTo(log, w[..|w| - 1], p)
  {
    p := w[|w| - 2];
    assert Edge(log, w[|w| - 2], w[|w| - 2 + 1]);
  }

  // ----- descendants

  /** `cs` lists the events below `m` that have `p` among their parents. */
  ghost predicate ChildrenOf(parents: seq<seq<nat>>, m: nat, p: nat, cs: seq<nat>)
    requires m <= |parents|
  {
    forall c: nat :: c in cs <==> c < m && p in parents[c]
  }

  method Children(log: Log, parents: seq<seq<nat>>) returns (children: seq<seq<nat>>)
    requires AllParents(log, parents) && |parents| == |log|
    ensures |children| == |log|
    ensures forall p :: 0 <= p < |log| ==> ChildrenOf(parents, |log|, p, children[p])
  {
    children := seq(|log|, _ => []);
    for e := 0 to |log|
      invariant |children| == |log|
      invariant forall p :: 0 <= p < |log| ==> ChildrenOf(parents, e, p, children[p])
    {
      var ps := parents[e];
      for k := 0 to |ps|
        invariant |children| == |log|
        invariant forall p :: 0 <= p < |log| ==> forall c: nat :: c in children[p] <==>
          (c < e && p in parents[c]) || (c == e && p in ps[..k])
      {
        children := children[ps[k] := children[ps[k]] + [e]];
      }
      assert ps[..|ps|] == ps;
    }
  }

  /** `d` holds the events strictly above `e`. */
  ghost predicate Descendants(log: Log, e: nat, d: set<nat>)
  {
    forall f: nat :: f in d <==> Precedes(log, e, f)
  }

  method DescendantSets(log: Log, parents: seq<seq<nat>>, children: seq<seq<nat>>) returns (descendants: seq<set<nat>>)
    requires OneWriter(log) && AllParents(log, parents) && |parents| == |log| && |children| == |log|
    requires forall p :: 0 <= p < |log| ==> ChildrenOf(parents, |log|, p, children[p])
    ensures |descendants| == |log|
    ensures forall e :: 0 <= e < |log| ==> Descendants(log, e, descendants[e])
  {
    hide OneWriter, ParentsOf, Precedes, Descendants;
    descendants := seq(|log|, _ => {});
    for e := |log| downto 0
      invariant |descendants| == |log|
      invariant forall i :: e <= i < |log| ==> Descendants(log, i, descendants[i])
    {
      var acc := Gather(log, parents, descendants, e, children[e]);
      AreDescendants(log, parents, e, children[e], acc);
      descendants := descendants[e := acc];
    }
  }

  ghost predicate Above(log: Log, c: nat, f: nat)
  {
    f == c || Precedes(log, c, f)
  }

  method Gather(log: Log, parents: seq<seq<nat>>, descendants: seq<set<nat>>, e: nat, cs: seq<nat>)
    returns (acc: set<nat>)
    requires OneWriter(log) && AllParents(log, parents) && |parents| == |log| == |descendants| && e < |log|
    requires ChildrenOf(parents, |log|, e, cs)
    requires forall i :: e < i < |log| ==> Descendants(log, i, descendants[i])
    ensures forall f: nat :: f in acc <==> exists i :: 0 <= i < |cs| && Above(log, cs[i], f)
  {
    hide OneWriter, ParentsOf, Precedes;
    acc := {};
    for k := 0 to |cs|
      invariant forall f: nat :: f in acc <==> exists i :: 0 <= i < k && Above(log, cs[i], f)
    {
      assert cs[k] in cs;
      ParentsAreEdges(log, parents, e, cs[k]);
      assert Descendants(log, cs[k], descendants[cs[k]]);
      acc := acc + {cs[k]} + descendants[cs[k]];
    }
  }

  lemma AreDescendants(log: Log, parents: seq<seq<nat>>, e: nat, cs: seq<nat>, acc: set<nat>)
    requires OneWriter(log) && AllParents(log, parents) && |parents| == |log| && e < |log|
    requires ChildrenOf(parents, |log|, e, cs)
    requires forall f: nat :: f in acc <==> exists i :: 0 <= i < |cs| && Above(log, cs[i], f)
    ensures Descendants(log, e, acc)
  {
    forall f: nat
      ensures f in acc <==> Precedes(log, e, f)
    {
      if f in acc {
        var i :| 0 <= i < |cs| && Above(log, cs[i], f);
        assert cs[i] in cs;
        ParentsAreEdges(log, parents, e, cs[i]);
        if f == cs[i] {
          PrecedesByEdge(log, e, f);
        } else {
          PrecedesByHead(log, e, cs[i], f);
        }
      }
      if Precedes(log, e, f) {
        var c := PrecedesHead(log, e, f);
        ParentsAreEdges(log, parents, e, c);
        var i :| 0 <= i < |cs| && cs[i] == c;
        assert Above(log, cs[i], f);
      }
    }
  }

  datatype Order = Order(parents: seq<seq<nat>>, children: seq<seq<nat>>, rank: seq<nat>, descendants: seq<set<nat>>)

  /** The generated order of a log is the transitive closure of its edges. */
  ghost predicate Generated(log: Log, order: Order)
  {
    && |order.rank| == |order.descendants| == |log|
    && (forall e :: 0 <= e < |log| ==> LongestChain(log, e, order.rank[e]))
    && forall e :: 0 <= e < |log| ==> Descendants(log, e, order.descendants[e])
  }

  method Provenance(log: Log) returns (r: Outcome<Order>)
    ensures r == TwoWriters <==> !OneWriter(log)
    ensures r.Ok? <==> Sound(log)
    ensures r.Faulty? ==> FirstFault(log, r.fault)
    ensures r.Ok? ==> Generated(log, r.value)
  {
    var parents := Parents(log);
    match parents
    case TwoWriters => r := TwoWriters;
    case Faulty(f) => r := Faulty(f);
    case Ok(ps) =>
      var rank := Ranks(log, ps);
      var children := Children(log, ps);
      var descendants := DescendantSets(log, ps, children);
      r := Ok(Order(ps, children, rank, descendants));
  }
}
