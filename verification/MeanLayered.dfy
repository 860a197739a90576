/** The layered mean engine refines the sequential one: with the closed-neighbourhood
    test, every neighbour sum it reads is the sequential one. */
module MeanLayered {
  import opened Layering
  import opened Federation
  import opened MeanLaw

  const AVERAGE: Law<real> := (m: Move, p: real, q: real) => (Mean(p, q), Mean(p, q))

  /** Two states that agree on the closed neighbourhoods of `i` and `j` give the same tick. */
  lemma TickIsLocal(g: PortGraph, x: seq<real>, y: seq<real>, i: nat, j: nat)
    requires g.Valid() && |x| == |y| == g.ports && i < |x| && j < |x|
    requires forall p :: p in Needs(g, i, j, true) && p < g.ports ==> x[p] == y[p]
    ensures Tick(g, x, i, j) == Tick(g, y, i, j)
  {
    hide Score;
    SumIsLocal(x, y, g.Neighbours(i));
    SumIsLocal(x, y, g.Neighbours(j));
  }

  lemma {:induction false} SumIsLocal(x: seq<real>, y: seq<real>, nbrs: seq<nat>)
    requires |x| == |y| && forall k :: 0 <= k < |nbrs| ==> nbrs[k] < |x|
    requires forall p :: p in nbrs ==> x[p] == y[p]
    ensures NeighbourSum(x, nbrs) == NeighbourSum(y, nbrs)
  {
    if nbrs != [] {
      SumIsLocal(x, y, nbrs[..|nbrs| - 1]);
      assert nbrs[|nbrs| - 1] in nbrs;
    }
  }

  // ----- the tally of a trace

  /** The state a move saw, zero outside the ports it read. */
  ghost function SeenState(g: PortGraph, seen: map<nat, map<nat, real>>, id: nat): (r: seq<real>)
    ensures |r| == g.ports
  {
    seq(g.ports, (p: nat) => if id in seen && p in seen[id] then seen[id][p] else 0.0)
  }

  ghost function SeenTick(g: PortGraph, seen: map<nat, map<nat, real>>, m: Move): MeanCounts
    requires g.Valid() && m.a < g.ports && m.b < g.ports
  {
    Tick(g, SeenState(g, seen, m.id), m.a, m.b)
  }

  ghost function TallyOf(g: PortGraph, ms: seq<Move>, seen: map<nat, map<nat, real>>, r: nat): MeanCounts
    requires g.Valid() && AllFit(ms, g.ports) && r <= |ms|
  {
    if r == 0 then NOTHING else
      var rest := TallyOf(g, ms, seen, r - 1);
      if ms[r - 1].id in seen then rest.Plus(SeenTick(g, seen, ms[r - 1])) else rest
  }

  lemma SeenElsewhere(g: PortGraph, seen: map<nat, map<nat, real>>, id: nat, o: map<nat, real>, m: Move)
    requires g.Valid() && m.a < g.ports && m.b < g.ports && m.id != id
    ensures SeenTick(g, seen[id := o], m) == SeenTick(g, seen, m)
  {
    assert SeenState(g, seen[id := o], m.id) == SeenState(g, seen, m.id);
  }

  lemma PlusSwap(a: MeanCounts, b: MeanCounts, c: MeanCounts)
    ensures a.Plus(b).Plus(c) == a.Plus(c).Plus(b)
  {
  }

  lemma {:induction false} TallyInsert(g: PortGraph, ms: seq<Move>, seen: map<nat, map<nat, real>>, r: nat, id: nat,
                                       o: map<nat, real>)
    requires g.Valid() && AllFit(ms, g.ports) && r <= |ms| && Numbered(ms)
    requires id !in seen && id < |ms|
    ensures id < r ==> TallyOf(g, ms, seen[id := o], r) ==
                       TallyOf(g, ms, seen, r).Plus(SeenTick(g, seen[id := o], ms[id]))
    ensures r <= id ==> TallyOf(g, ms, seen[id := o], r) == TallyOf(g, ms, seen, r)
  {
    hide SeenTick;
    if r > 0 {
      TallyInsert(g, ms, seen, r - 1, id, o);
      if r - 1 != id {
        SeenElsewhere(g, seen, id, o, ms[r - 1]);
        PlusSwap(TallyOf(g, ms, seen, r - 1), SeenTick(g, seen[id := o], ms[id]), SeenTick(g, seen, ms[r - 1]));
      }
    }
  }

  /** What a move records of a state determines its tick. */
  lemma RecordedTick(g: PortGraph, seen: map<nat, map<nat, real>>, x: seq<real>, m: Move)
    requires g.Valid() && |x| == g.ports && Fits(m, g.ports) && m.needs == Needs(g, m.a, m.b, true)
    ensures SeenTick(g, seen[m.id := Readings(x, m.needs)], m) == Tick(g, x, m.a, m.b)
  {
    hide Needs, Tick;
    var y := SeenState(g, seen[m.id := Readings(x, m.needs)], m.id);
    assert forall p :: p in m.needs && p < g.ports ==> y[p] == x[p];
    TickIsLocal(g, x, y, m.a, m.b);
  }

  /** Recording one more move: its tick and its writes. */
  lemma RecordMove(g: PortGraph, all: seq<Move>, cur: Trace<real>, x0: seq<real>, m: Move)
    requires g.Valid() && |cur.x| == |x0| == g.ports && AllFit(all, g.ports) && Numbered(all)
    requires m.id < |all| && all[m.id] == m && m.id !in cur.seen && m.needs == Needs(g, m.a, m.b, true)
    requires forall p :: p in m.needs && p < g.ports ==> cur.x[p] == x0[p]
    ensures var nxt := Step(AVERAGE, cur, m);
            && nxt.x == cur.x[m.a := Mean(x0[m.a], x0[m.b])][m.b := Mean(x0[m.a], x0[m.b])]
            && TallyOf(g, all, nxt.seen, |all|) == TallyOf(g, all, cur.seen, |all|).Plus(Tick(g, x0, m.a, m.b))
    ensures x0[m.a] == x0[m.b] ==> Step(AVERAGE, cur, m).x == cur.x
  {
    hide Needs, Tick, TallyOf, SeenTick;
    assert Fits(m, g.ports);
    TallyInsert(g, all, cur.seen, |all|, m.id, Readings(cur.x, m.needs));
    RecordedTick(g, cur.seen, cur.x, m);
    TickIsLocal(g, cur.x, x0, m.a, m.b);
  }

  /** The moves of a layer, seen from the chunk. */
  ghost predicate LayerOf(g: PortGraph, all: seq<Move>, ms: seq<Move>, tr: Trace<real>)
  {
    && g.Valid() && |tr.x| == g.ports
    && Numbered(all) && AllFit(all, g.ports)
    && Independent(ms) && DistinctIds(ms) && AllFit(ms, g.ports)
    && forall k :: 0 <= k < |ms| ==>
         ms[k] in all && ms[k].id !in tr.seen && ms[k].needs == Needs(g, ms[k].a, ms[k].b, true)
  }

  /** Inside a layer, move `k` finds the closed neighbourhood of the pre-layer state. */
  lemma LayerMove(g: PortGraph, all: seq<Move>, ms: seq<Move>, tr: Trace<real>, k: nat)
    requires LayerOf(g, all, ms, tr) && k < |ms|
    ensures Fits(ms[k], g.ports) && ms[k].id < |all| && all[ms[k].id] == ms[k]
    ensures var cur, nxt := Run(AVERAGE, tr, ms[..k]), Run(AVERAGE, tr, ms[..k + 1]);
            var m := Mean(tr.x[ms[k].a], tr.x[ms[k].b]);
            && nxt.x == cur.x[ms[k].a := m][ms[k].b := m]
            && (tr.x[ms[k].a] == tr.x[ms[k].b] ==> nxt.x == cur.x)
            && TallyOf(g, all, nxt.seen, |all|) ==
               TallyOf(g, all, cur.seen, |all|).Plus(Tick(g, tr.x, ms[k].a, ms[k].b))
  {
    hide Needs, Tick, TallyOf, Mean;
    assert Fits(ms[k], g.ports) && ms[k] in all;
    LayerStep(AVERAGE, tr, ms, k);
    LayerSeen(g, all, ms, tr, k);
    var cur := Run(AVERAGE, tr, ms[..k]);
    assert forall e :: e in ms[..k] ==> !Feeds(e, ms[k]);
    ReadingsKept(AVERAGE, tr, ms[..k], ms[k]);
    RecordMove(g, all, cur, tr.x, ms[k]);
  }

  lemma LayerSeen(g: PortGraph, all: seq<Move>, ms: seq<Move>, tr: Trace<real>, k: nat)
    requires LayerOf(g, all, ms, tr) && k < |ms|
    ensures ms[k].id !in Run(AVERAGE, tr, ms[..k]).seen
  {
    hide Run, Needs;
    SeenKeys(AVERAGE, tr, ms[..k]);
  }

  /** Apply one layer: readings and neighbour sums are taken before any write. */
  method ApplyMeanLayer(x: array<real>, g: PortGraph, ea: seq<nat>, eb: seq<nat>, layer: seq<nat>, tally: MeanTally,
                        ghost all: seq<Move>, ghost ms: seq<Move>, ghost tr: Trace<real>, ghost base: MeanCounts)
    requires |ea| == |eb| == |all| && x.Length == g.ports
    requires forall k :: 0 <= k < |all| ==> all[k].a == ea[k] && all[k].b == eb[k]
    requires layer == Ids(ms) && LayerOf(g, all, ms, tr)
    requires x[..] == tr.x && tally.Value() == base.Plus(TallyOf(g, all, tr.seen, |all|))
    modifies x, tally
    ensures |Run(AVERAGE, tr, ms).x| == g.ports && x[..] == Run(AVERAGE, tr, ms).x
    ensures tally.Value() == base.Plus(TallyOf(g, all, Run(AVERAGE, tr, ms).seen, |all|))
  {
    hide Score, Mean, NeighbourSum, Ids, Run, TallyOf, Needs, Independent, DistinctIds, Feeds;
    ghost var x0 := x[..];
    forall k | 0 <= k < |ms|
      ensures layer[k] == ms[k].id < |ea| && ea[layer[k]] == ms[k].a < g.ports && eb[layer[k]] == ms[k].b < g.ports
    {
      IdsAt(ms, k);
      LayerMove(g, all, ms, tr, k);
    }
    var xa := seq(|layer|, k requires 0 <= k < |layer| reads x => x[ea[layer[k]]]);
    var xb := seq(|layer|, k requires 0 <= k < |layer| reads x => x[eb[layer[k]]]);
    var ticks: seq<MeanCounts> := [];
    for k := 0 to |layer|
      invariant x[..] == x0 && tally.Value() == base.Plus(TallyOf(g, all, tr.seen, |all|))
      invariant |ticks| == k && forall e :: 0 <= e < k ==> ticks[e] == Tick(g, x0, ms[e].a, ms[e].b)
    {
      var na, nb := g.Neighbours(ea[layer[k]]), g.Neighbours(eb[layer[k]]);
      var ni := SumNeighbours(x, na);
      var nj := SumNeighbours(x, nb);
      var _, tick := Resolve(xa[k], xb[k], ni, nj, |na|, |nb|);
      ticks := ticks + [tick];
    }
    assert ms[..0] == [];
    RunNone(AVERAGE, tr);
    for k := 0 to |layer|
      invariant x[..] == Run(AVERAGE, tr, ms[..k]).x
      invariant tally.Value() == base.Plus(TallyOf(g, all, Run(AVERAGE, tr, ms[..k]).seen, |all|))
    {
      LayerMove(g, all, ms, tr, k);
      PlusAssoc(base, TallyOf(g, all, Run(AVERAGE, tr, ms[..k]).seen, |all|), ticks[k]);
      tally.Add(ticks[k]);
      if xa[k] != xb[k] {
        var m := 0.5 * (xa[k] + xb[k]);
        MeanIs(xa[k], xb[k]);
        WriteBoth(x, ea[layer[k]], eb[layer[k]], m);
      }
    }
    assert ms[..|layer|] == ms;
  }

  lemma MeanIs(p: real, q: real)
    ensures Mean(p, q) == 0.5 * (p + q)
  {
  }

  // ----- chunks

  ghost predicate ChunkMoves(g: PortGraph, ss: seq<nat>, lo: nat, ms: seq<Move>)
  {
    && lo + |ms| <= |ss|
    && forall k :: 0 <= k < |ms| ==>
         ss[lo + k] < |g.a| && ss[lo + k] < |g.b| && ms[k].id == k
         && ms[k].a == g.a[ss[lo + k]] && ms[k].b == g.b[ss[lo + k]] && Fits(ms[k], g.ports)
         && g.Valid() && ms[k].needs == Needs(g, ms[k].a, ms[k].b, true)
  }

  lemma GoNext(g: PortGraph, ss: seq<nat>, st: Record, lo: nat, k: nat, m: Move)
    requires Schedule(g, ss) && |st.x| == g.ports && lo + k < |ss|
    requires m.a == g.a[ss[lo + k]] && m.b == g.b[ss[lo + k]]
    ensures m.a < g.ports && m.b < g.ports
    ensures Go(g, ss, st, lo, lo + k + 1) == Act(g, Go(g, ss, st, lo, lo + k), m.a, m.b)
  {
  }

  lemma StepIsMean(s: Trace<real>, m: Move)
    requires Fits(m, |s.x|)
    ensures Step(AVERAGE, s, m).x == s.x[m.a := Mean(s.x[m.a], s.x[m.b])][m.b := Mean(s.x[m.a], s.x[m.b])]
  {
  }

  /** In list order the trace is the sequential run: same state, same tally. */
  lemma {:induction false} TraceIsSequential(g: PortGraph, ss: seq<nat>, st: Record, lo: nat,
                                             all: seq<Move>, k: nat)
    requires Schedule(g, ss) && |st.x| == g.ports && lo + |all| <= |ss|
    requires ChunkMoves(g, ss, lo, all) && Numbered(all) && AllFit(all, g.ports) && k <= |all|
    ensures var tr, end := Run(AVERAGE, Trace(st.x, map[]), all[..k]), Go(g, ss, st, lo, lo + k);
            tr.x == end.x && end.counts == st.counts.Plus(TallyOf(g, all, tr.seen, |all|))
    ensures forall i: nat :: i in Run(AVERAGE, Trace(st.x, map[]), all[..k]).seen ==> i < k
    decreases k
  {
    hide Tick, Needs, Mean, Go, Run, TallyOf, Step;
    if k == 0 {
      assert all[..0] == [];
      RunNone(AVERAGE, Trace(st.x, map[]));
      GoNone(g, ss, st, lo);
      EmptyTally(g, all, |all|);
    } else {
      TraceIsSequential(g, ss, st, lo, all, k - 1);
      var m := all[k - 1];
      var cur := Run(AVERAGE, Trace(st.x, map[]), all[..k - 1]);
      RunNext(AVERAGE, Trace(st.x, map[]), all, k - 1);
      GoNext(g, ss, st, lo, k - 1, m);
      StepIsMean(cur, m);
      StepKeys(cur, m);
      RecordMove(g, all, cur, cur.x, m);
      PlusAssoc(st.counts, TallyOf(g, all, cur.seen, |all|), Tick(g, cur.x, m.a, m.b));
    }
  }

  lemma StepKeys(s: Trace<real>, m: Move)
    requires Fits(m, |s.x|)
    ensures Step(AVERAGE, s, m).seen.Keys == s.seen.Keys + {m.id}
  {
  }

  lemma {:induction false} EmptyTally(g: PortGraph, ms: seq<Move>, r: nat)
    requires g.Valid() && AllFit(ms, g.ports) && r <= |ms|
    ensures TallyOf(g, ms, map[], r) == NOTHING
  {
    if r > 0 {
      EmptyTally(g, ms, r - 1);
    }
  }

  /** Pending moves that read their closed neighbourhoods. */
  ghost predicate Waiting(g: PortGraph, all: seq<Move>, pending: seq<Move>, tr: Trace<real>)
  {
    && g.Valid() && Numbered(all)
    && Pending(g, all, pending, tr)
    && ReadsNeighbourhoods(g, all)
  }

  ghost predicate ReadsNeighbourhoods(g: PortGraph, all: seq<Move>)
    requires g.Valid()
  {
    forall m :: m in all ==> m.a < g.ports && m.b < g.ports && m.needs == Needs(g, m.a, m.b, true)
  }

  lemma WaitingStep(g: PortGraph, all: seq<Move>, pending: seq<Move>, tr: Trace<real>)
    requires Waiting(g, all, pending, tr)
    ensures |tr.x| == g.ports && AllFit(pending, g.ports) && AllFit(ReadyPart(pending), g.ports)
    ensures AllFit(RestPart(pending), g.ports)
    ensures LayerOf(g, all, ReadyPart(pending), tr)
    ensures Waiting(g, all, RestPart(pending), Run(AVERAGE, tr, ReadyPart(pending)))
    ensures Run(AVERAGE, Run(AVERAGE, tr, ReadyPart(pending)), RestPart(pending)) == Run(AVERAGE, tr, pending)
  {
    hide Needs, Run, Feeds, ReadyPart, RestPart;
    PendingStep(g, AVERAGE, all, pending, tr);
  }

  method ApplyLayers(x: array<real>, g: PortGraph, ea: seq<nat>, eb: seq<nat>, layers: seq<seq<nat>>, tally: MeanTally,
                     ghost all: seq<Move>, ghost base: MeanCounts)
    requires |ea| == |eb| == |all| && x.Length == g.ports
    requires forall k :: 0 <= k < |all| ==> all[k].a == ea[k] && all[k].b == eb[k]
    requires Waiting(g, all, all, Trace(x[..], map[]))
    requires layers == LayerIds(Layers(all))
    requires tally.Value() == base.Plus(TallyOf(g, all, map[], |all|))
    modifies x, tally
    ensures var tr := Run(AVERAGE, Trace(old(x[..]), map[]), all);
            x[..] == tr.x && tally.Value() == base.Plus(TallyOf(g, all, tr.seen, |all|))
  {
    hide Run, TallyOf, Layers, LayerIds, Ids, Waiting, LayerOf, ReadyPart, RestPart;
    ghost var tr := Trace(x[..], map[]);
    ghost var pending := all;
    WaitingFits(g, all, all, tr);
    ghost var goal := Run(AVERAGE, tr, all);
    for i := 0 to |layers|
      invariant Waiting(g, all, pending, tr) && g.Valid() && AllFit(all, g.ports) && |tr.x| == g.ports
      invariant AllFit(pending, g.ports) && Run(AVERAGE, tr, pending) == goal
      invariant layers[i..] == LayerIds(Layers(pending))
      invariant x[..] == tr.x && tally.Value() == base.Plus(TallyOf(g, all, tr.seen, |all|))
    {
      WaitingStep(g, all, pending, tr);
      if pending == [] {
        LayersNone(pending);
      }
      LayersHead(pending);
      assert layers[i..][0] == Ids(ReadyPart(pending));
      assert layers[i + 1..] == layers[i..][1..];
      ApplyMeanLayer(x, g, ea, eb, layers[i], tally, all, ReadyPart(pending), tr, base);
      tr := Run(AVERAGE, tr, ReadyPart(pending));
      pending := RestPart(pending);
    }
    NoLayersLeft(pending);
    RunNone(AVERAGE, tr);
  }

  lemma NoLayersLeft(pending: seq<Move>)
    requires LayerIds(Layers(pending)) == []
    ensures pending == []
  {
    if pending != [] {
      LayersHead(pending);
    }
  }

  lemma WaitingFits(g: PortGraph, all: seq<Move>, pending: seq<Move>, tr: Trace<real>)
    requires Waiting(g, all, pending, tr)
    ensures g.Valid() && AllFit(all, g.ports) && |tr.x| == g.ports && AllFit(pending, g.ports)
  {
  }

  lemma ChunkSetup(g: PortGraph, ss: seq<nat>, x: seq<real>, lo: nat, hi: nat, ea: seq<nat>, eb: seq<nat>,
                   ms: seq<Move>)
    requires Schedule(g, ss) && |x| == g.ports && lo <= hi <= |ss|
    requires ea == Endpoints(g.a, ss[lo..hi]) && eb == Endpoints(g.b, ss[lo..hi])
    requires ms == SeamMoves(g, ea, eb, true, Upto(|ea|))
    ensures |ms| == hi - lo && ChunkMoves(g, ss, lo, ms) && Numbered(ms) && AllFit(ms, g.ports)
    ensures Waiting(g, ms, ms, Trace(x, map[]))
    ensures TallyOf(g, ms, map[], |ms|) == NOTHING
  {
    hide Needs, Feeds, MutualReads;
    SeamMovesMutual(g, ea, eb, true);
    EmptyTally(g, ms, |ms|);
  }

  /** The layered mean engine, for every chunk size: state, waits, raising moves and
      ledger of the sequential engine. */
  method MeanMovesNumpy(x: array<real>, g: PortGraph, ss: seq<nat>, tally: MeanTally, chunk: nat)
    requires Schedule(g, ss) && x.Length == g.ports && chunk > 0
    modifies x, tally
    ensures var end := Go(g, ss, Record(old(x[..]), old(tally.Value())), 0, |ss|);
            x[..] == end.x && tally.Value() == end.counts
  {
    hide Go;
    ghost var st0 := Record(x[..], tally.Value());
    GoNone(g, ss, st0, 0);
    var start := 0;
    while start < |ss|
      invariant 0 <= start <= |ss|
      invariant Record(x[..], tally.Value()) == Go(g, ss, st0, 0, start)
    {
      var stop := if start + chunk < |ss| then start + chunk else |ss|;
      ghost var st := Record(x[..], tally.Value());
      GoTwice(g, ss, st0, 0, start, stop);
      ApplyChunk(x, g, ss, start, stop, tally);
      start := stop;
    }
  }

  method ApplyChunk(x: array<real>, g: PortGraph, ss: seq<nat>, lo: nat, hi: nat, tally: MeanTally)
    requires Schedule(g, ss) && x.Length == g.ports && lo <= hi <= |ss|
    modifies x, tally
    ensures Record(x[..], tally.Value()) == Go(g, ss, Record(old(x[..]), old(tally.Value())), lo, hi)
  {
    hide Go, Run, TallyOf, Waiting, SeamMoves, Layers, LayerIds, Needs, ChunkMoves, Feeds;
    ghost var st := Record(x[..], tally.Value());
    var ids := ss[lo..hi];
    var ea, eb := Endpoints(g.a, ids), Endpoints(g.b, ids);
    var layers := DependencyLayers(g, ea, eb, true);
    ghost var all := SeamMoves(g, ea, eb, true, Upto(|ea|));
    ChunkSetup(g, ss, st.x, lo, hi, ea, eb, all);
    WaitingFits(g, all, all, Trace(x[..], map[]));
    ApplyLayers(x, g, ea, eb, layers, tally, all, tally.Value());
    assert all[..|all|] == all && lo + |all| == hi;
    TraceIsSequential(g, ss, st, lo, all, |all|);
  }
}
