/** Seams between ports, and the dependency layers of a list of seams. */
module Federation {
  import opened Layering

  /** Seam `s` joins the ports `a[s]` and `b[s]`. */
  datatype PortGraph = PortGraph(ports: nat, a: seq<nat>, b: seq<nat>) {

    ghost predicate Valid()
    {
      && |a| == |b|
      && (forall s :: 0 <= s < |a| ==> a[s] < ports && b[s] < ports)
    }

    predicate Joins(s: nat, p: nat, q: nat)
      requires s < |a| && s < |b|
    {
      (a[s] == p && b[s] == q) || (a[s] == q && b[s] == p)
    }

    predicate Adjacent(p: nat, q: nat)
      requires Valid()
    {
      exists s :: 0 <= s < |a| && Joins(s, p, q)
    }

    /** The neighbours of `p` below `bound`, ascending, each once. */
    function NeighboursBelow(p: nat, bound: nat): (r: seq<nat>)
      requires Valid()
      ensures forall q: nat :: q in r <==> q < bound && Adjacent(p, q)
      ensures forall k :: 0 <= k < |r| ==> r[k] < bound
    {
      if bound == 0 then [] else
        NeighboursBelow(p, bound - 1) + if Adjacent(p, bound - 1) then [bound - 1] else []
    }

    function Neighbours(p: nat): (r: seq<nat>)
      requires Valid()
      ensures forall q: nat :: q in r <==> q < ports && Adjacent(p, q)
      ensures forall k :: 0 <= k < |r| ==> r[k] < ports
    {
      NeighboursBelow(p, ports)
    }
  }

  /** The ports a seam move depends on: its own two, and with `wide` their neighbours too. */
  function Needs(g: PortGraph, p: nat, q: nat, wide: bool): set<nat>
    requires g.Valid()
  {
    {p, q} + if wide then (set u | u in g.Neighbours(p) + g.Neighbours(q)) else {}
  }

  function SeamMove(g: PortGraph, ea: seq<nat>, eb: seq<nat>, wide: bool, k: nat): Move
    requires g.Valid() && |ea| == |eb| && k < |ea|
  {
    Move(k, ea[k], eb[k], Needs(g, ea[k], eb[k], wide))
  }

  /** The moves with the given positions, in that order. */
  function SeamMoves(g: PortGraph, ea: seq<nat>, eb: seq<nat>, wide: bool, ids: seq<nat>): (ms: seq<Move>)
    requires g.Valid() && |ea| == |eb|
    requires forall k :: 0 <= k < |ids| ==> ids[k] < |ea|
    ensures |ms| == |ids| && forall k :: 0 <= k < |ids| ==> ms[k] == SeamMove(g, ea, eb, wide, ids[k])
  {
    seq(|ids|, k requires 0 <= k < |ids| => SeamMove(g, ea, eb, wide, ids[k]))
  }

  function Upto(n: nat): (r: seq<nat>)
    ensures |r| == n && forall k :: 0 <= k < n ==> r[k] == k
  {
    seq(n, k requires 0 <= k < n => k)
  }

  function Endpoints(side: seq<nat>, ids: seq<nat>): (r: seq<nat>)
    requires forall k :: 0 <= k < |ids| ==> ids[k] < |side|
    ensures |r| == |ids| && forall k :: 0 <= k < |r| ==> r[k] == side[ids[k]]
  {
    seq(|ids|, k requires 0 <= k < |ids| => side[ids[k]])
  }

  function Ids(ms: seq<Move>): (r: seq<nat>)
    ensures |r| == |ms|
  {
    if ms == [] then [] else Ids(ms[..|ms| - 1]) + [ms[|ms| - 1].id]
  }

  lemma {:induction false} IdsAt(ms: seq<Move>, k: nat)
    requires k < |ms|
    ensures Ids(ms)[k] == ms[k].id
  {
    if k < |ms| - 1 {
      IdsAt(ms[..|ms| - 1], k);
    }
  }

  lemma IdsSnoc(ms: seq<Move>, m: Move)
    ensures Ids(ms + [m]) == Ids(ms) + [m.id]
  {
    assert (ms + [m])[..|ms|] == ms;
  }

  function LayerIds(layers: seq<seq<Move>>): seq<seq<nat>>
  {
    if layers == [] then [] else [Ids(layers[0])] + LayerIds(layers[1..])
  }

  /** Reading is mutual between two seam moves, because a neighbour relation is symmetric. */
  lemma FeedsBack(g: PortGraph, ea: seq<nat>, eb: seq<nat>, wide: bool, j: nat, k: nat)
    requires g.Valid() && |ea| == |eb| && j < |ea| && k < |ea|
    requires ea[j] < g.ports && eb[j] < g.ports && ea[k] < g.ports && eb[k] < g.ports
    requires Feeds(SeamMove(g, ea, eb, wide, j), SeamMove(g, ea, eb, wide, k))
    ensures Feeds(SeamMove(g, ea, eb, wide, k), SeamMove(g, ea, eb, wide, j))
  {
    var p :| p in {ea[j], eb[j]} && p in SeamMove(g, ea, eb, wide, k).needs;
    if p !in {ea[k], eb[k]} {
      var q :| q in {ea[k], eb[k]} && p in g.Neighbours(q);
      var s :| 0 <= s < |g.a| && g.Joins(s, q, p);
      assert g.Joins(s, p, q);
      assert q in g.Neighbours(p);
    }
  }

  /** Seam moves satisfy the hypotheses of the layering theory: a neighbour
      relation is symmetric, so reading is mutual. */
  lemma SeamMovesMutual(g: PortGraph, ea: seq<nat>, eb: seq<nat>, wide: bool)
    requires g.Valid() && |ea| == |eb|
    requires forall k :: 0 <= k < |ea| ==> ea[k] < g.ports && eb[k] < g.ports
    ensures var ms := SeamMoves(g, ea, eb, wide, Upto(|ea|));
            AllFit(ms, g.ports) && DistinctIds(ms) && MutualReads(ms)
  {
    hide SeamMoves, Feeds;
    var ms := SeamMoves(g, ea, eb, wide, Upto(|ea|));
    forall j, k | 0 <= j < |ms| && 0 <= k < |ms| && Feeds(ms[j], ms[k])
      ensures Feeds(ms[k], ms[j])
    {
      FeedsBack(g, ea, eb, wide, j, k);
    }
  }

  ghost predicate Touches(ra: seq<nat>, rb: seq<nat>, k: nat, p: nat)
    requires |ra| == |rb| && k < |ra|
  {
    ra[k] == p || rb[k] == p
  }

  /** `first[p]` is the earliest position touching port `p`, or the number of positions. */
  ghost predicate Earliest(first: seq<nat>, ra: seq<nat>, rb: seq<nat>, upto: nat)
    requires |ra| == |rb| && upto <= |ra|
  {
    forall p :: 0 <= p < |first| ==>
      && (forall e :: 0 <= e < upto && e < first[p] ==> !Touches(ra, rb, e, p))
      && (first[p] == |ra| || (first[p] < upto && Touches(ra, rb, first[p], p)))
  }

  method FirstPositions(ports: nat, ra: seq<nat>, rb: seq<nat>) returns (first: seq<nat>)
    requires |ra| == |rb|
    requires forall k :: 0 <= k < |ra| ==> ra[k] < ports && rb[k] < ports
    ensures |first| == ports && Earliest(first, ra, rb, |ra|)
  {
    var r := |ra|;
    var table := new nat[ports](_ => r);
    for k := 0 to r
      invariant Earliest(table[..], ra, rb, k)
    {
      if table[ra[k]] == r { table[ra[k]] := k; }
      if table[rb[k]] == r { table[rb[k]] := k; }
    }
    first := table[..];
  }

  /** The readiness test of one position against the earliest positions. */
  predicate MayGo(g: PortGraph, wide: bool, first: seq<nat>, p: nat, q: nat, k: nat)
    requires g.Valid() && |first| == g.ports && p < g.ports && q < g.ports
  {
    && first[p] == k
    && first[q] == k
    && (!wide || forall u :: u in g.Neighbours(p) + g.Neighbours(q) ==> first[u] >= k)
  }

  lemma GoingIsFree(g: PortGraph, ea: seq<nat>, eb: seq<nat>, wide: bool, rem: seq<nat>,
                    ra: seq<nat>, rb: seq<nat>, first: seq<nat>, k: nat)
    requires g.Valid() && |ea| == |eb|
    requires forall i :: 0 <= i < |rem| ==> rem[i] < |ea|
    requires |ra| == |rb| == |rem| && k < |rem|
    requires forall i :: 0 <= i < |rem| ==> ra[i] == ea[rem[i]] && rb[i] == eb[rem[i]]
    requires ra[k] < g.ports && rb[k] < g.ports
    requires |first| == g.ports && Earliest(first, ra, rb, |ra|)
    requires MayGo(g, wide, first, ra[k], rb[k], k)
    ensures Free(g, ea, eb, wide, rem, k)
  {
    var ms := SeamMoves(g, ea, eb, wide, rem);
    forall e | 0 <= e < k
      ensures !Feeds(ms[e], ms[k])
    {
      forall p | p in ms[k].needs
        ensures !Touches(ra, rb, e, p)
      {
        assert first[p] >= k;
      }
    }
  }

  lemma FreeMayGo(g: PortGraph, ea: seq<nat>, eb: seq<nat>, wide: bool, rem: seq<nat>,
                  ra: seq<nat>, rb: seq<nat>, first: seq<nat>, k: nat)
    requires g.Valid() && |ea| == |eb|
    requires forall i :: 0 <= i < |rem| ==> rem[i] < |ea|
    requires |ra| == |rb| == |rem| && k < |rem|
    requires forall i :: 0 <= i < |rem| ==> ra[i] == ea[rem[i]] && rb[i] == eb[rem[i]]
    requires ra[k] < g.ports && rb[k] < g.ports
    requires |first| == g.ports && Earliest(first, ra, rb, |ra|)
    requires Free(g, ea, eb, wide, rem, k)
    ensures MayGo(g, wide, first, ra[k], rb[k], k)
  {
    var ms := SeamMoves(g, ea, eb, wide, rem);
    assert Touches(ra, rb, k, ra[k]) && Touches(ra, rb, k, rb[k]);
    forall p | p in ms[k].needs
      ensures first[p] >= k
    {
      if first[p] < k {
        assert Touches(ra, rb, first[p], p);
        assert Feeds(ms[first[p]], ms[k]);
      }
    }
    assert ra[k] in ms[k].needs && rb[k] in ms[k].needs;
  }

  /** The test on earliest positions is exactly readiness in the layering theory. */
  lemma ReadyByFirst(g: PortGraph, ea: seq<nat>, eb: seq<nat>, wide: bool, rem: seq<nat>,
                     ra: seq<nat>, rb: seq<nat>, first: seq<nat>, k: nat)
    requires g.Valid() && |ea| == |eb|
    requires forall i :: 0 <= i < |rem| ==> rem[i] < |ea|
    requires |ra| == |rb| == |rem| && k < |rem|
    requires forall i :: 0 <= i < |rem| ==> ra[i] == ea[rem[i]] && rb[i] == eb[rem[i]]
    requires ra[k] < g.ports && rb[k] < g.ports
    requires |first| == g.ports && Earliest(first, ra, rb, |ra|)
    ensures MayGo(g, wide, first, ra[k], rb[k], k) <==> Free(g, ea, eb, wide, rem, k)
  {
    hide MayGo, Free, Earliest;
    if MayGo(g, wide, first, ra[k], rb[k], k) {
      GoingIsFree(g, ea, eb, wide, rem, ra, rb, first, k);
    }
    if Free(g, ea, eb, wide, rem, k) {
      FreeMayGo(g, ea, eb, wide, rem, ra, rb, first, k);
    }
  }

  /** One more position extends the layer or the rest, by its readiness. */
  lemma PartsGrow(ms: seq<Move>, k: nat)
    requires k < |ms|
    ensures Ids(ReadyPart(ms[..k + 1])) ==
            if Ready(ms, k) then Ids(ReadyPart(ms[..k])) + [ms[k].id] else Ids(ReadyPart(ms[..k]))
    ensures if Ready(ms, k)
            then ReadyPart(ms[..k + 1]) == ReadyPart(ms[..k]) + [ms[k]] && RestPart(ms[..k + 1]) == RestPart(ms[..k])
            else ReadyPart(ms[..k + 1]) == ReadyPart(ms[..k]) && RestPart(ms[..k + 1]) == RestPart(ms[..k]) + [ms[k]]
  {
    assert Ready(ms[..k + 1], k) <==> Ready(ms, k);
    assert ms[..k + 1][..k] == ms[..k];
    PartsSnoc(ms[..k + 1]);
    IdsSnoc(ReadyPart(ms[..k]), ms[k]);
  }

  lemma LayersNone(pending: seq<Move>)
    requires pending == []
    ensures LayerIds(Layers(pending)) == []
  {
  }

  lemma LayersHead(pending: seq<Move>)
    requires pending != []
    ensures LayerIds(Layers(pending)) == [Ids(ReadyPart(pending))] + LayerIds(Layers(RestPart(pending)))
  {
    hide Ids, ReadyPart, RestPart;
    assert Layers(pending)[1..] == Layers(RestPart(pending));
  }

  /** Position `k` of the remaining list is ready. */
  ghost predicate Free(g: PortGraph, ea: seq<nat>, eb: seq<nat>, wide: bool, rem: seq<nat>, k: nat)
    requires g.Valid() && |ea| == |eb|
    requires forall i :: 0 <= i < |rem| ==> rem[i] < |ea|
    requires k < |rem|
  {
    Ready(SeamMoves(g, ea, eb, wide, rem), k)
  }

  /** The ready positions among the first `k`, and the others, in order. */
  ghost function Split(g: PortGraph, ea: seq<nat>, eb: seq<nat>, wide: bool, rem: seq<nat>, k: nat)
    : (r: (seq<nat>, seq<nat>))
    requires g.Valid() && |ea| == |eb|
    requires forall i :: 0 <= i < |rem| ==> rem[i] < |ea|
    requires k <= |rem|
    ensures |r.0| + |r.1| == k
  {
    if k == 0 then ([], []) else
      var (ready, rest) := Split(g, ea, eb, wide, rem, k - 1);
      if Free(g, ea, eb, wide, rem, k - 1) then (ready + [rem[k - 1]], rest) else (ready, rest + [rem[k - 1]])
  }

  /** Ready positions and waiting positions are the two parts of the moves. */
  ghost predicate AreParts(g: PortGraph, ea: seq<nat>, eb: seq<nat>, wide: bool, ms: seq<Move>,
                           ready: seq<nat>, rest: seq<nat>)
    requires g.Valid() && |ea| == |eb|
  {
    && (forall i :: 0 <= i < |rest| ==> rest[i] < |ea|)
    && ready == Ids(ReadyPart(ms))
    && SeamMoves(g, ea, eb, wide, rest) == RestPart(ms)
  }

  lemma SeamMovesSnoc(g: PortGraph, ea: seq<nat>, eb: seq<nat>, wide: bool, ids: seq<nat>, id: nat)
    requires g.Valid() && |ea| == |eb| && id < |ea|
    requires forall k :: 0 <= k < |ids| ==> ids[k] < |ea|
    ensures SeamMoves(g, ea, eb, wide, ids + [id]) ==
            SeamMoves(g, ea, eb, wide, ids) + [SeamMove(g, ea, eb, wide, id)]
  {
    hide SeamMove;
  }

  lemma PartsStep(g: PortGraph, ea: seq<nat>, eb: seq<nat>, wide: bool, rem: seq<nat>, k: nat,
                  ready: seq<nat>, rest: seq<nat>)
    requires g.Valid() && |ea| == |eb| && k < |rem|
    requires forall i :: 0 <= i < |rem| ==> rem[i] < |ea|
    requires AreParts(g, ea, eb, wide, SeamMoves(g, ea, eb, wide, rem)[..k], ready, rest)
    ensures if Free(g, ea, eb, wide, rem, k)
            then AreParts(g, ea, eb, wide, SeamMoves(g, ea, eb, wide, rem)[..k + 1], ready + [rem[k]], rest)
            else AreParts(g, ea, eb, wide, SeamMoves(g, ea, eb, wide, rem)[..k + 1], ready, rest + [rem[k]])
  {
    hide Ready, ReadyPart, RestPart, Ids, SeamMoves;
    var ms := SeamMoves(g, ea, eb, wide, rem);
    assert ms[k] == SeamMove(g, ea, eb, wide, rem[k]);
    PartsGrow(ms, k);
    SeamMovesSnoc(g, ea, eb, wide, rest, rem[k]);
  }

  /** Splitting positions is splitting their moves. */
  lemma {:induction false} SplitIsParts(g: PortGraph, ea: seq<nat>, eb: seq<nat>, wide: bool, rem: seq<nat>, k: nat)
    requires g.Valid() && |ea| == |eb|
    requires forall i :: 0 <= i < |rem| ==> rem[i] < |ea|
    requires k <= |rem|
    ensures var (ready, rest) := Split(g, ea, eb, wide, rem, k);
            AreParts(g, ea, eb, wide, SeamMoves(g, ea, eb, wide, rem)[..k], ready, rest)
  {
    hide AreParts, Free, SeamMoves;
    if k == 0 {
      NoParts(g, ea, eb, wide, SeamMoves(g, ea, eb, wide, rem)[..0]);
    } else {
      SplitIsParts(g, ea, eb, wide, rem, k - 1);
      var (ready, rest) := Split(g, ea, eb, wide, rem, k - 1);
      PartsStep(g, ea, eb, wide, rem, k - 1, ready, rest);
    }
  }

  lemma NoParts(g: PortGraph, ea: seq<nat>, eb: seq<nat>, wide: bool, ms: seq<Move>)
    requires g.Valid() && |ea| == |eb| && ms == []
    ensures AreParts(g, ea, eb, wide, ms, [], [])
  {
    PartsNone();
  }

  lemma PartsNone()
    ensures ReadyPart([]) == [] && RestPart([]) == []
  {
  }

  /** One pass: the positions that are ready, and those that wait. */
  method SplitReady(g: PortGraph, ea: seq<nat>, eb: seq<nat>, wide: bool, remaining: seq<nat>)
    returns (ready: seq<nat>, rest: seq<nat>)
    requires g.Valid() && |ea| == |eb|
    requires forall k :: 0 <= k < |ea| ==> ea[k] < g.ports && eb[k] < g.ports
    requires forall k :: 0 <= k < |remaining| ==> remaining[k] < |ea|
    ensures (ready, rest) == Split(g, ea, eb, wide, remaining, |remaining|)
  {
    hide Free, MayGo, Earliest;
    var r := |remaining|;
    var ra := seq(r, k requires 0 <= k < r => ea[remaining[k]]);
    var rb := seq(r, k requires 0 <= k < r => eb[remaining[k]]);
    var first := FirstPositions(g.ports, ra, rb);
    ready, rest := [], [];
    for k := 0 to r
      invariant (ready, rest) == Split(g, ea, eb, wide, remaining, k)
    {
      ReadyByFirst(g, ea, eb, wide, remaining, ra, rb, first, k);
      if MayGo(g, wide, first, ra[k], rb[k], k) {
        ready := ready + [remaining[k]];
      } else {
        rest := rest + [remaining[k]];
      }
    }
  }

  /** The layers of the remaining positions. */
  ghost function LayersOf(g: PortGraph, ea: seq<nat>, eb: seq<nat>, wide: bool, rem: seq<nat>): seq<seq<nat>>
    requires g.Valid() && |ea| == |eb|
    requires forall k :: 0 <= k < |rem| ==> rem[k] < |ea|
  {
    LayerIds(Layers(SeamMoves(g, ea, eb, wide, rem)))
  }

  lemma LayersOfHead(g: PortGraph, ea: seq<nat>, eb: seq<nat>, wide: bool, rem: seq<nat>)
    requires g.Valid() && |ea| == |eb|
    requires forall k :: 0 <= k < |rem| ==> rem[k] < |ea|
    ensures rem == [] ==> LayersOf(g, ea, eb, wide, rem) == []
    ensures var (ready, rest) := Split(g, ea, eb, wide, rem, |rem|);
            && (forall k :: 0 <= k < |rest| ==> rest[k] < |ea|)
            && (rem != [] ==> ready != [])
            && (rem != [] ==> LayersOf(g, ea, eb, wide, rem) == [ready] + LayersOf(g, ea, eb, wide, rest))
  {
    var ms := SeamMoves(g, ea, eb, wide, rem);
    if rem == [] {
      LayersNone(ms);
    } else {
      hide Needs, Layers, LayerIds, SeamMove, Split;
      assert ms[..|rem|] == ms;
      SplitIsParts(g, ea, eb, wide, rem, |rem|);
      LayersHead(ms);
    }
  }

  /** Yield the layers of a list of seams as lists of positions. */
  method DependencyLayers(g: PortGraph, ea: seq<nat>, eb: seq<nat>, wide: bool) returns (layers: seq<seq<nat>>)
    requires g.Valid() && |ea| == |eb|
    requires forall k :: 0 <= k < |ea| ==> ea[k] < g.ports && eb[k] < g.ports
    ensures layers == LayersOf(g, ea, eb, wide, Upto(|ea|))
  {
    layers := [];
    var remaining: seq<nat> := Upto(|ea|);
    hide LayersOf, Split, Upto;
    while remaining != []
      invariant forall k :: 0 <= k < |remaining| ==> remaining[k] < |ea|
      invariant LayersOf(g, ea, eb, wide, Upto(|ea|)) == layers + LayersOf(g, ea, eb, wide, remaining)
      decreases |remaining|
    {
      LayersOfHead(g, ea, eb, wide, remaining);
      var ready, rest := SplitReady(g, ea, eb, wide, remaining);
      layers := layers + [ready];
      remaining := rest;
    }
    LayersOfHead(g, ea, eb, wide, remaining);
  }

  /** The moves of a chunk that still wait, given the trace so far. */
  ghost predicate Pending<T>(g: PortGraph, all: seq<Move>, pending: seq<Move>, tr: Trace<T>)
  {
    && |tr.x| == g.ports
    && AllFit(all, g.ports)
    && AllFit(pending, g.ports) && DistinctIds(pending) && MutualReads(pending)
    && forall m :: m in pending ==> m in all && m.id !in tr.seen
  }

  /** Applying a layer leaves the rest pending and does not change the outcome of the chunk. */
  lemma PendingStep<T>(g: PortGraph, law: Law<T>, all: seq<Move>, pending: seq<Move>, tr: Trace<T>)
    requires Pending(g, all, pending, tr)
    ensures var ready, rest := ReadyPart(pending), RestPart(pending);
            && AllFit(ready, g.ports) && Independent(ready) && DistinctIds(ready)
            && (forall k :: 0 <= k < |ready| ==> ready[k] in all && ready[k].id !in tr.seen)
            && Pending(g, all, rest, Run(law, tr, ready))
            && Run(law, Run(law, tr, ready), rest) == Run(law, tr, pending)
  {
    hide Run, ReadyPart, RestPart, Independent, DistinctIds, MutualReads;
    PartsInherit(pending, g.ports);
    PartsMembers(pending);
    PartsMeet(pending);
    LayerIndependent(pending);
    LayerFirst(law, tr, pending);
    SeenKeys(law, tr, ReadyPart(pending));
  }

  // ----- components and paths

  /** Seams join ports of one component. */
  ghost predicate SeamsInside(g: PortGraph, labels: seq<nat>)
  {
    && g.Valid()
    && |labels| == g.ports
    && forall s :: 0 <= s < |g.a| ==> labels[g.a[s]] == labels[g.b[s]]
  }

  ghost predicate Path(g: PortGraph, path: seq<nat>)
  {
    && g.Valid()
    && |path| > 0
    && (forall k :: 0 <= k < |path| ==> path[k] < g.ports)
    && forall k :: 0 <= k < |path| - 1 ==> g.Adjacent(path[k], path[k + 1])
  }

  ghost predicate PathBetween(g: PortGraph, path: seq<nat>, p: nat, q: nat)
  {
    Path(g, path) && path[0] == p && path[|path| - 1] == q
  }

  /** Ports of one component are joined by a path of seams. */
  ghost predicate Connected(g: PortGraph, labels: seq<nat>)
  {
    && SeamsInside(g, labels)
    && forall p: nat, q: nat :: p < g.ports && q < g.ports && labels[p] == labels[q] ==>
         exists path :: PathBetween(g, path, p, q)
  }

  lemma PathTail(g: PortGraph, path: seq<nat>, k: nat)
    requires Path(g, path) && k < |path|
    ensures Path(g, path[k..])
  {
    forall i | 0 <= i < |path[k..]| - 1
      ensures g.Adjacent(path[k..][i], path[k..][i + 1])
    {
      assert g.Adjacent(path[k + i], path[k + i + 1]);
    }
  }

  /** A path stays in one component. */
  lemma PathInComponent(g: PortGraph, labels: seq<nat>, path: seq<nat>, k: nat)
    requires SeamsInside(g, labels) && Path(g, path) && k < |path|
    ensures labels[path[k]] == labels[path[0]]
  {
    if k > 0 {
      PathInComponent(g, labels, path, k - 1);
      assert g.Adjacent(path[k - 1], path[k - 1 + 1]);
    }
  }
}
