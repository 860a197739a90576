/** The layered integer engine refines the sequential one. */
module IntegerLayered {
  import opened Layering
  import opened Federation
  import opened IntegerLaw

  /** The law of the chunk that starts at attempt `lo`. */
  function CoinLaw(cs: seq<bool>, lo: nat): Law<int>
  {
    (m: Move, p: int, q: int) => NearestAgreement(p, q, lo + m.id < |cs| && cs[lo + m.id])
  }

  /** The readings a move saw at its own two ports. */
  ghost function SeenPair(seen: map<nat, map<nat, int>>, m: Move): (int, int)
  {
    if m.id in seen && m.a in seen[m.id] && m.b in seen[m.id]
    then (seen[m.id][m.a], seen[m.id][m.b]) else (0, 0)
  }

  /** The tally of the moves recorded in `seen`, in schedule order. */
  ghost function TallyOf(ms: seq<Move>, cs: seq<bool>, lo: nat, seen: map<nat, map<nat, int>>, r: nat): Counts
    requires r <= |ms| && lo + |ms| <= |cs|
  {
    if r == 0 then NONE else
      var rest := TallyOf(ms, cs, lo, seen, r - 1);
      if r - 1 in seen
      then var (p, q) := SeenPair(seen, ms[r - 1]); rest.Plus(Tick(p, q, cs[lo + r - 1]))
      else rest
  }

  /** `delta[i]` is the change recorded for move `i`, zero while it is pending. */
  ghost predicate DeltaOf(ms: seq<Move>, cs: seq<bool>, lo: nat, seen: map<nat, map<nat, int>>, delta: seq<int>)
  {
    && |delta| == |ms| && lo + |ms| <= |cs|
    && forall i :: 0 <= i < |ms| ==>
         delta[i] == if i in seen then var (p, q) := SeenPair(seen, ms[i]); Change(p, q, cs[lo + i]) else 0
  }

  lemma {:induction false} TallyInsert(ms: seq<Move>, cs: seq<bool>, lo: nat, seen: map<nat, map<nat, int>>, r: nat,
                                       id: nat, o: map<nat, int>)
    requires r <= |ms| && lo + |ms| <= |cs| && Numbered(ms)
    requires id !in seen && id < |ms|
    ensures id < r ==> var (p, q) := SeenPair(seen[id := o], ms[id]);
              TallyOf(ms, cs, lo, seen[id := o], r) == TallyOf(ms, cs, lo, seen, r).Plus(Tick(p, q, cs[lo + id]))
    ensures r <= id ==> TallyOf(ms, cs, lo, seen[id := o], r) == TallyOf(ms, cs, lo, seen, r)
  {
    hide Tick;
    if r > 0 {
      TallyInsert(ms, cs, lo, seen, r - 1, id, o);
    }
  }

  /** One attempt as the vectorized engine computes it, with masks. */
  method ResolveVector(xa: int, xb: int, coin: bool) returns (na: int, nb: int, change: int, tick: Counts)
    ensures (na, nb) == NearestAgreement(xa, xb, coin)
    ensures tick == Tick(xa, xb, coin)
    ensures KindOf(xa, xb, coin).Descent? ==> change == Change(xa, xb, coin)
  {
    var tot := xa + xb;
    var lo := tot / 2;
    var hi := tot - lo;
    na := if coin then hi else lo;
    nb := tot - na;
    var d := xa - xb;
    var ad: int := Abs(d);
    var unit := ad == 1;
    var wait := d == 0 || (unit && na == xa);
    var swap := unit && !wait;
    var desc := !unit && d != 0;
    change := na * na + nb * nb - xa * xa - xb * xb;
    SquareChangeIsLedger(xa, xb, coin);
    UnitTransferClosedForm(ad);
    tick := Counts(if desc then 1 else 0, if swap then 1 else 0, if wait then 1 else 0,
                   if desc then ad / 2 else 0, if desc && change != -((ad * ad - ad % 2) / 2) then 1 else 0);
  }

  /** A newly seen move fills its place in the changes. */
  lemma DeltaInsert(ms: seq<Move>, cs: seq<bool>, lo: nat, seen: map<nat, map<nat, int>>, delta: seq<int>, id: nat,
                    o: map<nat, int>)
    requires DeltaOf(ms, cs, lo, seen, delta) && Numbered(ms) && id !in seen && id < |ms|
    ensures |delta| == |ms| && delta[id] == 0
    ensures var (p, q) := SeenPair(seen[id := o], ms[id]);
      DeltaOf(ms, cs, lo, seen[id := o], delta[id := Change(p, q, cs[lo + id])])
  {
    hide Change;
  }

  /** Recording one more move updates the tally and the per-move changes. */
  lemma RecordMove(all: seq<Move>, cs: seq<bool>, lo: nat, cur: Trace<int>, m: Move, xa: int, xb: int, delta: seq<int>)
    requires lo + |all| <= |cs| && Numbered(all) && m.id < |all| && all[m.id] == m
    requires m.id !in cur.seen && Fits(m, |cur.x|)
    requires cur.x[m.a] == xa && cur.x[m.b] == xb
    requires DeltaOf(all, cs, lo, cur.seen, delta)
    ensures var seen := Step(CoinLaw(cs, lo), cur, m).seen;
            && TallyOf(all, cs, lo, seen, |all|) ==
                TallyOf(all, cs, lo, cur.seen, |all|).Plus(Tick(xa, xb, cs[lo + m.id]))
            && DeltaOf(all, cs, lo, seen, delta[m.id := Change(xa, xb, cs[lo + m.id])])
            && (Tick(xa, xb, cs[lo + m.id]).descents != 1 ==> DeltaOf(all, cs, lo, seen, delta))
    ensures var (na, nb) := NearestAgreement(xa, xb, cs[lo + m.id]);
            Step(CoinLaw(cs, lo), cur, m).x == cur.x[m.a := na][m.b := nb]
    ensures Tick(xa, xb, cs[lo + m.id]).waits != 0 ==> Step(CoinLaw(cs, lo), cur, m).x == cur.x
  {
    hide TallyOf, DeltaOf;
    if KindOf(xa, xb, cs[lo + m.id]).Wait? {
      WaitIsIdentity(xa, xb, cs[lo + m.id]);
    }
    var o := Readings(cur.x, m.needs);
    TallyInsert(all, cs, lo, cur.seen, |all|, m.id, o);
    DeltaInsert(all, cs, lo, cur.seen, delta, m.id, o);
    assert delta[m.id := 0] == delta;
    assert SeenPair(cur.seen[m.id := o], m) == (xa, xb);
  }

  lemma LayerMembers(all: seq<Move>, ms: seq<Move>)
    requires Numbered(all) && forall k :: 0 <= k < |ms| ==> ms[k] in all
    ensures |Ids(ms)| == |ms|
    ensures forall k :: 0 <= k < |ms| ==> Ids(ms)[k] == ms[k].id < |all| && all[ms[k].id] == ms[k]
  {
    forall k | 0 <= k < |ms|
      ensures |Ids(ms)| == |ms| && Ids(ms)[k] == ms[k].id < |all| && all[ms[k].id] == ms[k]
    {
      IdsAt(ms, k);
    }
  }

  lemma NextUnseen(law: Law<int>, cur: Trace<int>, ms: seq<Move>, k: nat)
    requires k < |ms| && DistinctIds(ms) && Fits(ms[k], |cur.x|)
    requires forall i :: k <= i < |ms| ==> ms[i].id !in cur.seen
    ensures forall i :: k + 1 <= i < |ms| ==> ms[i].id !in Step(law, cur, ms[k]).seen
  {
  }

  /** Apply one layer: every reading is taken before any write. */
  method ApplyIntegerLayer(x: array<int>, ea: seq<nat>, eb: seq<nat>, cs: seq<bool>, lo: nat, layer: seq<nat>,
                           delta: array<int>, tally: IntegerTally,
                           ghost all: seq<Move>, ghost ms: seq<Move>, ghost tr: Trace<int>, ghost base: Counts)
    requires |ea| == |eb| == |all| == delta.Length && lo + |all| <= |cs|
    requires delta != x
    requires Numbered(all) && forall k :: 0 <= k < |all| ==> all[k].a == ea[k] && all[k].b == eb[k]
    requires layer == Ids(ms) && Independent(ms) && DistinctIds(ms) && AllFit(ms, x.Length)
    requires forall k :: 0 <= k < |ms| ==> ms[k] in all && ms[k].id !in tr.seen
    requires x[..] == tr.x && DeltaOf(all, cs, lo, tr.seen, delta[..])
    requires tally.Value() == base.Plus(TallyOf(all, cs, lo, tr.seen, |all|))
    modifies x, delta, tally
    ensures x[..] == Run(CoinLaw(cs, lo), tr, ms).x
    ensures DeltaOf(all, cs, lo, Run(CoinLaw(cs, lo), tr, ms).seen, delta[..])
    ensures tally.Value() == base.Plus(TallyOf(all, cs, lo, Run(CoinLaw(cs, lo), tr, ms).seen, |all|))
  {
    hide Ids, TallyOf, DeltaOf, Run, Step, Readings, CoinLaw, NearestAgreement, Independent, DistinctIds, Numbered;
    LayerMembers(all, ms);
    RunNone(CoinLaw(cs, lo), tr);
    assert ms[..0] == [];
    var xa := seq(|layer|, k requires 0 <= k < |layer| reads x => x[ea[layer[k]]]);
    var xb := seq(|layer|, k requires 0 <= k < |layer| reads x => x[eb[layer[k]]]);
    ghost var cur := tr;
    for k := 0 to |layer|
      invariant cur == Run(CoinLaw(cs, lo), tr, ms[..k])
      invariant forall i :: k <= i < |ms| ==> ms[i].id !in cur.seen
      invariant x[..] == cur.x && DeltaOf(all, cs, lo, cur.seen, delta[..])
      invariant tally.Value() == base.Plus(TallyOf(all, cs, lo, cur.seen, |all|))
    {
      var id := layer[k];
      ghost var m := ms[k];
      LayerStep(CoinLaw(cs, lo), tr, ms, k);
      NextUnseen(CoinLaw(cs, lo), cur, ms, k);
      RecordMove(all, cs, lo, cur, m, xa[k], xb[k], delta[..]);
      var na, nb, change, tick := ResolveVector(xa[k], xb[k], cs[lo + id]);
      tally.Add(tick);
      PlusAssoc(base, TallyOf(all, cs, lo, cur.seen, |all|), tick);
      cur := Step(CoinLaw(cs, lo), cur, m);
      if tick.waits == 0 {
        WritePair(x, ea[id], eb[id], na, nb);
      }
      if tick.descents == 1 {
        delta[id] := change;
      }
    }
    assert ms[..|layer|] == ms;
  }

  // ----- chunks

  /** `ms` lists the attempts of the chunk `[lo, hi)` as moves on the ports of their seams. */
  ghost predicate ChunkMoves(g: PortGraph, ss: seq<nat>, lo: nat, ms: seq<Move>)
  {
    && lo + |ms| <= |ss|
    && forall k :: 0 <= k < |ms| ==>
         ss[lo + k] < |g.a| && ss[lo + k] < |g.b| && ms[k].id == k
         && ms[k].a == g.a[ss[lo + k]] && ms[k].b == g.b[ss[lo + k]] && Fits(ms[k], g.ports)
  }

  /** Every one of the first `k` moves saw the readings its attempt finds in the sequential run. */
  ghost predicate SawSequential(g: PortGraph, ss: seq<nat>, cs: seq<bool>, vMin: int, st: Record, lo: nat,
                                ms: seq<Move>,
                                seen: map<nat, map<nat, int>>, k: nat)
    requires Schedule(g, ss, cs) && |st.x| == g.ports && lo + |ms| <= |ss| && k <= |ms|
    requires ChunkMoves(g, ss, lo, ms)
  {
    forall i: nat :: i < k ==> i in seen && Saw(g, ss, cs, vMin, st, lo, ms, seen, i)
  }

  ghost predicate Saw(g: PortGraph, ss: seq<nat>, cs: seq<bool>, vMin: int, st: Record, lo: nat, ms: seq<Move>,
                      seen: map<nat, map<nat, int>>, i: nat)
    requires Schedule(g, ss, cs) && |st.x| == g.ports && lo + |ms| <= |ss| && i < |ms|
    requires ChunkMoves(g, ss, lo, ms)
  {
    var y := Go(g, ss, cs, vMin, st, lo, lo + i).x;
    SeenPair(seen, ms[i]) == (y[ms[i].a], y[ms[i].b])
  }

  /** A move records the readings at its own ports, and leaves earlier records alone. */
  lemma StepRecords(law: Law<int>, s: Trace<int>, m: Move)
    requires Fits(m, |s.x|)
    ensures Step(law, s, m).seen.Keys == s.seen.Keys + {m.id}
    ensures SeenPair(Step(law, s, m).seen, m) == (s.x[m.a], s.x[m.b])
    ensures forall e: Move :: e.id != m.id ==> SeenPair(Step(law, s, m).seen, e) == SeenPair(s.seen, e)
  {
  }

  /** A move of the chunk does to the readings what its attempt does. */
  lemma StepIsAct(cs: seq<bool>, lo: nat, vMin: int, now: Record, s: Trace<int>, m: Move)
    requires Fits(m, |s.x|) && s.x == now.x && lo + m.id < |cs|
    ensures Step(CoinLaw(cs, lo), s, m).x == Act(now, m.a, m.b, cs[lo + m.id], vMin, lo + m.id).x
  {
  }

  lemma GoNone(g: PortGraph, ss: seq<nat>, cs: seq<bool>, vMin: int, st: Record, lo: nat)
    requires Schedule(g, ss, cs) && |st.x| == g.ports && lo <= |ss|
    ensures Go(g, ss, cs, vMin, st, lo, lo) == st
  {
  }

  lemma GoNext(g: PortGraph, ss: seq<nat>, cs: seq<bool>, vMin: int, st: Record, lo: nat, k: nat, m: Move)
    requires Schedule(g, ss, cs) && |st.x| == g.ports && lo + k < |ss|
    requires m.id == k && m.a == g.a[ss[lo + k]] && m.b == g.b[ss[lo + k]]
    ensures m.a < g.ports && m.b < g.ports
    ensures Go(g, ss, cs, vMin, st, lo, lo + k + 1) ==
            Act(Go(g, ss, cs, vMin, st, lo, lo + k), m.a, m.b, cs[lo + k], vMin, lo + k)
  {
  }

  /** In list order, the trace has the sequential state. */
  lemma {:induction false} StateIsSequential(g: PortGraph, ss: seq<nat>, cs: seq<bool>, vMin: int, st: Record,
                                             lo: nat, ms: seq<Move>)
    requires Schedule(g, ss, cs) && |st.x| == g.ports && lo + |ms| <= |ss|
    requires ChunkMoves(g, ss, lo, ms)
    ensures Run(CoinLaw(cs, lo), Trace(st.x, map[]), ms).x == Go(g, ss, cs, vMin, st, lo, lo + |ms|).x
    decreases |ms|
  {
    hide Step, Act, CoinLaw, Go;
    if ms == [] {
      GoNone(g, ss, cs, vMin, st, lo);
    } else {
      var last := |ms| - 1;
      StateIsSequential(g, ss, cs, vMin, st, lo, ms[..last]);
      var s := Run(CoinLaw(cs, lo), Trace(st.x, map[]), ms[..last]);
      GoNext(g, ss, cs, vMin, st, lo, last, ms[last]);
      StepIsAct(cs, lo, vMin, Go(g, ss, cs, vMin, st, lo, lo + last), s, ms[last]);
    }
  }

  /** In list order, every move sees what its attempt finds in the sequential run. */
  lemma {:induction false} SeenIsSequential(g: PortGraph, ss: seq<nat>, cs: seq<bool>, vMin: int, st: Record,
                                            lo: nat, ms: seq<Move>, i: nat)
    requires Schedule(g, ss, cs) && |st.x| == g.ports && lo + |ms| <= |ss| && i < |ms|
    requires ChunkMoves(g, ss, lo, ms)
    ensures i in Run(CoinLaw(cs, lo), Trace(st.x, map[]), ms).seen
    ensures Saw(g, ss, cs, vMin, st, lo, ms, Run(CoinLaw(cs, lo), Trace(st.x, map[]), ms).seen, i)
    decreases |ms|
  {
    hide Go, Step, CoinLaw, SeenPair;
    var last := |ms| - 1;
    var before := Run(CoinLaw(cs, lo), Trace(st.x, map[]), ms[..last]);
    StepRecords(CoinLaw(cs, lo), before, ms[last]);
    if i == last {
      StateIsSequential(g, ss, cs, vMin, st, lo, ms[..last]);
    } else {
      SeenIsSequential(g, ss, cs, vMin, st, lo, ms[..last], i);
    }
  }

  lemma ChunkSawSequential(g: PortGraph, ss: seq<nat>, cs: seq<bool>, vMin: int, st: Record, lo: nat, ms: seq<Move>)
    requires Schedule(g, ss, cs) && |st.x| == g.ports && lo + |ms| <= |ss|
    requires ChunkMoves(g, ss, lo, ms)
    ensures SawSequential(g, ss, cs, vMin, st, lo, ms, Run(CoinLaw(cs, lo), Trace(st.x, map[]), ms).seen, |ms|)
  {
    hide Go, Run, Saw;
    forall i: nat | i < |ms|
      ensures var seen := Run(CoinLaw(cs, lo), Trace(st.x, map[]), ms).seen;
              i in seen && Saw(g, ss, cs, vMin, st, lo, ms, seen, i)
    {
      SeenIsSequential(g, ss, cs, vMin, st, lo, ms, i);
    }
  }

  function PrefixSum(delta: seq<int>, k: nat): int
    requires k <= |delta|
  {
    if k == 0 then 0 else PrefixSum(delta, k - 1) + delta[k - 1]
  }

  /** The first index below `k` at which the running sum from `v` equals `vMin`, or -1. */
  function FirstSum(delta: seq<int>, v: int, vMin: int, k: nat): (r: int)
    requires k <= |delta|
    ensures -1 <= r < k
  {
    if k == 0 then -1 else
      var before := FirstSum(delta, v, vMin, k - 1);
      if before < 0 && v + PrefixSum(delta, k) == vMin then k - 1 else before
  }

  /** A chunk all of whose moves saw the sequential readings, with their changes in `delta`. */
  ghost predicate Complete(g: PortGraph, ss: seq<nat>, cs: seq<bool>, vMin: int, st: Record, lo: nat,
                           ms: seq<Move>, seen: map<nat, map<nat, int>>, delta: seq<int>)
  {
    && Schedule(g, ss, cs) && |st.x| == g.ports && lo + |ms| <= |ss|
    && |ms| == |delta|
    && ChunkMoves(g, ss, lo, ms)
    && SawSequential(g, ss, cs, vMin, st, lo, ms, seen, |ms|)
    && DeltaOf(ms, cs, lo, seen, delta)
  }

  lemma OneMore(g: PortGraph, ss: seq<nat>, cs: seq<bool>, vMin: int, st: Record, lo: nat,
                ms: seq<Move>, seen: map<nat, map<nat, int>>, delta: seq<int>, k: nat)
    requires Complete(g, ss, cs, vMin, st, lo, ms, seen, delta) && k < |ms|
    ensures var now, next := Go(g, ss, cs, vMin, st, lo, lo + k), Go(g, ss, cs, vMin, st, lo, lo + k + 1);
            var (p, q) := SeenPair(seen, ms[k]);
            && k in seen
            && next.v == now.v + delta[k]
            && next.counts == now.counts.Plus(Tick(p, q, cs[lo + k]))
            && next.level == if now.level < 0 && next.v == vMin then lo + k else now.level
  {
    assert k in seen && Saw(g, ss, cs, vMin, st, lo, ms, seen, k);
  }

  /** The tally of a complete chunk is the sequential one. */
  lemma {:induction false} TallyIsSequential(g: PortGraph, ss: seq<nat>, cs: seq<bool>, vMin: int, st: Record,
                                             lo: nat, ms: seq<Move>,
                                             seen: map<nat, map<nat, int>>, delta: seq<int>, k: nat)
    requires Complete(g, ss, cs, vMin, st, lo, ms, seen, delta) && k <= |ms|
    ensures Go(g, ss, cs, vMin, st, lo, lo + k).counts == st.counts.Plus(TallyOf(ms, cs, lo, seen, k))
  {
    hide Act, ChunkMoves, SawSequential, DeltaOf;
    if k > 0 {
      TallyIsSequential(g, ss, cs, vMin, st, lo, ms, seen, delta, k - 1);
      OneMore(g, ss, cs, vMin, st, lo, ms, seen, delta, k - 1);
      var p := SeenPair(seen, ms[k - 1]);
      PlusAssoc(st.counts, TallyOf(ms, cs, lo, seen, k - 1), Tick(p.0, p.1, cs[lo + k - 1]));
    }
  }

  /** Running sums over the changes of a complete chunk follow the tracked functional. */
  lemma {:induction false} SumsAreSequential(g: PortGraph, ss: seq<nat>, cs: seq<bool>, vMin: int, st: Record,
                                             lo: nat, ms: seq<Move>,
                                             seen: map<nat, map<nat, int>>, delta: seq<int>, k: nat)
    requires Complete(g, ss, cs, vMin, st, lo, ms, seen, delta) && k <= |ms|
    ensures Go(g, ss, cs, vMin, st, lo, lo + k).v == st.v + PrefixSum(delta, k)
  {
    hide Act, ChunkMoves, SawSequential, DeltaOf;
    if k > 0 {
      SumsAreSequential(g, ss, cs, vMin, st, lo, ms, seen, delta, k - 1);
      OneMore(g, ss, cs, vMin, st, lo, ms, seen, delta, k - 1);
    }
  }

  /** The level of a complete chunk is read off the running sums. */
  lemma {:induction false} LevelIsSequential(g: PortGraph, ss: seq<nat>, cs: seq<bool>, vMin: int, st: Record,
                                             lo: nat, ms: seq<Move>,
                                             seen: map<nat, map<nat, int>>, delta: seq<int>, k: nat)
    requires Complete(g, ss, cs, vMin, st, lo, ms, seen, delta) && k <= |ms|
    ensures Go(g, ss, cs, vMin, st, lo, lo + k).level ==
            if st.level < 0 && FirstSum(delta, st.v, vMin, k) >= 0
              then lo + FirstSum(delta, st.v, vMin, k) else st.level
  {
    hide Act, ChunkMoves, SawSequential, DeltaOf;
    if k > 0 {
      LevelIsSequential(g, ss, cs, vMin, st, lo, ms, seen, delta, k - 1);
      OneMore(g, ss, cs, vMin, st, lo, ms, seen, delta, k - 1);
      SumsAreSequential(g, ss, cs, vMin, st, lo, ms, seen, delta, k);
    }
  }

  /** A chunk run in list order is complete. */
  lemma ChunkComplete(g: PortGraph, ss: seq<nat>, cs: seq<bool>, vMin: int, st: Record, lo: nat,
                      ms: seq<Move>, delta: seq<int>)
    requires Schedule(g, ss, cs) && |st.x| == g.ports && lo + |ms| <= |ss|
    requires ChunkMoves(g, ss, lo, ms)
    requires DeltaOf(ms, cs, lo, Run(CoinLaw(cs, lo), Trace(st.x, map[]), ms).seen, delta)
    ensures Complete(g, ss, cs, vMin, st, lo, ms, Run(CoinLaw(cs, lo), Trace(st.x, map[]), ms).seen, delta)
    ensures Run(CoinLaw(cs, lo), Trace(st.x, map[]), ms).x == Go(g, ss, cs, vMin, st, lo, lo + |ms|).x
  {
    hide Go, Run, Saw;
    StateIsSequential(g, ss, cs, vMin, st, lo, ms);
    ChunkSawSequential(g, ss, cs, vMin, st, lo, ms);
  }

  /** The empty record: nothing tallied. */
  lemma {:induction false} EmptyTally(ms: seq<Move>, cs: seq<bool>, lo: nat, r: nat)
    requires r <= |ms| && lo + |ms| <= |cs|
    ensures TallyOf(ms, cs, lo, map[], r) == NONE
  {
    if r > 0 {
      EmptyTally(ms, cs, lo, r - 1);
    }
  }

  /** Apply the layers of a chunk one after the other. */
  method ApplyLayers(x: array<int>, g: PortGraph, ea: seq<nat>, eb: seq<nat>, cs: seq<bool>, lo: nat,
                     layers: seq<seq<nat>>,
                     delta: array<int>, tally: IntegerTally, ghost all: seq<Move>, ghost base: Counts)
    requires |ea| == |eb| == |all| == delta.Length && lo + |all| <= |cs| && delta != x
    requires Numbered(all) && forall k :: 0 <= k < |all| ==> all[k].a == ea[k] && all[k].b == eb[k]
    requires Pending(g, all, all, Trace(x[..], map[]))
    requires layers == LayerIds(Layers(all))
    requires DeltaOf(all, cs, lo, map[], delta[..])
    requires tally.Value() == base.Plus(TallyOf(all, cs, lo, map[], |all|))
    modifies x, delta, tally
    ensures var tr := Run(CoinLaw(cs, lo), Trace(old(x[..]), map[]), all);
            && x[..] == tr.x
            && DeltaOf(all, cs, lo, tr.seen, delta[..])
            && tally.Value() == base.Plus(TallyOf(all, cs, lo, tr.seen, |all|))
  {
    ghost var x0 := x[..];
    ghost var tr := Trace(x0, map[]);
    ghost var pending := all;
    for i := 0 to |layers|
      invariant Pending(g, all, pending, tr)
      invariant Run(CoinLaw(cs, lo), tr, pending) == Run(CoinLaw(cs, lo), Trace(x0, map[]), all)
      invariant layers[i..] == LayerIds(Layers(pending))
      invariant x[..] == tr.x && DeltaOf(all, cs, lo, tr.seen, delta[..])
      invariant tally.Value() == base.Plus(TallyOf(all, cs, lo, tr.seen, |all|))
    {
      ghost var ready, rest := ReadyPart(pending), RestPart(pending);
      PendingStep(g, CoinLaw(cs, lo), all, pending, tr);
      LayersHead(pending);
      assert layers[i..][0] == Ids(ready);
      ApplyIntegerLayer(x, ea, eb, cs, lo, layers[i], delta, tally, all, ready, tr, base);
      tr := Run(CoinLaw(cs, lo), tr, ready);
      pending := rest;
      assert layers[i + 1..] == layers[i..][1..];
    }
    assert pending == [];
  }

  lemma ChunkSetup(g: PortGraph, ss: seq<nat>, cs: seq<bool>, x: seq<int>, lo: nat, hi: nat, ea: seq<nat>, eb: seq<nat>,
                   ms: seq<Move>)
    requires Schedule(g, ss, cs) && |x| == g.ports && lo <= hi <= |ss|
    requires ea == Endpoints(g.a, ss[lo..hi]) && eb == Endpoints(g.b, ss[lo..hi])
    requires ms == SeamMoves(g, ea, eb, false, Upto(|ea|))
    ensures |ms| == hi - lo && ChunkMoves(g, ss, lo, ms) && Numbered(ms)
    ensures Pending(g, ms, ms, Trace(x, map[]))
    ensures TallyOf(ms, cs, lo, map[], |ms|) == NONE
  {
    SeamMovesMutual(g, ea, eb, false);
    EmptyTally(ms, cs, lo, |ms|);
    hide TallyOf, Feeds, MutualReads;
  }

  /** One chunk in dependency layers: the sequential record, with the level read off the running sums. */
  method ApplyChunk(x: array<int>, g: PortGraph, ss: seq<nat>, cs: seq<bool>, lo: nat, hi: nat, v: int, vMin: int,
                    tally: IntegerTally, first: int, ghost st: Record)
    returns (v': int, first': int)
    requires Schedule(g, ss, cs) && x.Length == g.ports && lo <= hi <= |ss|
    requires st.x == x[..] && st.v == v && st.counts == tally.Value() && st.level == first
    modifies x, tally
    ensures var end := Go(g, ss, cs, vMin, st, lo, hi);
            x[..] == end.x && v' == end.v && tally.Value() == end.counts && first' == end.level
  {
    hide Act, Go, TallyOf, Pending, FirstSum, PrefixSum, Run, SeamMoves, DeltaOf, Layers;
    assert lo + (hi - lo) == hi;
    var ids := ss[lo..hi];
    var ea, eb := Endpoints(g.a, ids), Endpoints(g.b, ids);
    var delta := new int[|ids|](_ => 0);
    var layers := DependencyLayers(g, ea, eb, false);
    ghost var all := SeamMoves(g, ea, eb, false, Upto(|ea|));
    ChunkSetup(g, ss, cs, st.x, lo, hi, ea, eb, all);
    ApplyLayers(x, g, ea, eb, cs, lo, layers, delta, tally, all, tally.Value());
    ChunkComplete(g, ss, cs, vMin, st, lo, all, delta[..]);
    ghost var seen := Run(CoinLaw(cs, lo), Trace(st.x, map[]), all).seen;
    TallyIsSequential(g, ss, cs, vMin, st, lo, all, seen, delta[..], |all|);
    SumsAreSequential(g, ss, cs, vMin, st, lo, all, seen, delta[..], |all|);
    LevelIsSequential(g, ss, cs, vMin, st, lo, all, seen, delta[..], |all|);
    var hit;
    v', hit := ScanChunk(delta, v, vMin);
    first' := if first < 0 && hit >= 0 then lo + hit else first;
  }

  /** Running sums of the changes of a chunk, with the first index that reaches `vMin`. */
  method ScanChunk(delta: array<int>, v: int, vMin: int) returns (vOut: int, hit: int)
    ensures vOut == v + PrefixSum(delta[..], delta.Length)
    ensures hit == FirstSum(delta[..], v, vMin, delta.Length)
  {
    vOut, hit := v, -1;
    for i := 0 to delta.Length
      invariant vOut == v + PrefixSum(delta[..], i)
      invariant hit == FirstSum(delta[..], v, vMin, i)
    {
      vOut := vOut + delta[i];
      if hit < 0 && vOut == vMin {
        hit := i;
      }
    }
  }

  /** The layered engine, for every chunk size. */
  method IntegerMovesNumpy(x: array<int>, g: PortGraph, ss: seq<nat>, cs: seq<bool>, v0: int, vMin: int,
                           tally: IntegerTally, chunk: nat)
    returns (v: int, first: int)
    requires Schedule(g, ss, cs) && x.Length == g.ports && chunk > 0
    modifies x, tally
    ensures var end := Go(g, ss, cs, vMin, Start(old(x[..]), v0, old(tally.Value())), 0, |ss|);
            x[..] == end.x && v == end.v && tally.Value() == end.counts && first == end.level
  {
    v, first := v0, -1;
    ghost var st0 := Start(x[..], v0, tally.Value());
    ghost var st := st0;
    var start := 0;
    while start < |ss|
      invariant 0 <= start <= |ss|
      invariant st == Go(g, ss, cs, vMin, st0, 0, start)
      invariant x[..] == st.x && v == st.v && tally.Value() == st.counts && first == st.level
    {
      var stop := if start + chunk < |ss| then start + chunk else |ss|;
      GoTwice(g, ss, cs, vMin, st0, 0, start, stop);
      v, first := ApplyChunk(x, g, ss, cs, start, stop, v, vMin, tally, first, st);
      st := Go(g, ss, cs, vMin, st, start, stop);
      start := stop;
    }
  }

  // ----- first hit

  /** An attempt never raises the functional, and lowers it exactly when it descends. */
  lemma ActFalls(st: Record, i: nat, j: nat, coin: bool, vMin: int, t: nat)
    requires i < |st.x| && j < |st.x|
    ensures Act(st, i, j, coin, vMin, t).v <= st.v
    ensures Act(st, i, j, coin, vMin, t).v < st.v <==> KindOf(st.x[i], st.x[j], coin).Descent?
  {
    if KindOf(st.x[i], st.x[j], coin).Descent? {
      DropPositive(Abs(st.x[i] - st.x[j]));
    }
  }

  /** Entered off the minimum, both engines report the same first hit. */
  lemma {:induction false} HitsEqual(g: PortGraph, ss: seq<nat>, cs: seq<bool>, vMin: int, st: Record, k: nat)
    requires Schedule(g, ss, cs) && |st.x| == g.ports && k <= |ss|
    requires st.v != vMin && st.hit == st.level == -1
    ensures var end := Go(g, ss, cs, vMin, st, 0, k);
            end.hit == end.level && (end.hit < 0 ==> end.v != vMin)
  {
    if k > 0 {
      HitsEqual(g, ss, cs, vMin, st, k - 1);
      ActFalls(Go(g, ss, cs, vMin, st, 0, k - 1), g.a[ss[k - 1]], g.b[ss[k - 1]], cs[k - 1], vMin, k - 1);
    }
  }

  /** Below the minimum, neither engine ever hits. */
  lemma {:induction false} BelowNeverHits(g: PortGraph, ss: seq<nat>, cs: seq<bool>, vMin: int, st: Record, lo: nat,
                                          k: nat)
    requires Schedule(g, ss, cs) && |st.x| == g.ports && lo <= k <= |ss|
    requires st.v < vMin
    ensures var end := Go(g, ss, cs, vMin, st, lo, k);
            end.hit == st.hit && end.level == st.level && end.v < vMin
    decreases k
  {
    if k > lo {
      BelowNeverHits(g, ss, cs, vMin, st, lo, k - 1);
      ActFalls(Go(g, ss, cs, vMin, st, lo, k - 1), g.a[ss[k - 1]], g.b[ss[k - 1]], cs[k - 1], vMin, k - 1);
    }
  }

  /** Once recorded, a hit stays; a later one has a later index. */
  lemma {:induction false} HitsStay(g: PortGraph, ss: seq<nat>, cs: seq<bool>, vMin: int, st: Record, lo: nat, k: nat)
    requires Schedule(g, ss, cs) && |st.x| == g.ports && lo <= k <= |ss|
    ensures var end := Go(g, ss, cs, vMin, st, lo, k);
            && (st.level >= 0 ==> end.level == st.level)
            && (if st.hit >= 0 then end.hit == st.hit else end.hit < 0 || end.hit >= lo)
    decreases k
  {
    if k > lo {
      HitsStay(g, ss, cs, vMin, st, lo, k - 1);
    }
  }

  /** The first-hit indices of the two engines agree exactly when the call is not
      entered at the minimum with a wait as its first attempt. */
  lemma FirstHitAgreement(g: PortGraph, ss: seq<nat>, cs: seq<bool>, vMin: int, x: seq<int>, v: int, counts: Counts)
    requires Schedule(g, ss, cs) && |x| == g.ports
    ensures var end := Go(g, ss, cs, vMin, Start(x, v, counts), 0, |ss|);
            end.hit == end.level
            <==> !(v == vMin && |ss| > 0 && KindOf(x[g.a[ss[0]]], x[g.b[ss[0]]], cs[0]).Wait?)
  {
    var st := Start(x, v, counts);
    if v != vMin {
      HitsEqual(g, ss, cs, vMin, st, |ss|);
    } else if |ss| > 0 {
      var one := Go(g, ss, cs, vMin, st, 0, 1);
      assert one == Act(st, g.a[ss[0]], g.b[ss[0]], cs[0], vMin, 0);
      ActFalls(st, g.a[ss[0]], g.b[ss[0]], cs[0], vMin, 0);
      GoTwice(g, ss, cs, vMin, st, 0, 1, |ss|);
      HitsStay(g, ss, cs, vMin, one, 1, |ss|);
      if one.v < vMin {
        BelowNeverHits(g, ss, cs, vMin, one, 1, |ss|);
      }
    }
  }

  /** Entered at the minimum with a waiting first attempt, the engines report different indices. */
  lemma FirstHitsCanDiffer()
    ensures var g := PortGraph(2, [0], [1]);
            Schedule(g, [0], [true]) && Go(g, [0], [true], 0, Start([0, 0], 0, NONE), 0, 1).hit
                                        != Go(g, [0], [true], 0, Start([0, 0], 0, NONE), 0, 1).level
  {
    var g := PortGraph(2, [0], [1]);
    assert Schedule(g, [0], [true]);
    FirstHitAgreement(g, [0], [true], 0, [0, 0], 0, NONE);
  }
}
