/** Scheduled moves on ports, and the dependency-layer reordering of a schedule.

    A move writes two ports and reads a set of ports containing them.  A layer
    holds the moves none of whose read ports is written by an earlier move that
    is still waiting.  The theory is independent of the values and of the law. */
module Layering {

  datatype Move = Move(id: nat, a: nat, b: nat, needs: set<nat>)

  /** What a run leaves behind: the state, and per move the readings it saw. */
  datatype Trace<T> = Trace(x: seq<T>, seen: map<nat, map<nat, T>>)

  /** New readings of the two written ports, from their old readings. */
  type Law<!T> = (Move, T, T) -> (T, T)

  predicate Fits(m: Move, ports: nat)
  {
    && m.a < ports
    && m.b < ports
    && m.a in m.needs
    && m.b in m.needs
    && forall p :: p in m.needs ==> p < ports
  }

  predicate AllFit(ms: seq<Move>, ports: nat)
  {
    forall k :: 0 <= k < |ms| ==> Fits(ms[k], ports)
  }

  predicate DistinctIds(ms: seq<Move>)
  {
    forall j, k :: 0 <= j < k < |ms| ==> ms[j].id != ms[k].id
  }

  /** Moves are numbered by position. */
  predicate Numbered(ms: seq<Move>)
  {
    forall k :: 0 <= k < |ms| ==> ms[k].id == k
  }

  /** `e` writes a port that `m` reads. */
  predicate Feeds(e: Move, m: Move)
  {
    e.a in m.needs || e.b in m.needs
  }

  /** Reading is mutual: writing a port the other reads goes both ways. */
  predicate MutualReads(ms: seq<Move>)
  {
    forall j, k :: 0 <= j < |ms| && 0 <= k < |ms| ==> (Feeds(ms[j], ms[k]) <==> Feeds(ms[k], ms[j]))
  }

  function Readings<T>(x: seq<T>, ports: set<nat>): map<nat, T>
  {
    map p | p in ports && p < |x| :: x[p]
  }

  function Step<T>(law: Law<T>, s: Trace<T>, m: Move): (r: Trace<T>)
    requires Fits(m, |s.x|)
    ensures |r.x| == |s.x|
  {
    var (u, v) := law(m, s.x[m.a], s.x[m.b]);
    Trace(s.x[m.a := u][m.b := v], s.seen[m.id := Readings(s.x, m.needs)])
  }

  /** Sequential execution, in list order. */
  function Run<T>(law: Law<T>, s: Trace<T>, ms: seq<Move>): (r: Trace<T>)
    requires AllFit(ms, |s.x|)
    ensures |r.x| == |s.x|
  {
    if ms == [] then s else Step(law, Run(law, s, ms[..|ms| - 1]), ms[|ms| - 1])
  }

  /** Move `k` can be applied now: no earlier move of the list writes what it reads. */
  predicate Ready(ms: seq<Move>, k: nat)
    requires k < |ms|
  {
    forall e :: 0 <= e < k ==> !Feeds(ms[e], ms[k])
  }

  function ReadyPart(ms: seq<Move>): (r: seq<Move>)
    ensures ms != [] ==> r != []
  {
    if ms == [] then [] else
      var last := |ms| - 1;
      ReadyPart(ms[..last]) + if Ready(ms, last) then [ms[last]] else []
  }

  function RestPart(ms: seq<Move>): (r: seq<Move>)
    ensures |r| + |ReadyPart(ms)| == |ms|
  {
    if ms == [] then [] else
      var last := |ms| - 1;
      RestPart(ms[..last]) + if Ready(ms, last) then [] else [ms[last]]
  }

  /** The layers of a schedule, first to last. */
  function Layers(ms: seq<Move>): seq<seq<Move>>
    decreases |ms|
  {
    if ms == [] then [] else
      assert |ReadyPart(ms)| > 0;
      [ReadyPart(ms)] + Layers(RestPart(ms))
  }

  /** The layers applied one after the other. */
  ghost function RunLayers<T>(law: Law<T>, s: Trace<T>, layers: seq<seq<Move>>): (r: Trace<T>)
    requires forall i :: 0 <= i < |layers| ==> AllFit(layers[i], |s.x|)
    ensures |r.x| == |s.x|
    decreases |layers|
  {
    if layers == [] then s else RunLayers(law, Run(law, s, layers[0]), layers[1..])
  }

  // ----- membership in the two parts

  lemma PartsSnoc(ms: seq<Move>)
    requires ms != []
    ensures var last := |ms| - 1;
            if Ready(ms, last)
            then ReadyPart(ms) == ReadyPart(ms[..last]) + [ms[last]] && RestPart(ms) == RestPart(ms[..last])
            else ReadyPart(ms) == ReadyPart(ms[..last]) && RestPart(ms) == RestPart(ms[..last]) + [ms[last]]
  {
  }

  lemma BagSnoc(ms: seq<Move>, m: Move)
    ensures multiset(ms + [m]) == multiset(ms) + multiset{m}
  {
  }

  lemma {:induction false} PartsBag(ms: seq<Move>)
    ensures multiset(ms) == multiset(ReadyPart(ms)) + multiset(RestPart(ms))
  {
    hide Ready, ReadyPart, RestPart;
    if ms == [] {
      NoPartsBag();
    } else {
      var last := |ms| - 1;
      PartsBag(ms[..last]);
      PartsSnoc(ms);
      assert ms == ms[..last] + [ms[last]];
      BagSnoc(ms[..last], ms[last]);
      if Ready(ms, last) {
        BagSnoc(ReadyPart(ms[..last]), ms[last]);
      } else {
        BagSnoc(RestPart(ms[..last]), ms[last]);
      }
    }
  }

  lemma NoPartsBag()
    ensures ReadyPart([]) == RestPart([]) == []
  {
  }

  lemma PartsMembers(ms: seq<Move>)
    ensures forall m :: m in ms <==> m in ReadyPart(ms) || m in RestPart(ms)
    ensures multiset(ms) == multiset(ReadyPart(ms)) + multiset(RestPart(ms))
  {
    hide ReadyPart, RestPart;
    PartsBag(ms);
    forall m
      ensures m in ms <==> m in ReadyPart(ms) || m in RestPart(ms)
    {
      assert m in ms <==> m in multiset(ms);
    }
  }

  lemma {:induction false} DistinctCons(ms: seq<Move>)
    requires ms != []
    ensures DistinctIds(ms) <==> DistinctIds(ms[..|ms| - 1])
                                 && forall m :: m in ms[..|ms| - 1] ==> m.id != ms[|ms| - 1].id
  {
    var last := |ms| - 1;
    forall m | DistinctIds(ms) && m in ms[..last]
      ensures m.id != ms[last].id
    {
      var k :| 0 <= k < last && ms[k] == m;
    }
  }

  lemma {:induction false} PartsKeepDistinct(ms: seq<Move>)
    requires DistinctIds(ms)
    ensures DistinctIds(ReadyPart(ms)) && DistinctIds(RestPart(ms))
  {
    if ms != [] {
      var last := |ms| - 1;
      DistinctCons(ms);
      PartsKeepDistinct(ms[..last]);
      PartsMembers(ms[..last]);
      if Ready(ms, last) {
        assert ReadyPart(ms)[..|ReadyPart(ms)| - 1] == ReadyPart(ms[..last]);
        DistinctCons(ReadyPart(ms));
      } else {
        assert RestPart(ms)[..|RestPart(ms)| - 1] == RestPart(ms[..last]);
        DistinctCons(RestPart(ms));
      }
    }
  }

  /** Facts about `ms` that only speak of its members pass to the two parts. */
  lemma PartsInherit(ms: seq<Move>, ports: nat)
    requires AllFit(ms, ports) && MutualReads(ms) && DistinctIds(ms)
    ensures AllFit(ReadyPart(ms), ports) && AllFit(RestPart(ms), ports)
    ensures MutualReads(RestPart(ms))
    ensures DistinctIds(ReadyPart(ms)) && DistinctIds(RestPart(ms))
  {
    PartsMembers(ms);
    PartsKeepDistinct(ms);
    var rest := RestPart(ms);
    forall k | 0 <= k < |rest|
      ensures Fits(rest[k], ports)
    {
      assert rest[k] in ms;
    }
    forall k | 0 <= k < |ReadyPart(ms)|
      ensures Fits(ReadyPart(ms)[k], ports)
    {
      assert ReadyPart(ms)[k] in ms;
    }
    forall j, k | 0 <= j < |rest| && 0 <= k < |rest|
      ensures Feeds(rest[j], rest[k]) <==> Feeds(rest[k], rest[j])
    {
      assert rest[j] in ms && rest[k] in ms;
    }
  }

  /** No two moves of the list share a port, or write what the other reads. */
  predicate Independent(ms: seq<Move>)
  {
    forall j, k :: 0 <= j < |ms| && 0 <= k < |ms| && j != k ==> !Feeds(ms[j], ms[k])
  }

  lemma {:induction false} LayerIndependent(ms: seq<Move>)
    requires MutualReads(ms)
    ensures Independent(ReadyPart(ms))
  {
    if ms != [] {
      var last := |ms| - 1;
      LayerIndependent(ms[..last]);
      PartsMembers(ms[..last]);
      if Ready(ms, last) {
        var r := ReadyPart(ms);
        forall j | 0 <= j < |r| - 1
          ensures !Feeds(r[j], ms[last]) && !Feeds(ms[last], r[j])
        {
          assert r[j] in ms[..last];
          var e :| 0 <= e < last && ms[e] == r[j];
        }
      }
    }
  }

  // ----- commutation

  /** A step that writes nothing `e` reads leaves what `e` reads. */
  lemma StepKeepsReadings<T>(law: Law<T>, s: Trace<T>, m: Move, e: Move)
    requires Fits(m, |s.x|) && Fits(e, |s.x|) && !Feeds(m, e)
    ensures Readings(Step(law, s, m).x, e.needs) == Readings(s.x, e.needs)
    ensures Step(law, s, m).x[e.a] == s.x[e.a] && Step(law, s, m).x[e.b] == s.x[e.b]
  {
  }

  lemma WritesCommute<T>(x: seq<T>, a: nat, b: nat, u: T, v: T, c: nat, d: nat, w: T, z: T)
    requires a < |x| && b < |x| && c < |x| && d < |x| && a != c && a != d && b != c && b != d
    ensures x[a := u][b := v][c := w][d := z] == x[c := w][d := z][a := u][b := v]
  {
  }

  lemma NotesCommute<U>(seen: map<nat, U>, i: nat, o: U, j: nat, p: U)
    requires i != j
    ensures seen[i := o][j := p] == seen[j := p][i := o]
  {
  }

  lemma StepsCommute<T>(law: Law<T>, s: Trace<T>, m: Move, e: Move)
    requires Fits(m, |s.x|) && Fits(e, |s.x|)
    requires m.id != e.id && !Feeds(m, e) && !Feeds(e, m)
    ensures Step(law, Step(law, s, m), e) == Step(law, Step(law, s, e), m)
  {
    hide Readings;
    StepKeepsReadings(law, s, m, e);
    StepKeepsReadings(law, s, e, m);
    var (u, v) := law(m, s.x[m.a], s.x[m.b]);
    var (w, z) := law(e, s.x[e.a], s.x[e.b]);
    WritesCommute(s.x, m.a, m.b, u, v, e.a, e.b, w, z);
    NotesCommute(s.seen, m.id, Readings(s.x, m.needs), e.id, Readings(s.x, e.needs));
  }

  /** A move independent of a whole list can be pulled in front of it. */
  lemma {:induction false} PullForward<T>(law: Law<T>, s: Trace<T>, ms: seq<Move>, m: Move)
    requires AllFit(ms, |s.x|) && Fits(m, |s.x|)
    requires forall e :: e in ms ==> e.id != m.id && !Feeds(m, e) && !Feeds(e, m)
    ensures Step(law, Run(law, s, ms), m) == Run(law, Step(law, s, m), ms)
  {
    if ms != [] {
      var last := |ms| - 1;
      PullForward(law, s, ms[..last], m);
      StepsCommute(law, Run(law, s, ms[..last]), m, ms[last]);
    }
  }

  /** A move independent of a list still reads the old state after it. */
  lemma {:induction false} ReadingsKept<T>(law: Law<T>, s: Trace<T>, ms: seq<Move>, m: Move)
    requires AllFit(ms, |s.x|)
    requires forall e :: e in ms ==> !Feeds(e, m)
    ensures Readings(Run(law, s, ms).x, m.needs) == Readings(s.x, m.needs)
    ensures forall p :: p in m.needs && p < |s.x| ==> Run(law, s, ms).x[p] == s.x[p]
  {
    if ms != [] {
      var last := |ms| - 1;
      assert ms[last] in ms;
      ReadingsKept(law, s, ms[..last], m);
    }
  }

  lemma RunSnoc<T>(law: Law<T>, s: Trace<T>, ms: seq<Move>, m: Move)
    requires AllFit(ms, |s.x|) && Fits(m, |s.x|)
    ensures AllFit(ms + [m], |s.x|)
    ensures Run(law, s, ms + [m]) == Step(law, Run(law, s, ms), m)
  {
    assert (ms + [m])[..|ms|] == ms;
  }

  lemma RunNone<T>(law: Law<T>, s: Trace<T>)
    ensures Run(law, s, []) == s
  {
  }

  lemma RunNext<T>(law: Law<T>, s: Trace<T>, ms: seq<Move>, k: nat)
    requires AllFit(ms, |s.x|) && k < |ms|
    ensures Run(law, s, ms[..k + 1]) == Step(law, Run(law, s, ms[..k]), ms[k])
  {
    hide Step;
    var longer := ms[..k + 1];
    assert longer != [] && longer[..|longer| - 1] == ms[..k] && longer[|longer| - 1] == ms[k];
  }

  /** Inside an independent list, move `k` finds the readings of the initial state. */
  lemma LayerStep<T>(law: Law<T>, s: Trace<T>, ms: seq<Move>, k: nat)
    requires AllFit(ms, |s.x|) && Independent(ms) && k < |ms|
    ensures Run(law, s, ms[..k]).x[ms[k].a] == s.x[ms[k].a]
    ensures Run(law, s, ms[..k]).x[ms[k].b] == s.x[ms[k].b]
    ensures Readings(Run(law, s, ms[..k]).x, ms[k].needs) == Readings(s.x, ms[k].needs)
    ensures Run(law, s, ms[..k + 1]) == Step(law, Run(law, s, ms[..k]), ms[k])
  {
    assert forall e :: e in ms[..k] ==> !Feeds(e, ms[k]);
    ReadingsKept(law, s, ms[..k], ms[k]);
    RunSnoc(law, s, ms[..k], ms[k]);
    assert ms[..k + 1] == ms[..k] + [ms[k]];
  }

  lemma {:induction false} SeenKeys<T>(law: Law<T>, s: Trace<T>, ms: seq<Move>)
    requires AllFit(ms, |s.x|)
    ensures Run(law, s, ms).seen.Keys == s.seen.Keys + set m | m in ms :: m.id
  {
    if ms != [] {
      var last := |ms| - 1;
      SeenKeys(law, s, ms[..last]);
      assert ms == ms[..last] + [ms[last]];
    }
  }

  /** A ready last move joins the layer, an unready one stays in the rest. */
  /** With distinct ids, no id is both in the layer and in the rest. */
  lemma {:induction false} PartsMeet(ms: seq<Move>)
    requires DistinctIds(ms)
    ensures forall m, e :: m in ReadyPart(ms) && e in RestPart(ms) ==> m.id != e.id
  {
    if ms != [] {
      var last := |ms| - 1;
      DistinctCons(ms);
      PartsMeet(ms[..last]);
      PartsMembers(ms[..last]);
      PartsSnoc(ms);
    }
  }

  /** A ready last move is independent of every move of the rest before it. */
  lemma ReadyIsFree(ms: seq<Move>)
    requires ms != [] && MutualReads(ms) && DistinctIds(ms) && Ready(ms, |ms| - 1)
    ensures forall e :: e in RestPart(ms[..|ms| - 1]) ==>
              e.id != ms[|ms| - 1].id && !Feeds(ms[|ms| - 1], e) && !Feeds(e, ms[|ms| - 1])
  {
    var last := |ms| - 1;
    PartsMembers(ms[..last]);
    forall e | e in RestPart(ms[..last])
      ensures e.id != ms[last].id && !Feeds(ms[last], e) && !Feeds(e, ms[last])
    {
      assert e in ms[..last];
      var k :| 0 <= k < last && ms[k] == e;
    }
  }

  /** One layer first, then the rest: the same trace as list order. */
  lemma {:induction false} LayerFirst<T>(law: Law<T>, s: Trace<T>, ms: seq<Move>)
    requires AllFit(ms, |s.x|) && MutualReads(ms) && DistinctIds(ms)
    requires AllFit(ReadyPart(ms), |s.x|) && AllFit(RestPart(ms), |s.x|)
    ensures Run(law, Run(law, s, ReadyPart(ms)), RestPart(ms)) == Run(law, s, ms)
  {
    if ms != [] {
      var last := |ms| - 1;
      var ms', m := ms[..last], ms[last];
      PartsInherit(ms', |s.x|);
      LayerFirst(law, s, ms');
      PartsSnoc(ms);
      var ready', rest' := ReadyPart(ms'), RestPart(ms');
      if Ready(ms, last) {
        ReadyIsFree(ms);
        RunSnoc(law, s, ready', m);
        PullForward(law, Run(law, s, ready'), rest', m);
      } else {
        RunSnoc(law, Run(law, s, ready'), rest', m);
      }
    }
  }

  lemma {:induction false} LayersFit(ms: seq<Move>, ports: nat)
    requires AllFit(ms, ports)
    ensures forall i :: 0 <= i < |Layers(ms)| ==> AllFit(Layers(ms)[i], ports)
    decreases |ms|
  {
    if ms != [] {
      PartsMembers(ms);
      forall k | 0 <= k < |RestPart(ms)|
        ensures Fits(RestPart(ms)[k], ports)
      {
        assert RestPart(ms)[k] in ms;
      }
      forall k | 0 <= k < |ReadyPart(ms)|
        ensures Fits(ReadyPart(ms)[k], ports)
      {
        assert ReadyPart(ms)[k] in ms;
      }
      LayersFit(RestPart(ms), ports);
    }
  }

  /** Layered execution refines sequential execution: same state, and every
      move sees exactly the readings it sees in list order. */
  lemma {:induction false} LayersRefineSequence<T>(law: Law<T>, s: Trace<T>, ms: seq<Move>)
    requires AllFit(ms, |s.x|) && MutualReads(ms) && DistinctIds(ms)
    requires forall i :: 0 <= i < |Layers(ms)| ==> AllFit(Layers(ms)[i], |s.x|)
    ensures RunLayers(law, s, Layers(ms)) == Run(law, s, ms)
    decreases |ms|
  {
    if ms != [] {
      PartsInherit(ms, |s.x|);
      LayersFit(RestPart(ms), |s.x|);
      LayerFirst(law, s, ms);
      LayersRefineSequence(law, Run(law, s, ReadyPart(ms)), RestPart(ms));
      assert Layers(ms)[1..] == Layers(RestPart(ms));
    }
  }

  function Flatten(layers: seq<seq<Move>>): seq<Move>
  {
    if layers == [] then [] else layers[0] + Flatten(layers[1..])
  }

  /** The layers hold every move exactly once, and every pass makes progress. */
  lemma {:induction false} LayersPartition(ms: seq<Move>)
    ensures multiset(Flatten(Layers(ms))) == multiset(ms)
    ensures forall i :: 0 <= i < |Layers(ms)| ==> Layers(ms)[i] != []
    decreases |ms|
  {
    if ms != [] {
      PartsMembers(ms);
      LayersPartition(RestPart(ms));
      assert Layers(ms)[1..] == Layers(RestPart(ms));
    }
  }

  /** The moves of a layer touch pairwise disjoint ports. */
  predicate DisjointPorts(layer: seq<Move>)
  {
    forall j, k :: 0 <= j < k < |layer| ==> {layer[j].a, layer[j].b} !! {layer[k].a, layer[k].b}
  }

  lemma {:induction false} LayersDisjoint(ms: seq<Move>, ports: nat)
    requires AllFit(ms, ports) && MutualReads(ms) && DistinctIds(ms)
    ensures forall i :: 0 <= i < |Layers(ms)| ==> DisjointPorts(Layers(ms)[i])
    decreases |ms|
  {
    if ms != [] {
      PartsInherit(ms, ports);
      LayerIndependent(ms);
      assert DisjointPorts(ReadyPart(ms)) by {
        var r := ReadyPart(ms);
        forall j, k | 0 <= j < k < |r|
          ensures {r[j].a, r[j].b} !! {r[k].a, r[k].b}
        {
          assert Fits(r[k], ports) && !Feeds(r[j], r[k]);
        }
      }
      LayersDisjoint(RestPart(ms), ports);
    }
  }
}
