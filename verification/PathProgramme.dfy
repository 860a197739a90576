/** The dynamic programme over states, by probability and by action. */
module PathProgramme {
  import opened Basics
  import opened TiltedKernel
  import opened LabelPaths

  // ----- which paths have been seen

  /** A step that leaves `done`, or leaves `s` by a label below `m`. */
  predicate Pushed(done: set<nat>, s: nat, m: nat, from: nat, l: nat)
  {
    from in done || (from == s && l < m)
  }

  ghost predicate Seen(c: Chain, start: nat, length: nat, done: set<nat>, s: nat, m: nat, p: seq<nat>)
    requires c.Valid() && start < |c.sector.next| && IsPath(c, p) && |p| == length + 1
  {
    var q := p[..length];
    IsPath(c, q) && Pushed(done, s, m, End(c, start, q), p[length])
  }

  ghost function SoFar(c: Chain, start: nat, length: nat, done: set<nat>, s: nat, m: nat, t: nat): (r: set<seq<nat>>)
    requires c.Valid() && start < |c.sector.next|
    ensures Paths(c, r)
  {
    set p | p in PathsTo(c, start, length + 1, t) && Seen(c, start, length, done, s, m, p)
  }

  lemma SoFarNext(c: Chain, start: nat, length: nat, done: set<nat>, s: nat, m: nat, t: nat)
    requires c.Valid() && start < |c.sector.next| && c.At(s, m) && s !in done
    ensures c.sector.next[s][m] != t ==>
      SoFar(c, start, length, done, s, m + 1, t) == SoFar(c, start, length, done, s, m, t)
    ensures c.sector.next[s][m] == t ==>
      && SoFar(c, start, length, done, s, m + 1, t) ==
           SoFar(c, start, length, done, s, m, t) + Extend(PathsTo(c, start, length, s), m)
      && SoFar(c, start, length, done, s, m, t) !! Extend(PathsTo(c, start, length, s), m)
  {
    hide SoFar, Extend, PathsTo, IsPath;
    var before, after := SoFar(c, start, length, done, s, m, t), SoFar(c, start, length, done, s, m + 1, t);
    var more := Extend(PathsTo(c, start, length, s), m);
    forall p
      ensures p in after <==> p in before || (p in more && c.sector.next[s][m] == t)
      ensures c.sector.next[s][m] == t ==> !(p in before && p in more)
    {
      SeenNext(c, start, length, done, s, m, t, p);
    }
  }

  lemma SeenNext(c: Chain, start: nat, length: nat, done: set<nat>, s: nat, m: nat, t: nat, p: seq<nat>)
    requires c.Valid() && start < |c.sector.next| && c.At(s, m) && s !in done
    ensures p in SoFar(c, start, length, done, s, m + 1, t) <==>
            p in SoFar(c, start, length, done, s, m, t)
            || (p in Extend(PathsTo(c, start, length, s), m) && c.sector.next[s][m] == t)
    ensures !(p in SoFar(c, start, length, done, s, m, t) && p in Extend(PathsTo(c, start, length, s), m))
  {
    hide SoFar, Extend, PathsTo, IsPath, Prob, End, Chain.Valid;
    InSoFar(c, start, length, done, s, m, t, p);
    InSoFar(c, start, length, done, s, m + 1, t, p);
    InExtension(c, start, length, s, m, p);
  }

  lemma InSoFar(c: Chain, start: nat, length: nat, done: set<nat>, s: nat, m: nat, t: nat, p: seq<nat>)
    requires c.Valid() && start < |c.sector.next|
    ensures p in SoFar(c, start, length, done, s, m, t) <==>
            |p| == length + 1 && IsPath(c, p) && IsPath(c, p[..length]) && End(c, start, p) == t
            && Pushed(done, s, m, End(c, start, p[..length]), p[length])
  {
    hide Prob, Chance, Pushed, AllPaths;
    if |p| == length + 1 && IsPath(c, p) {
      PrefixPath(c, p, length);
      assert Seen(c, start, length, done, s, m, p) <==> Pushed(done, s, m, End(c, start, p[..length]), p[length]);
      assert p in SoFar(c, start, length, done, s, m, t) <==>
        p in PathsTo(c, start, length + 1, t) && Seen(c, start, length, done, s, m, p);
    }
  }

  lemma InExtension(c: Chain, start: nat, length: nat, s: nat, m: nat, p: seq<nat>)
    requires c.Valid() && start < |c.sector.next| && c.At(s, m)
    ensures p in Extend(PathsTo(c, start, length, s), m) <==>
            |p| == length + 1 && IsPath(c, p[..length]) && End(c, start, p[..length]) == s && p[length] == m
    ensures p in Extend(PathsTo(c, start, length, s), m) ==>
            IsPath(c, p) && End(c, start, p) == c.sector.next[s][m]
  {
    hide End, Prob, Chance, IsPath, Chain.Valid;
    if p in Extend(PathsTo(c, start, length, s), m) {
      ProbExtends(c, start, p, s, m);
    }
  }

  lemma PrefixPath(c: Chain, p: seq<nat>, k: nat)
    requires IsPath(c, p) && k <= |p|
    ensures IsPath(c, p[..k])
  {
  }

  lemma SoFarState(c: Chain, start: nat, length: nat, done: set<nat>, s: nat, s': nat, t: nat)
    requires c.Valid() && start < |c.sector.next|
    ensures SoFar(c, start, length, done, s, c.sector.labels, t) == SoFar(c, start, length, done + {s}, s', 0, t)
    ensures SoFar(c, start, length, done, s, 0, t) == SoFar(c, start, length, done, s', 0, t)
  {
    hide End;
  }

  lemma SoFarNone(c: Chain, start: nat, length: nat, s: nat, t: nat)
    requires c.Valid() && start < |c.sector.next|
    ensures SoFar(c, start, length, {}, s, 0, t) == {}
  {
  }

  lemma SoFarAll(c: Chain, start: nat, length: nat, done: set<nat>, s: nat, t: nat)
    requires c.Valid() && start < |c.sector.next|
    requires forall u: nat :: u < |c.sector.next| && PathsTo(c, start, length, u) != {} ==> u in done
    ensures SoFar(c, start, length, done, s, 0, t) == PathsTo(c, start, length + 1, t)
  {
    hide End;
    forall p | p in PathsTo(c, start, length + 1, t)
      ensures Seen(c, start, length, done, s, 0, p)
    {
      var q := p[..length];
      assert IsPath(c, q);
      assert q in PathsTo(c, start, length, End(c, start, q));
    }
  }

  // ----- exact comparison

  /** The sign of `a / b - c / d`. */
  function CompareRatio(num: int, den: int, num': int, den': int): (r: int)
    requires den > 0 && den' > 0
    ensures r > 0 <==> Ratio(num, den) > Ratio(num', den')
    ensures r == 0 <==> Ratio(num, den) == Ratio(num', den')
    ensures r < 0 <==> Ratio(num, den) < Ratio(num', den')
  {
    CrossMultiply(num, den, num', den');
    var left, right := num * den', num' * den;
    if left > right then 1 else if left < right then -1 else 0
  }

  lemma CrossMultiply(num: int, den: int, num': int, den': int)
    requires den > 0 && den' > 0
    ensures num * den' > num' * den <==> Ratio(num, den) > Ratio(num', den')
    ensures num * den' == num' * den <==> Ratio(num, den) == Ratio(num', den')
  {
    var x, y, b, d := Ratio(num, den), Ratio(num', den'), den as real, den' as real;
    assert x * b == num as real && y * d == num' as real;
    assert (num * den') as real == num as real * d && (num' * den) as real == num' as real * b;
    Scale(x, y, b * d);
    assert x * (b * d) == x * b * d && y * (b * d) == y * d * b;
  }

  lemma Scale(x: real, y: real, w: real)
    requires w > 0.0
    ensures x > y <==> x * w > y * w
    ensures x == y <==> x * w == y * w
  {
  }

  lemma RatioTimes(num: int, den: int, w: int, z: int)
    requires den > 0 && z > 0
    ensures den * z > 0 && Ratio(num * w, den * z) == Times(Ratio(num, den), Ratio(w, z))
  {
    var x, y, b, d := Ratio(num, den), Ratio(w, z), den as real, z as real;
    assert x * b == num as real && y * d == w as real;
    assert (num * w) as real == (x * b) * (y * d) == (x * y) * (b * d);
    assert (den * z) as real == b * d;
  }

  // ----- the probability route

  /** The best probability as a fraction, how many paths attain it, and one that does. */
  datatype Entry = Entry(num: int, den: int, count: nat, path: seq<nat>)

  ghost predicate Records(c: Chain, start: nat, q: set<seq<nat>>, e: Entry)
    requires c.Valid() && start < |c.sector.next| && Paths(c, q)
  {
    && e.den > 0
    && Summary(c, start, q, Ratio(e.num, e.den), e.count)
    && e.path in q && Prob(c, start, e.path) == Ratio(e.num, e.den)
  }

  ghost predicate Slot(c: Chain, start: nat, q: set<seq<nat>>, t: nat, frontier: map<nat, Entry>)
    requires c.Valid() && start < |c.sector.next| && Paths(c, q)
  {
    (t in frontier <==> q != {}) && (t in frontier ==> Records(c, start, q, frontier[t]))
  }

  ghost predicate Partial(c: Chain, start: nat, length: nat, done: set<nat>, s: nat, m: nat, frontier: map<nat, Entry>)
    requires c.Valid() && start < |c.sector.next|
  {
    && (forall t :: t in frontier ==> t < |c.sector.next|)
    && forall t: nat :: t < |c.sector.next| ==> Slot(c, start, SoFar(c, start, length, done, s, m, t), t, frontier)
  }

  /** Every reachable state carries its summary, and no other state appears. */
  ghost predicate Frontier(c: Chain, start: nat, length: nat, frontier: map<nat, Entry>)
    requires c.Valid() && start < |c.sector.next|
  {
    && (forall t :: t in frontier ==> t < |c.sector.next|)
    && forall t: nat :: t < |c.sector.next| ==> Slot(c, start, PathsTo(c, start, length, t), t, frontier)
  }

  function Better(before: Option<Entry>, cand: Entry): (r: Entry)
    requires cand.den > 0 && (before.Some? ==> before.value.den > 0)
  {
    if before.None? then cand else
      var cmp := CompareRatio(cand.num, cand.den, before.value.num, before.value.den);
      if cmp > 0 then cand
      else if cmp == 0 then before.value.(count := before.value.count + cand.count)
      else before.value
  }

  lemma RecordsMerge(c: Chain, start: nat, q: set<seq<nat>>, e: Entry, q': set<seq<nat>>, cand: Entry)
    requires c.Valid() && start < |c.sector.next| && Paths(c, q) && Paths(c, q') && q !! q'
    requires Records(c, start, q, e) && Records(c, start, q', cand)
    ensures Paths(c, q + q') && Records(c, start, q + q', Better(Some(e), cand))
  {
    hide Summary, Ratio, Prob;
    Merge(c, start, q, Ratio(e.num, e.den), e.count, q', Ratio(cand.num, cand.den), cand.count);
  }

  function Candidate(c: Chain, s: nat, m: nat, e: Entry): Entry
    requires c.Valid() && c.At(s, m)
  {
    Entry(e.num * c.kernel.weight[s][m], e.den * c.kernel.partition[s], e.count, e.path + [m])
  }

  lemma RecordsExtend(c: Chain, start: nat, length: nat, s: nat, m: nat, e: Entry)
    requires c.Valid() && start < |c.sector.next| && c.At(s, m)
    requires Paths(c, PathsTo(c, start, length, s)) && Records(c, start, PathsTo(c, start, length, s), e)
    ensures Paths(c, Extend(PathsTo(c, start, length, s), m))
    ensures Records(c, start, Extend(PathsTo(c, start, length, s), m), Candidate(c, s, m, e))
  {
    hide Summary, Ratio, Prob, PathsTo, Extend, End, Times;
    WeightsPositive(c.sector, c.beta, c.kernel, s, m);
    var q := PathsTo(c, start, length, s);
    SummaryExtends(c, start, q, s, m, Ratio(e.num, e.den), e.count);
    RatioTimes(e.num, e.den, c.kernel.weight[s][m], c.kernel.partition[s]);
    var p := e.path + [m];
    assert p[..|p| - 1] == e.path;
    ProbExtends(c, start, p, s, m);
  }

  lemma PartialNext(c: Chain, start: nat, length: nat, done: set<nat>, s: nat, m: nat,
                    frontier: map<nat, Entry>, e: Entry, frontier': map<nat, Entry>)
    requires c.Valid() && start < |c.sector.next| && c.At(s, m) && s !in done
    requires Records(c, start, PathsTo(c, start, length, s), e)
    requires Partial(c, start, length, done, s, m, frontier)
    requires var t := c.sector.next[s][m];
      var cand := Candidate(c, s, m, e);
      && cand.den > 0 && (t in frontier ==> frontier[t].den > 0)
      && frontier' == frontier[t := Better(if t in frontier then Some(frontier[t]) else None, cand)]
    ensures Partial(c, start, length, done, s, m + 1, frontier')
  {
    hide SoFar, Extend, Better, Candidate, Records, PathsTo;
    RecordsExtend(c, start, length, s, m, e);
    var u, cand, m' := c.sector.next[s][m], Candidate(c, s, m, e), m + 1;
    forall t: nat | t < |c.sector.next|
      ensures Slot(c, start, SoFar(c, start, length, done, s, m', t), t, frontier')
    {
      SoFarNext(c, start, length, done, s, m, t);
      assert Slot(c, start, SoFar(c, start, length, done, s, m, t), t, frontier);
      if t == u {
        var q, more := SoFar(c, start, length, done, s, m, t), Extend(PathsTo(c, start, length, s), m);
        SlotGrows(c, start, q, more, t, frontier, cand, frontier'[t]);
      }
    }
  }

  lemma SlotGrows(c: Chain, start: nat, q: set<seq<nat>>, more: set<seq<nat>>, t: nat,
                  frontier: map<nat, Entry>, cand: Entry, e: Entry)
    requires c.Valid() && start < |c.sector.next| && Paths(c, q) && Paths(c, more) && q !! more
    requires Slot(c, start, q, t, frontier) && Records(c, start, more, cand)
    requires e == Better(if t in frontier then Some(frontier[t]) else None, cand)
    ensures Paths(c, q + more) && q + more != {} && Records(c, start, q + more, e)
  {
    hide Summary, Ratio;
    if t in frontier {
      RecordsMerge(c, start, q, frontier[t], more, cand);
    } else {
      assert q + more == more;
    }
  }

  /** Push one state's entry along every label. */
  method PushState(c: Chain, ghost start: nat, ghost length: nat, ghost done: set<nat>, s: nat, e: Entry,
                   frontier: map<nat, Entry>)
    returns (next: map<nat, Entry>)
    requires c.Valid() && start < |c.sector.next| && s < |c.sector.next| && s !in done
    requires Records(c, start, PathsTo(c, start, length, s), e)
    requires Partial(c, start, length, done, s, 0, frontier)
    ensures Partial(c, start, length, done, s, c.sector.labels, next)
  {
    hide SoFar, Partial, Summary, Ratio, Prob, PathsTo, Better, End;
    next := frontier;
    for m := 0 to c.sector.labels
      invariant Partial(c, start, length, done, s, m, next)
    {
      var t := c.sector.next[s][m];
      WeightsPositive(c.sector, c.beta, c.kernel, s, m);
      PartialEntry(c, start, length, done, s, m, next, t);
      var cand := Candidate(c, s, m, e);
      assert cand.den > 0 by { RatioTimes(1, e.den, 1, c.kernel.partition[s]); }
      var entry := Better(if t in next then Some(next[t]) else None, cand);
      PartialNext(c, start, length, done, s, m, next, e, next[t := entry]);
      next := next[t := entry];
    }
  }

  lemma PartialEntry(c: Chain, start: nat, length: nat, done: set<nat>, s: nat, m: nat, frontier: map<nat, Entry>,
                     t: nat)
    requires c.Valid() && start < |c.sector.next| && Partial(c, start, length, done, s, m, frontier)
    ensures t in frontier ==> frontier[t].den > 0
  {
    if t in frontier {
      assert Slot(c, start, SoFar(c, start, length, done, s, m, t), t, frontier);
    }
  }

  lemma PartialState(c: Chain, start: nat, length: nat, done: set<nat>, s: nat, s': nat, frontier: map<nat, Entry>)
    requires c.Valid() && start < |c.sector.next|
    ensures Partial(c, start, length, done, s, c.sector.labels, frontier) ==>
      Partial(c, start, length, done + {s}, s', 0, frontier)
    ensures Partial(c, start, length, done, s, 0, frontier) ==> Partial(c, start, length, done, s', 0, frontier)
  {
    hide SoFar, Slot;
    forall t: nat | t < |c.sector.next|
      ensures SoFar(c, start, length, done, s, c.sector.labels, t) == SoFar(c, start, length, done + {s}, s', 0, t)
      ensures SoFar(c, start, length, done, s, 0, t) == SoFar(c, start, length, done, s', 0, t)
    {
      SoFarState(c, start, length, done, s, s', t);
    }
  }

  lemma PartialNone(c: Chain, start: nat, length: nat)
    requires c.Valid() && start < |c.sector.next|
    ensures Partial(c, start, length, {}, 0, 0, map[])
  {
    hide SoFar;
    forall t: nat | t < |c.sector.next|
      ensures SoFar(c, start, length, {}, 0, 0, t) == {}
    {
      SoFarNone(c, start, length, 0, t);
    }
  }

  lemma PartialAll(c: Chain, start: nat, length: nat, frontier: map<nat, Entry>, next: map<nat, Entry>)
    requires c.Valid() && start < |c.sector.next| && Frontier(c, start, length, frontier)
    requires Partial(c, start, length, frontier.Keys, 0, 0, next)
    ensures Frontier(c, start, length + 1, next)
  {
    hide SoFar, Records, PathsTo;
    forall u: nat | u < |c.sector.next| && PathsTo(c, start, length, u) != {}
      ensures u in frontier.Keys
    {
      assert Slot(c, start, PathsTo(c, start, length, u), u, frontier);
    }
    var longer := length + 1;
    forall t: nat | t < |c.sector.next|
      ensures Slot(c, start, PathsTo(c, start, longer, t), t, next)
    {
      SoFarAll(c, start, length, frontier.Keys, 0, t);
    }
  }

  lemma FrontierEntry(c: Chain, start: nat, length: nat, frontier: map<nat, Entry>, s: nat)
    requires c.Valid() && start < |c.sector.next| && Frontier(c, start, length, frontier) && s in frontier
    ensures s < |c.sector.next| && Records(c, start, PathsTo(c, start, length, s), frontier[s])
  {
    assert Slot(c, start, PathsTo(c, start, length, s), s, frontier);
  }

  /** One more label: the states are visited in any order. */
  method Advance(c: Chain, ghost start: nat, ghost length: nat, frontier: map<nat, Entry>)
    returns (next: map<nat, Entry>)
    requires c.Valid() && start < |c.sector.next| && Frontier(c, start, length, frontier)
    ensures Frontier(c, start, length + 1, next)
  {
    hide SoFar, Partial, Records, PathsTo, Frontier;
    next := map[];
    var rest := frontier.Keys;
    ghost var done: set<nat> := {};
    PartialNone(c, start, length);
    while rest != {}
      invariant rest + done == frontier.Keys && rest !! done
      invariant Partial(c, start, length, done, 0, 0, next)
      decreases rest
    {
      var s :| s in rest;
      FrontierEntry(c, start, length, frontier, s);
      PartialState(c, start, length, done, 0, s, next);
      next := PushState(c, start, length, done, s, frontier[s], next);
      PartialState(c, start, length, done, s, 0, next);
      rest, done := rest - {s}, done + {s};
    }
    assert done == frontier.Keys;
    PartialAll(c, start, length, frontier, next);
  }

  lemma FrontierStarts(c: Chain, start: nat)
    requires c.Valid() && start < |c.sector.next|
    ensures Frontier(c, start, 0, map[start := Entry(1, 1, 1, [])])
  {
    var e := Entry(1, 1, 1, []);
    var q := PathsTo(c, start, 0, start);
    assert q == {[]};
    assert Attaining(c, start, q, 1.0) == {[]};
    assert Records(c, start, q, e);
    forall t: nat | t < |c.sector.next| && t != start
      ensures PathsTo(c, start, 0, t) == {}
    {
    }
  }

  // ----- the action route

  /** The summed decrement, the product of partitions, and how many paths attain the best value. */
  datatype Action = Action(dsum: int, zprod: int, count: nat)

  function Weight(beta: nat, a: Action): int
    requires a.dsum <= 0
  {
    Tilt(beta, a.dsum)
  }

  /** An action entry has the value and the count of a probability entry. */
  ghost predicate Same(c: Chain, a: Action, e: Entry)
  {
    && a.dsum <= 0 && a.zprod > 0 && e.den > 0 && a.count == e.count
    && Ratio(Weight(c.beta, a), a.zprod) == Ratio(e.num, e.den)
  }

  ghost predicate Mirrors(c: Chain, actions: map<nat, Action>, frontier: map<nat, Entry>)
  {
    actions.Keys == frontier.Keys && forall t :: t in actions ==> Same(c, actions[t], frontier[t])
  }

  function ActionCandidate(c: Chain, s: nat, m: nat, a: Action): Action
    requires c.Valid() && c.At(s, m)
  {
    Action(a.dsum + c.sector.drop[s][m], a.zprod * c.kernel.partition[s], a.count)
  }

  function BetterAction(beta: nat, before: Option<Action>, cand: Action): Action
    requires cand.dsum <= 0 && cand.zprod > 0
    requires before.Some? ==> before.value.dsum <= 0 && before.value.zprod > 0
  {
    if before.None? then cand else
      var cmp := CompareRatio(Weight(beta, cand), cand.zprod, Weight(beta, before.value), before.value.zprod);
      if cmp > 0 then cand
      else if cmp == 0 then before.value.(count := before.value.count + cand.count)
      else before.value
  }

  lemma CandidateSame(c: Chain, s: nat, m: nat, a: Action, e: Entry)
    requires c.Valid() && c.At(s, m) && Same(c, a, e)
    ensures Same(c, ActionCandidate(c, s, m, a), Candidate(c, s, m, e))
  {
    hide Tilt, Ratio, Times;
    WeightsPositive(c.sector, c.beta, c.kernel, s, m);
    assert RowTilted(c.sector, c.beta, s, c.kernel.weight[s]);
    var d, w, z := c.sector.drop[s][m], c.kernel.weight[s][m], c.kernel.partition[s];
    TiltAdds(c.beta, a.dsum, d);
    RatioTimes(Weight(c.beta, a), a.zprod, w, z);
    RatioTimes(e.num, e.den, w, z);
  }

  lemma BetterSame(c: Chain, before: Option<Action>, cand: Action, e: Option<Entry>, e': Entry)
    requires Same(c, cand, e') && before.Some? == e.Some? && (before.Some? ==> Same(c, before.value, e.value))
    ensures Same(c, BetterAction(c.beta, before, cand), Better(e, e'))
  {
  }

  method PushAction(c: Chain, ghost start: nat, ghost length: nat, ghost done: set<nat>, s: nat, a: Action,
                    ghost e: Entry,
                    actions: map<nat, Action>, ghost frontier: map<nat, Entry>)
    returns (next: map<nat, Action>, ghost mirror: map<nat, Entry>)
    requires c.Valid() && start < |c.sector.next| && s < |c.sector.next| && s !in done
    requires Records(c, start, PathsTo(c, start, length, s), e) && Same(c, a, e)
    requires Partial(c, start, length, done, s, 0, frontier) && Mirrors(c, actions, frontier)
    ensures Partial(c, start, length, done, s, c.sector.labels, mirror) && Mirrors(c, next, mirror)
  {
    hide SoFar, Partial, Records, PathsTo, Better, BetterAction, Candidate, ActionCandidate, Ratio, Weight;
    next, mirror := actions, frontier;
    for m := 0 to c.sector.labels
      invariant Partial(c, start, length, done, s, m, mirror) && Mirrors(c, next, mirror)
    {
      var t := c.sector.next[s][m];
      CandidateSame(c, s, m, a, e);
      var cand := ActionCandidate(c, s, m, a);
      var entry := BetterAction(c.beta, if t in next then Some(next[t]) else None, cand);
      ghost var better := Better(if t in mirror then Some(mirror[t]) else None, Candidate(c, s, m, e));
      BetterSame(c, if t in next then Some(next[t]) else None, cand,
                 if t in mirror then Some(mirror[t]) else None, Candidate(c, s, m, e));
      PartialNext(c, start, length, done, s, m, mirror, e, mirror[t := better]);
      next, mirror := next[t := entry], mirror[t := better];
    }
  }

  /** Some probability frontier of this length that the actions mirror. */
  ghost predicate ActionFrontier(c: Chain, start: nat, length: nat, actions: map<nat, Action>,
                                  frontier: map<nat, Entry>)
    requires c.Valid() && start < |c.sector.next|
  {
    Frontier(c, start, length, frontier) && Mirrors(c, actions, frontier)
  }

  /** The actions alone: per reachable state the largest path probability and its count. */
  ghost predicate ActionsSummarise(c: Chain, start: nat, length: nat, actions: map<nat, Action>)
    requires c.Valid() && start < |c.sector.next|
  {
    && (forall t :: t in actions ==> t < |c.sector.next| && actions[t].dsum <= 0 && actions[t].zprod > 0)
    && forall t: nat :: t < |c.sector.next| ==>
         && (t in actions <==> PathsTo(c, start, length, t) != {})
         && (t in actions ==>
               Summary(c, start, PathsTo(c, start, length, t), Ratio(Weight(c.beta, actions[t]), actions[t].zprod),
                 actions[t].count))
  }

  lemma MirrorsSummarise(c: Chain, start: nat, length: nat, actions: map<nat, Action>, frontier: map<nat, Entry>)
    requires c.Valid() && start < |c.sector.next| && ActionFrontier(c, start, length, actions, frontier)
    ensures ActionsSummarise(c, start, length, actions)
  {
    hide Summary, PathsTo, Ratio, Weight;
    forall t: nat | t < |c.sector.next|
      ensures t in actions <==> PathsTo(c, start, length, t) != {}
      ensures t in actions ==>
        Summary(c, start, PathsTo(c, start, length, t), Ratio(Weight(c.beta, actions[t]), actions[t].zprod),
          actions[t].count)
    {
      assert Slot(c, start, PathsTo(c, start, length, t), t, frontier);
    }
  }

  method AdvanceAction(c: Chain, ghost start: nat, ghost length: nat, actions: map<nat, Action>,
                       ghost frontier: map<nat, Entry>)
    returns (next: map<nat, Action>, ghost mirror: map<nat, Entry>)
    requires c.Valid() && start < |c.sector.next| && ActionFrontier(c, start, length, actions, frontier)
    ensures ActionFrontier(c, start, length + 1, next, mirror)
    ensures ActionsSummarise(c, start, length + 1, next)
  {
    hide SoFar, Partial, Records, PathsTo, Frontier, Same, ActionsSummarise;
    next, mirror := map[], map[];
    var rest := actions.Keys;
    ghost var done: set<nat> := {};
    PartialNone(c, start, length);
    while rest != {}
      invariant rest + done == actions.Keys && rest !! done
      invariant Partial(c, start, length, done, 0, 0, mirror) && Mirrors(c, next, mirror)
      decreases rest
    {
      var s :| s in rest;
      FrontierEntry(c, start, length, frontier, s);
      PartialState(c, start, length, done, 0, s, mirror);
      next, mirror := PushAction(c, start, length, done, s, actions[s], frontier[s], next, mirror);
      PartialState(c, start, length, done, s, 0, mirror);
      rest, done := rest - {s}, done + {s};
    }
    assert done == frontier.Keys;
    PartialAll(c, start, length, frontier, mirror);
    MirrorsSummarise(c, start, length + 1, next, mirror);
  }
}
