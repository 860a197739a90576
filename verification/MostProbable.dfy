/** Most probable label paths per length, and their agreement with the least-action paths. */
module MostProbable {
  import opened LabelPaths
  import opened PathProgramme

  /** A value as a fraction, and the number of paths attaining it. */
  datatype Tied = Tied(num: int, den: int, count: nat)

  ghost predicate IsTied(c: Chain, start: nat, q: set<seq<nat>>, x: Tied)
    requires c.Valid() && start < |c.sector.next| && Paths(c, q)
  {
    x.den > 0 && Summary(c, start, q, Ratio(x.num, x.den), x.count)
  }

  ghost predicate Tabled(c: Chain, start: nat, length: nat, table: map<nat, Tied>, t: nat)
    requires c.Valid() && start < |c.sector.next|
  {
    var q := PathsTo(c, start, length, t);
    (t in table <==> q != {}) && (t in table ==> IsTied(c, start, q, table[t]))
  }

  /** Per end state: the largest probability and its count. */
  ghost predicate TableOf(c: Chain, start: nat, length: nat, table: map<nat, Tied>)
    requires c.Valid() && start < |c.sector.next|
  {
    && (forall t :: t in table ==> t < |c.sector.next|)
    && forall t: nat :: t < |c.sector.next| ==> Tabled(c, start, length, table, t)
  }

  function ProbabilityTable(frontier: map<nat, Entry>): map<nat, Tied>
  {
    map t | t in frontier :: Tied(frontier[t].num, frontier[t].den, frontier[t].count)
  }

  function ActionTable(beta: nat, actions: map<nat, Action>): map<nat, Tied>
    requires forall t :: t in actions ==> actions[t].dsum <= 0
  {
    map t | t in actions :: Tied(Weight(beta, actions[t]), actions[t].zprod, actions[t].count)
  }

  lemma ProbabilityTableIs(c: Chain, start: nat, length: nat, frontier: map<nat, Entry>)
    requires c.Valid() && start < |c.sector.next| && Frontier(c, start, length, frontier)
    ensures TableOf(c, start, length, ProbabilityTable(frontier))
  {
    hide Summary, PathsTo, Ratio;
    forall t: nat | t < |c.sector.next|
      ensures Tabled(c, start, length, ProbabilityTable(frontier), t)
    {
      assert Slot(c, start, PathsTo(c, start, length, t), t, frontier);
    }
  }

  lemma ActionTableIs(c: Chain, start: nat, length: nat, actions: map<nat, Action>, frontier: map<nat, Entry>)
    requires c.Valid() && start < |c.sector.next| && ActionFrontier(c, start, length, actions, frontier)
    ensures forall t :: t in actions ==> actions[t].dsum <= 0
    ensures TableOf(c, start, length, ActionTable(c.beta, actions))
  {
    hide Summary, PathsTo, Ratio;
    forall t: nat | t < |c.sector.next|
      ensures Tabled(c, start, length, ActionTable(c.beta, actions), t)
    {
      assert Slot(c, start, PathsTo(c, start, length, t), t, frontier);
    }
  }

  // ----- the best over all end states

  ghost predicate AtMost(table: map<nat, Tied>, keys: set<nat>, v: real)
  {
    forall t :: t in keys && t in table && table[t].den > 0 ==> Ratio(table[t].num, table[t].den) <= v
  }

  lemma TableDens(c: Chain, start: nat, length: nat, table: map<nat, Tied>)
    requires c.Valid() && start < |c.sector.next| && TableOf(c, start, length, table)
    ensures forall t :: t in table ==> table[t].den > 0 && Ratio(table[t].num, table[t].den) > 0.0
  {
    forall t | t in table
      ensures table[t].den > 0 && Ratio(table[t].num, table[t].den) > 0.0
    {
      assert Tabled(c, start, length, table, t);
      var p :| p in PathsTo(c, start, length, t);
    }
  }

  method Largest(table: map<nat, Tied>) returns (num: int, den: int)
    requires forall t :: t in table ==> table[t].den > 0 && Ratio(table[t].num, table[t].den) > 0.0
    ensures den > 0 && AtMost(table, table.Keys, Ratio(num, den))
    ensures table.Keys != {} ==> exists t :: t in table && Ratio(table[t].num, table[t].den) == Ratio(num, den)
  {
    hide Ratio;
    num, den := 0, 1;
    RatioZero();
    var rest := table.Keys;
    while rest != {}
      invariant rest <= table.Keys && den > 0
      invariant AtMost(table, table.Keys - rest, Ratio(num, den))
      invariant if rest == table.Keys then Ratio(num, den) == 0.0
                else exists t :: t in table && Ratio(table[t].num, table[t].den) == Ratio(num, den)
      decreases rest
    {
      var t :| t in rest;
      if CompareRatio(table[t].num, table[t].den, num, den) > 0 {
        num, den := table[t].num, table[t].den;
      }
      rest := rest - {t};
    }
  }

  lemma RatioZero()
    ensures Ratio(0, 1) == 0.0
  {
  }

  /** The paths that end in `done`. */
  ghost function Collected(c: Chain, start: nat, length: nat, done: set<nat>): (r: set<seq<nat>>)
    requires c.Valid() && start < |c.sector.next|
    ensures Paths(c, r)
    ensures forall p :: p in r <==> |p| == length && IsPath(c, p) && End(c, start, p) in done
  {
    set p | p in AllPaths(c.sector.labels, length) && IsPath(c, p) && End(c, start, p) in done
  }

  lemma CollectState(c: Chain, start: nat, length: nat, table: map<nat, Tied>, done: set<nat>, s: nat, v: real)
    requires c.Valid() && start < |c.sector.next| && TableOf(c, start, length, table) && s in table && s !in done
    ensures table[s].den > 0
    ensures Ratio(table[s].num, table[s].den) <= v ==>
      |Attaining(c, start, Collected(c, start, length, done + {s}), v)| ==
      |Attaining(c, start, Collected(c, start, length, done), v)|
      + if Ratio(table[s].num, table[s].den) == v then table[s].count else 0
  {
    hide Ratio, PathsTo, Collected, End, Prob;
    assert Tabled(c, start, length, table, s);
    var q := PathsTo(c, start, length, s);
    if Ratio(table[s].num, table[s].den) <= v {
      var a, b := Attaining(c, start, Collected(c, start, length, done), v), Attaining(c, start, q, v);
      assert Attaining(c, start, Collected(c, start, length, done + {s}), v) == a + b;
      assert a * b == {};
      if Ratio(table[s].num, table[s].den) != v {
        assert b == {};
      }
    }
  }

  lemma CollectAll(c: Chain, start: nat, length: nat, table: map<nat, Tied>)
    requires c.Valid() && start < |c.sector.next| && TableOf(c, start, length, table)
    ensures Collected(c, start, length, table.Keys) == AllPaths(c.sector.labels, length)
    ensures Collected(c, start, length, {}) == {}
  {
    hide Summary, End;
    forall p | p in AllPaths(c.sector.labels, length)
      ensures p in Collected(c, start, length, table.Keys)
    {
      assert IsPath(c, p);
      assert Tabled(c, start, length, table, End(c, start, p));
    }
  }

  /** The states in which some path attains `v`. */
  ghost predicate EndsAt(c: Chain, start: nat, length: nat, v: real, t: nat)
    requires c.Valid() && start < |c.sector.next|
  {
    exists p :: p in PathsTo(c, start, length, t) && Prob(c, start, p) == v
  }

  ghost predicate BestEnds(c: Chain, start: nat, length: nat, v: real, winners: set<nat>)
    requires c.Valid() && start < |c.sector.next|
  {
    forall t: nat :: t in winners <==> EndsAt(c, start, length, v, t)
  }

  lemma WinnersAreBestEnds(c: Chain, start: nat, length: nat, table: map<nat, Tied>, v: real, winners: set<nat>)
    requires c.Valid() && start < |c.sector.next| && TableOf(c, start, length, table)
    requires AtMost(table, table.Keys, v)
    requires forall t :: t in winners <==> t in table && table[t].den > 0 && Ratio(table[t].num, table[t].den) == v
    ensures BestEnds(c, start, length, v, winners)
  {
    hide Ratio, PathsTo, Prob, End;
    forall t: nat
      ensures t in winners <==> EndsAt(c, start, length, v, t)
    {
      if t in winners {
        assert Tabled(c, start, length, table, t);
        var p :| p in Attaining(c, start, PathsTo(c, start, length, t), v);
      }
      if EndsAt(c, start, length, v, t) {
        var p :| p in PathsTo(c, start, length, t) && Prob(c, start, p) == v;
        EndsInside(c, start, p);
        assert Tabled(c, start, length, table, t);
      }
    }
  }

  lemma EndsInside(c: Chain, start: nat, p: seq<nat>)
    requires c.Valid() && start < |c.sector.next| && IsPath(c, p)
    ensures End(c, start, p) < |c.sector.next|
  {
  }

  datatype Best = Best(num: int, den: int, winners: set<nat>, ties: nat)

  /** The largest probability of all, how many paths of this length attain it, and where they end. */
  ghost predicate BestOf(c: Chain, start: nat, length: nat, b: Best)
    requires c.Valid() && start < |c.sector.next|
  {
    && b.den > 0
    && Paths(c, AllPaths(c.sector.labels, length))
    && Summary(c, start, AllPaths(c.sector.labels, length), Ratio(b.num, b.den), b.ties)
    && BestEnds(c, start, length, Ratio(b.num, b.den), b.winners)
  }

  lemma {:induction false} SomePath(labels: nat, length: nat) returns (p: seq<nat>)
    requires labels > 0
    ensures p in AllPaths(labels, length)
  {
    p := seq(length, _ => 0);
  }

  lemma BestIsBest(c: Chain, start: nat, length: nat, table: map<nat, Tied>, b: Best)
    requires c.Valid() && start < |c.sector.next| && TableOf(c, start, length, table) && c.sector.labels > 0
    requires forall t :: t in table ==> table[t].den > 0
    requires b.den > 0 && AtMost(table, table.Keys, Ratio(b.num, b.den))
    requires table.Keys != {} ==> exists t :: t in table && Ratio(table[t].num, table[t].den) == Ratio(b.num, b.den)
    requires forall t :: t in b.winners <==> t in table && Ratio(table[t].num, table[t].den) == Ratio(b.num, b.den)
    requires b.ties == |Attaining(c, start, Collected(c, start, length, table.Keys), Ratio(b.num, b.den))|
    ensures BestOf(c, start, length, b)
  {
    hide Ratio, PathsTo, Prob, End, AllPaths;
    TableDens(c, start, length, table);
    CollectAll(c, start, length, table);
    var v := Ratio(b.num, b.den);
    WinnersAreBestEnds(c, start, length, table, v, b.winners);
    var p := SomePath(c.sector.labels, length);
    var all := Collected(c, start, length, table.Keys);
    assert p in all;
    var t :| t in table && Ratio(table[t].num, table[t].den) == v;
    assert EndsAt(c, start, length, v, t);
    var w :| w in PathsTo(c, start, length, t) && Prob(c, start, w) == v;
    assert w in Attaining(c, start, all, v);
    forall x | x in all
      ensures Prob(c, start, x) <= v
    {
      assert Tabled(c, start, length, table, End(c, start, x));
    }
  }

  /** The states with value `num / den`, and the paths they tie. */
  method Ties(c: Chain, ghost start: nat, ghost length: nat, table: map<nat, Tied>, num: int, den: int)
    returns (winners: set<nat>, ties: nat)
    requires c.Valid() && start < |c.sector.next| && TableOf(c, start, length, table) && den > 0
    requires forall t :: t in table ==> table[t].den > 0
    requires AtMost(table, table.Keys, Ratio(num, den))
    ensures forall t :: t in winners <==> t in table && Ratio(table[t].num, table[t].den) == Ratio(num, den)
    ensures ties == |Attaining(c, start, Collected(c, start, length, table.Keys), Ratio(num, den))|
  {
    hide Ratio, Collected, TableOf, Attaining, Chain.Valid;
    var rest := table.Keys;
    winners, ties := {}, 0;
    ghost var done: set<nat> := {};
    AttainNone(c, start, length, Ratio(num, den));
    while rest != {}
      invariant rest + done == table.Keys && rest !! done
      invariant forall t :: t in winners <==> t in done && Ratio(table[t].num, table[t].den) == Ratio(num, den)
      invariant ties == |Attaining(c, start, Collected(c, start, length, done), Ratio(num, den))|
      decreases rest
    {
      var s :| s in rest;
      CollectState(c, start, length, table, done, s, Ratio(num, den));
      if CompareRatio(table[s].num, table[s].den, num, den) == 0 {
        winners, ties := winners + {s}, ties + table[s].count;
      }
      rest, done := rest - {s}, done + {s};
    }
    assert done == table.Keys;
  }

  /** Largest value, winning states and tied paths of a table. */
  method Pick(c: Chain, ghost start: nat, ghost length: nat, table: map<nat, Tied>) returns (b: Best)
    requires c.Valid() && start < |c.sector.next| && TableOf(c, start, length, table) && c.sector.labels > 0
    ensures BestOf(c, start, length, b) && b.den > 0
    ensures b.winners <= table.Keys
    ensures forall t :: t in b.winners ==> table[t].den > 0 && Ratio(table[t].num, table[t].den) == Ratio(b.num, b.den)
  {
    hide Ratio, Collected, TableOf, Attaining, BestOf, Chain.Valid;
    TableDens(c, start, length, table);
    var num, den := Largest(table);
    var winners, ties := Ties(c, start, length, table, num, den);
    b := Best(num, den, winners, ties);
    BestIsBest(c, start, length, table, b);
  }

  lemma AttainNone(c: Chain, start: nat, length: nat, v: real)
    requires c.Valid() && start < |c.sector.next|
    ensures |Attaining(c, start, Collected(c, start, length, {}), v)| == 0
  {
    assert Attaining(c, start, Collected(c, start, length, {}), v) == {};
  }

  /** Both routes have one best value, one set of winners and one tie count. */
  lemma BestUnique(c: Chain, start: nat, length: nat, b: Best, b': Best)
    requires c.Valid() && start < |c.sector.next| && BestOf(c, start, length, b) && BestOf(c, start, length, b')
    ensures Ratio(b.num, b.den) == Ratio(b'.num, b'.den) && b.winners == b'.winners && b.ties == b'.ties
  {
    hide Ratio, Prob, EndsAt, AllPaths, Summary;
    SummaryUnique(c, start, AllPaths(c.sector.labels, length), Ratio(b.num, b.den), b.ties, Ratio(b'.num, b'.den),
      b'.ties);
  }

  // ----- all lengths

  datatype Row = Row(best: Best, action: Best, agree: bool, last: nat, path: seq<nat>)

  /** What is reported for one length. */
  ghost predicate Reported(c: Chain, start: nat, length: nat, row: Row)
    requires c.Valid() && start < |c.sector.next|
  {
    && BestOf(c, start, length, row.best) && BestOf(c, start, length, row.action) && row.agree
    && row.path in PathsTo(c, start, length, row.last)
    && Prob(c, start, row.path) == Ratio(row.best.num, row.best.den)
    && forall t :: t in row.best.winners ==> row.last <= t
  }

  method Least(s: set<nat>) returns (r: nat)
    requires s != {}
    ensures r in s && forall t :: t in s ==> r <= t
  {
    var rest := s;
    r :| r in rest;
    rest := rest - {r};
    while rest != {}
      invariant rest <= s && r in s && forall t :: t in s && t !in rest ==> r <= t
      decreases rest
    {
      var t :| t in rest;
      if t < r {
        r := t;
      }
      rest := rest - {t};
    }
  }

  method Report(c: Chain, ghost start: nat, ghost length: nat, frontier: map<nat, Entry>,
                actions: map<nat, Action>, ghost mirror: map<nat, Entry>) returns (row: Row)
    requires c.Valid() && start < |c.sector.next| && c.sector.labels > 0
    requires Frontier(c, start, length, frontier) && ActionFrontier(c, start, length, actions, mirror)
    ensures Reported(c, start, length, row)
  {
    hide Ratio, Prob, Summary, TableOf, Frontier, ActionFrontier, PathsTo, BestOf;
    ProbabilityTableIs(c, start, length, frontier);
    ActionTableIs(c, start, length, actions, mirror);
    var best := Pick(c, start, length, ProbabilityTable(frontier));
    var action := Pick(c, start, length, ActionTable(c.beta, actions));
    BestUnique(c, start, length, best, action);
    SomeWinner(c, start, length, best);
    SomeWinner(c, start, length, action);
    var agree := best.winners == action.winners && best.ties == action.ties
                 && CompareRatio(best.num, best.den, action.num, action.den) == 0;
    var last := Least(best.winners);
    FrontierEntry(c, start, length, frontier, last);
    row := Row(best, action, agree, last, frontier[last].path);
  }

  lemma SomeWinner(c: Chain, start: nat, length: nat, b: Best)
    requires c.Valid() && start < |c.sector.next| && BestOf(c, start, length, b)
    ensures b.den > 0 && b.winners != {}
  {
    var all, v := AllPaths(c.sector.labels, length), Ratio(b.num, b.den);
    var p :| p in Attaining(c, start, all, v);
    assert p in PathsTo(c, start, length, End(c, start, p));
    assert EndsAt(c, start, length, v, End(c, start, p));
  }

  /** Most probable label paths of every length up to `maxLength`, with the least-action comparison. */
  method MostProbablePaths(c: Chain, start: nat, maxLength: nat) returns (rows: seq<Row>)
    requires c.Valid() && start < |c.sector.next| && c.sector.labels > 0
    ensures |rows| == maxLength
    ensures forall i: nat :: i < maxLength ==> Reported(c, start, i + 1, rows[i])
  {
    hide Frontier, Reported;
    var frontier: map<nat, Entry> := map[start := Entry(1, 1, 1, [])];
    var actions: map<nat, Action> := map[start := Action(0, 1, 1)];
    ghost var mirror: map<nat, Entry> := map[start := Entry(1, 1, 1, [])];
    FrontierStarts(c, start);
    ActionStarts(c, start);
    rows := [];
    for i := 0 to maxLength
      invariant |rows| == i && Frontier(c, start, i, frontier) && ActionFrontier(c, start, i, actions, mirror)
      invariant forall k: nat :: k < i ==> Reported(c, start, k + 1, rows[k])
    {
      frontier := Advance(c, start, i, frontier);
      actions, mirror := AdvanceAction(c, start, i, actions, mirror);
      var row := Report(c, start, i + 1, frontier, actions, mirror);
      rows := rows + [row];
    }
  }

  lemma ActionStarts(c: Chain, start: nat)
    ensures Mirrors(c, map[start := Action(0, 1, 1)], map[start := Entry(1, 1, 1, [])])
  {
    assert c.beta * 0 == 0;
  }
}
