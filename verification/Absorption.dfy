/** Expected moves to absorption, in ascending order of a strictly falling potential. */
module Absorption {
  import opened Basics
  import opened Sums
  import opened TiltedKernel
  import opened LabelPaths

  predicate IsAbsorbing(c: Chain, k: nat)
    requires c.Valid() && k < |c.sector.next|
  {
    forall m: nat :: m < c.sector.labels ==> c.sector.next[k][m] == k
  }

  /** Every move that changes the state lowers the potential. */
  predicate StrictDescent(c: Chain, v: seq<int>)
    requires c.Valid() && |v| == |c.sector.next|
  {
    forall k: nat, m: nat :: k < |v| && m < c.sector.labels && c.sector.next[k][m] != k ==>
      v[c.sector.next[k][m]] < v[k]
  }

  // ----- what leaves a state

  /** The chance of label `m`, when it leads into `keep`. */
  ghost function Into(c: Chain, k: nat, keep: set<nat>): nat -> real
    requires c.Valid() && k < |c.sector.next|
  {
    (m: nat) => if m < c.sector.labels && c.sector.next[k][m] in keep then Chance(c, k, m) else 0.0
  }

  ghost function Mass(c: Chain, k: nat, keep: set<nat>): real
    requires c.Valid() && k < |c.sector.next|
  {
    RSum(c.sector.labels, Into(c, k, keep))
  }

  /** The time ahead after label `m`, when it leads into `keep`. */
  ghost function Ahead(c: Chain, k: nat, keep: set<nat>, t: nat -> real): nat -> real
    requires c.Valid() && k < |c.sector.next|
  {
    (m: nat) => if m < c.sector.labels && c.sector.next[k][m] in keep
      then Times(Chance(c, k, m), t(c.sector.next[k][m])) else 0.0
  }

  ghost function MeanAhead(c: Chain, k: nat, keep: set<nat>, t: nat -> real): real
    requires c.Valid() && k < |c.sector.next|
  {
    RSum(c.sector.labels, Ahead(c, k, keep, t))
  }

  ghost function Upto(n: nat): (r: set<nat>)
    ensures forall s: nat :: s in r <==> s < n
  {
    if n == 0 then {} else Upto(n - 1) + {n - 1}
  }

  ghost function States(c: Chain): (r: set<nat>)
    ensures forall s: nat :: s in r <==> s < |c.sector.next|
  {
    Upto(|c.sector.next|)
  }

  ghost predicate Equation(c: Chain, k: nat, t: nat -> real)
    requires c.Valid() && k < |c.sector.next|
  {
    t(k) == if IsAbsorbing(c, k) then 0.0 else 1.0 + MeanAhead(c, k, States(c), t)
  }

  /** `t` solves `t = 1 + P t`, with zero on absorbing states. */
  ghost predicate Solves(c: Chain, t: nat -> real)
    requires c.Valid()
  {
    forall k: nat :: k < |c.sector.next| ==> Equation(c, k, t)
  }

  lemma {:induction false} PartialRow(c: Chain, k: nat, m: nat)
    requires c.Valid() && k < |c.sector.next| && m <= c.sector.labels && |c.kernel.weight[k]| == c.sector.labels
    requires c.kernel.partition[k] > 0
    ensures RSum(m, Into(c, k, States(c))) == Ratio(Total(c.kernel.weight[k][..m]), c.kernel.partition[k])
  {
    var w, z := c.kernel.weight[k], c.kernel.partition[k];
    if m > 0 {
      PartialRow(c, k, m - 1);
      assert w[..m][..m - 1] == w[..m - 1];
      RatioAdds(Total(w[..m - 1]), w[m - 1], z);
    }
  }

  lemma RatioAdds(a: int, b: int, z: int)
    requires z > 0
    ensures Ratio(a + b, z) == Ratio(a, z) + Ratio(b, z)
  {
  }

  lemma RatioOne(z: int)
    requires z > 0
    ensures Ratio(z, z) == 1.0
  {
  }

  /** The chances of a row sum to one. */
  lemma RowSumsToOne(c: Chain, k: nat)
    requires c.Valid() && k < |c.sector.next| && c.sector.labels > 0
    ensures Mass(c, k, States(c)) == 1.0
  {
    WeightsPositive(c.sector, c.beta, c.kernel, k, 0);
    PartialRow(c, k, c.sector.labels);
    var w := c.kernel.weight[k];
    assert w[..c.sector.labels] == w;
    RatioOne(c.kernel.partition[k]);
  }

  /** Splitting the targets splits the mass. */
  lemma MassSplits(c: Chain, k: nat, a: set<nat>, b: set<nat>)
    requires c.Valid() && k < |c.sector.next| && a !! b
    ensures Mass(c, k, a + b) == Mass(c, k, a) + Mass(c, k, b)
  {
    hide Chance;
    RSumLinear(c.sector.labels, Into(c, k, a), Into(c, k, b), Into(c, k, a + b), 1.0);
  }

  lemma AheadSplits(c: Chain, k: nat, a: set<nat>, b: set<nat>, t: nat -> real)
    requires c.Valid() && k < |c.sector.next| && a !! b
    ensures MeanAhead(c, k, a + b, t) == MeanAhead(c, k, a, t) + MeanAhead(c, k, b, t)
  {
    hide Chance, Times;
    RSumLinear(c.sector.labels, Ahead(c, k, a, t), Ahead(c, k, b, t), Ahead(c, k, a + b, t), 1.0);
  }

  /** One target contributes its mass times its value. */
  lemma AheadOfOne(c: Chain, k: nat, s: nat, t: nat -> real)
    requires c.Valid() && k < |c.sector.next|
    ensures MeanAhead(c, k, {s}, t) == Mass(c, k, {s}) * t(s)
  {
    hide Chance, Times;
    var zero := (m: nat) => 0.0;
    var f, g, x := Into(c, k, {s}), Ahead(c, k, {s}, t), t(s);
    forall m: nat | m < c.sector.labels
      ensures g(m) == zero(m) + x * f(m)
    {
      if c.sector.next[k][m] == s {
        TimesTurns(Chance(c, k, m), x);
      } else {
        TimesTurns(0.0, x);
      }
    }
    RSumLinear(c.sector.labels, zero, f, g, x);
    RSumZero(c.sector.labels, zero);
    TimesTurns(Mass(c, k, {s}), x);
  }

  lemma TimesTurns(x: real, y: real)
    ensures Times(x, y) == y * x && x * y == y * x && y * 0.0 == 0.0
  {
  }

  /** A state that is not absorbing leaves with positive probability. */
  lemma LeavesSometime(c: Chain, k: nat)
    requires c.Valid() && k < |c.sector.next| && !IsAbsorbing(c, k)
    ensures Mass(c, k, {k}) < 1.0
  {
    hide Chance;
    var m: nat :| m < c.sector.labels && c.sector.next[k][m] != k;
    RowSumsToOne(c, k);
    var others := States(c) - {k};
    assert others + {k} == States(c);
    MassSplits(c, k, others, {k});
    RSumPositive(c.sector.labels, Into(c, k, others), m);
  }

  // ----- ascending order

  ghost predicate Ascending(v: seq<int>, order: seq<nat>)
  {
    && (forall i :: 0 <= i < |order| ==> order[i] < |v|)
    && forall i, j :: 0 <= i < j < |order| ==>
         v[order[i]] < v[order[j]] || (v[order[i]] == v[order[j]] && order[i] < order[j])
  }

  /** All states by ascending `(v, k)`. */
  ghost predicate IsOrder(v: seq<int>, order: seq<nat>)
  {
    Ascending(v, order) && forall k: nat :: k in order <==> k < |v|
  }

  method InsertState(v: seq<int>, order: seq<nat>, k: nat) returns (r: seq<nat>)
    requires Ascending(v, order) && k < |v| && forall i :: 0 <= i < |order| ==> order[i] < k
    ensures Ascending(v, r) && forall i: nat :: i in r <==> i in order || i == k
  {
    var at := 0;
    while at < |order| && v[order[at]] <= v[k]
      invariant 0 <= at <= |order|
      invariant forall i :: 0 <= i < at ==> v[order[i]] <= v[k]
    {
      at := at + 1;
    }
    r := order[..at] + [k] + order[at..];
    assert order == order[..at] + order[at..];
    InsertKeeps(v, order, k, at, r);
  }

  lemma InsertKeeps(v: seq<int>, order: seq<nat>, k: nat, at: nat, r: seq<nat>)
    requires Ascending(v, order) && k < |v| && forall i :: 0 <= i < |order| ==> order[i] < k
    requires at <= |order| && r == order[..at] + [k] + order[at..]
    requires forall i :: 0 <= i < at ==> v[order[i]] <= v[k]
    requires at < |order| ==> v[order[at]] > v[k]
    ensures Ascending(v, r)
  {
    forall i | at <= i < |order|
      ensures v[order[i]] > v[k]
    {
      if at < i {
        assert v[order[at]] <= v[order[i]];
      }
    }
    forall i, j | 0 <= i < j < |r|
      ensures v[r[i]] < v[r[j]] || (v[r[i]] == v[r[j]] && r[i] < r[j])
    {
      var i' := if i < at then i else i - 1;
      var j' := if j < at then j else j - 1;
      assert i != at ==> r[i] == order[i'];
      assert j != at ==> r[j] == order[j'];
      if i != at && j != at {
        assert i' < j';
      }
    }
  }

  method SortByPotential(v: seq<int>) returns (order: seq<nat>)
    ensures IsOrder(v, order)
  {
    order := [];
    for k := 0 to |v|
      invariant Ascending(v, order) && forall i: nat :: i in order <==> i < k
    {
      assert forall i :: 0 <= i < |order| ==> order[i] in order;
      order := InsertState(v, order, k);
    }
  }

  // ----- uniqueness

  lemma {:induction false} Lowest(v: seq<int>) returns (b: int)
    ensures forall k :: 0 <= k < |v| ==> v[k] >= b
  {
    if v == [] {
      b := 0;
    } else {
      b := Lowest(v[1..]);
      forall k | 1 <= k < |v|
        ensures v[k] >= b
      {
        assert v[k] == v[1..][k - 1];
      }
      b := if b < v[0] then b else v[0];
    }
  }

  /** Two solutions agree, by induction on the potential. */
  lemma {:induction false} SolutionUnique(c: Chain, v: seq<int>, b: int, t: nat -> real, t': nat -> real, k: nat)
    requires c.Valid() && |v| == |c.sector.next| && StrictDescent(c, v) && k < |v|
    requires forall i :: 0 <= i < |v| ==> v[i] >= b
    requires Solves(c, t) && Solves(c, t')
    ensures t(k) == t'(k)
    decreases v[k] - b
  {
    hide Chance, Times, States;
    assert Equation(c, k, t) && Equation(c, k, t');
    if !IsAbsorbing(c, k) {
      var others := States(c) - {k};
      forall m: nat | m < c.sector.labels
        ensures Ahead(c, k, others, t)(m) == Ahead(c, k, others, t')(m)
      {
        if c.sector.next[k][m] != k {
          SolutionUnique(c, v, b, t, t', c.sector.next[k][m]);
        }
      }
      RSumExt(c.sector.labels, Ahead(c, k, others, t), Ahead(c, k, others, t'));
      OneValue(c, k, t, t');
    }
  }

  /** Any two solutions are equal. */
  lemma OnlySolution(c: Chain, v: seq<int>, t: nat -> real, t': nat -> real, k: nat)
    requires c.Valid() && |v| == |c.sector.next| && StrictDescent(c, v) && k < |v|
    requires Solves(c, t) && Solves(c, t')
    ensures t(k) == t'(k)
  {
    hide StrictDescent, Solves;
    var b := Lowest(v);
    SolutionUnique(c, v, b, t, t', k);
  }

  lemma OneValue(c: Chain, k: nat, t: nat -> real, t': nat -> real)
    requires c.Valid() && k < |c.sector.next| && !IsAbsorbing(c, k)
    requires t(k) == 1.0 + MeanAhead(c, k, States(c), t) && t'(k) == 1.0 + MeanAhead(c, k, States(c), t')
    requires MeanAhead(c, k, States(c) - {k}, t) == MeanAhead(c, k, States(c) - {k}, t')
    ensures t(k) == t'(k)
  {
    hide Mass, MeanAhead, States;
    Isolate(c, k, t);
    Isolate(c, k, t');
    LeavesSometime(c, k);
    SameQuotient(1.0 - Mass(c, k, {k}), 1.0 + MeanAhead(c, k, States(c) - {k}, t), t(k), t'(k));
  }

  lemma SameQuotient(d: real, n: real, x: real, y: real)
    requires d > 0.0 && x * d == n && y * d == n
    ensures x == y
  {
    assert (x - y) * d == 0.0;
  }

  lemma Earlier(v: seq<int>, order: seq<nat>, i: nat, s: nat) returns (j: nat)
    requires IsOrder(v, order) && i < |order| && s < |v| && order[i] < |v| && v[s] < v[order[i]]
    ensures j < i && order[j] == s
  {
    assert s in order;
    j :| 0 <= j < |order| && order[j] == s;
  }

  /** The equation at a state, solved for its own value. */
  lemma Isolate(c: Chain, k: nat, t: nat -> real)
    requires c.Valid() && k < |c.sector.next|
    ensures t(k) == 1.0 + MeanAhead(c, k, States(c), t) <==>
            t(k) * (1.0 - Mass(c, k, {k})) == 1.0 + MeanAhead(c, k, States(c) - {k}, t)
  {
    hide Chance, Ahead, Into;
    var others := States(c) - {k};
    assert others + {k} == States(c);
    AheadSplits(c, k, others, {k}, t);
    AheadOfOne(c, k, k, t);
    var x, p := t(k), Mass(c, k, {k});
    assert x * (1.0 - p) == x - p * x;
  }

  // ----- the programme

  /** The chances of the labels of `k`, summed by target. */
  ghost predicate Aggregates(c: Chain, k: nat, row: map<nat, real>)
    requires c.Valid() && k < |c.sector.next|
  {
    forall s: nat :: (s in row <==> Leads(c, k, s)) && (s in row ==> row[s] == Mass(c, k, {s}))
  }

  ghost predicate Leads(c: Chain, k: nat, s: nat)
    requires c.Valid() && k < |c.sector.next|
  {
    exists m: nat :: m < c.sector.labels && c.sector.next[k][m] == s
  }

  ghost predicate LeadsBy(c: Chain, k: nat, s: nat, n: nat)
    requires c.Valid() && k < |c.sector.next|
  {
    exists m: nat :: m < n && m < c.sector.labels && c.sector.next[k][m] == s
  }

  lemma MassNext(c: Chain, k: nat, s: nat, n: nat)
    requires c.Valid() && k < |c.sector.next| && n < c.sector.labels
    ensures RSum(n + 1, Into(c, k, {s})) ==
      RSum(n, Into(c, k, {s})) + if c.sector.next[k][n] == s then Chance(c, k, n) else 0.0
    ensures LeadsBy(c, k, s, n + 1) <==> LeadsBy(c, k, s, n) || c.sector.next[k][n] == s
    ensures !LeadsBy(c, k, s, n) ==> RSum(n, Into(c, k, {s})) == 0.0
  {
    hide Chance;
    if !LeadsBy(c, k, s, n) {
      RSumZero(n, Into(c, k, {s}));
    }
  }

  method AggregateRow(c: Chain, k: nat) returns (row: map<nat, real>)
    requires c.Valid() && k < |c.sector.next|
    ensures Aggregates(c, k, row)
  {
    row := map[];
    for m := 0 to c.sector.labels
      invariant forall s: nat ::
        (s in row <==> LeadsBy(c, k, s, m)) && (s in row ==> row[s] == RSum(m, Into(c, k, {s})))
    {
      hide Chance;
      var t := c.sector.next[k][m];
      WeightsPositive(c.sector, c.beta, c.kernel, k, m);
      var p := Ratio(c.kernel.weight[k][m], c.kernel.partition[k]);
      ChanceIs(c, k, m);
      forall s: nat
        ensures RSum(m + 1, Into(c, k, {s})) == RSum(m, Into(c, k, {s})) + if t == s then p else 0.0
        ensures LeadsBy(c, k, s, m + 1) <==> LeadsBy(c, k, s, m) || t == s
        ensures !LeadsBy(c, k, s, m) ==> RSum(m, Into(c, k, {s})) == 0.0
      {
        MassNext(c, k, s, m);
      }
      row := row[t := (if t in row then row[t] else 0.0) + p];
    }
    assert forall s: nat :: LeadsBy(c, k, s, c.sector.labels) <==> Leads(c, k, s);
  }

  lemma ChanceIs(c: Chain, k: nat, m: nat)
    requires c.Valid() && c.At(k, m) && |c.kernel.weight[k]| == c.sector.labels && c.kernel.partition[k] > 0
    ensures Chance(c, k, m) == Ratio(c.kernel.weight[k][m], c.kernel.partition[k])
  {
  }

  method CheckDescent(c: Chain, v: seq<int>) returns (r: bool)
    requires c.Valid() && |v| == |c.sector.next|
    ensures r <==> StrictDescent(c, v)
  {
    r := true;
    for k := 0 to |v|
      invariant r <==> forall i: nat, m: nat :: i < k && m < c.sector.labels && c.sector.next[i][m] != i ==>
        v[c.sector.next[i][m]] < v[i]
    {
      for m := 0 to c.sector.labels
        invariant r <==> forall i: nat, l: nat ::
          (i < k || (i == k && l < m)) && l < c.sector.labels && c.sector.next[i][l] != i ==>
          v[c.sector.next[i][l]] < v[i]
      {
        if c.sector.next[k][m] != k && v[c.sector.next[k][m]] >= v[k] {
          r := false;
        }
      }
    }
  }

  /** The listed times, zero beyond the list. */
  function Listed(times: seq<real>): nat -> real
  {
    (k: nat) => if k < |times| then times[k] else 0.0
  }

  function Known(times: seq<Option<real>>): nat -> real
  {
    (k: nat) => if k < |times| && times[k].Some? then times[k].value else 0.0
  }

  /** Everything `k` leads to, other than itself, is known. */
  ghost predicate Ready(c: Chain, k: nat, times: seq<Option<real>>)
    requires c.Valid() && k < |c.sector.next| && |times| == |c.sector.next|
  {
    forall m: nat :: m < c.sector.labels && c.sector.next[k][m] != k ==> times[c.sector.next[k][m]].Some?
  }

  lemma AheadOfKeys(c: Chain, k: nat, row: map<nat, real>, t: nat -> real)
    requires c.Valid() && k < |c.sector.next| && Aggregates(c, k, row)
    ensures MeanAhead(c, k, row.Keys - {k}, t) == MeanAhead(c, k, States(c) - {k}, t)
  {
    hide Chance, Times;
    forall m: nat | m < c.sector.labels
      ensures Ahead(c, k, row.Keys - {k}, t)(m) == Ahead(c, k, States(c) - {k}, t)(m)
    {
      assert Leads(c, k, c.sector.next[k][m]);
    }
    RSumExt(c.sector.labels, Ahead(c, k, row.Keys - {k}, t), Ahead(c, k, States(c) - {k}, t));
  }

  lemma AheadOfNone(c: Chain, k: nat, t: nat -> real)
    requires c.Valid() && k < |c.sector.next|
    ensures MeanAhead(c, k, {}, t) == 0.0
  {
    RSumZero(c.sector.labels, Ahead(c, k, {}, t));
  }

  lemma KeysKnown(c: Chain, k: nat, row: map<nat, real>, times: seq<Option<real>>, s: nat)
    requires c.Valid() && k < |c.sector.next| && |times| == |c.sector.next| && Aggregates(c, k, row)
    requires Ready(c, k, times)
    requires s in row && s != k
    ensures s < |times| && times[s].Some?
  {
    assert Leads(c, k, s);
  }

  /** One plus the mean time ahead, over the targets other than `k`. */
  method Accumulate(c: Chain, k: nat, row: map<nat, real>, times: seq<Option<real>>) returns (acc: real)
    requires c.Valid() && k < |c.sector.next| && |times| == |c.sector.next|
    requires Aggregates(c, k, row) && Ready(c, k, times)
    ensures acc == 1.0 + MeanAhead(c, k, States(c) - {k}, Known(times))
  {
    hide MeanAhead, Mass, Ready, States, Chain.Valid;
    acc := 1.0;
    var rest := row.Keys;
    ghost var t, done := Known(times), {};
    assert done - {k} == {};
    AheadOfNone(c, k, t);
    while rest != {}
      invariant rest + done == row.Keys && rest !! done
      invariant acc == 1.0 + MeanAhead(c, k, done - {k}, t)
      decreases rest
    {
      var s :| s in rest;
      if s != k {
        KeysKnown(c, k, row, times, s);
        acc := acc + row[s] * times[s].value;
        AheadSplits(c, k, done - {k}, {s}, t);
        AheadOfOne(c, k, s, t);
        assert done + {s} - {k} == done - {k} + {s};
      } else {
        assert done + {s} - {k} == done - {k};
      }
      rest, done := rest - {s}, done + {s};
    }
    assert done == row.Keys;
    AheadOfKeys(c, k, row, t);
  }

  /** A later time does not disturb an equation whose targets are known. */
  lemma EquationStays(c: Chain, v: seq<int>, times: seq<Option<real>>, k: nat, i: nat, x: real)
    requires c.Valid() && |v| == |c.sector.next| == |times| && k < |v| && i < |v| && i != k
    requires times[k].None? && times[i].Some? && Ready(c, i, times) && Equation(c, i, Known(times))
    ensures Ready(c, i, times[k := Some(x)]) && Equation(c, i, Known(times[k := Some(x)]))
  {
    hide Chance, Times;
    var t, t' := Known(times), Known(times[k := Some(x)]);
    forall m: nat | m < c.sector.labels
      ensures Ahead(c, i, States(c), t)(m) == Ahead(c, i, States(c), t')(m)
    {
      assert c.sector.next[i][m] != k;
    }
    RSumExt(c.sector.labels, Ahead(c, i, States(c), t), Ahead(c, i, States(c), t'));
  }

  /** Setting `k` leaves what lies ahead of it, other than itself, as it was. */
  lemma OthersStay(c: Chain, times: seq<Option<real>>, k: nat, x: real)
    requires c.Valid() && |times| == |c.sector.next| && k < |times|
    ensures MeanAhead(c, k, States(c) - {k}, Known(times[k := Some(x)])) ==
      MeanAhead(c, k, States(c) - {k}, Known(times))
  {
    hide Chance, Times;
    var others, t, t' := States(c) - {k}, Known(times), Known(times[k := Some(x)]);
    forall m: nat | m < c.sector.labels
      ensures Ahead(c, k, others, t)(m) == Ahead(c, k, others, t')(m)
    {
    }
    RSumExt(c.sector.labels, Ahead(c, k, others, t), Ahead(c, k, others, t'));
  }

  lemma QuotientSolves(c: Chain, times: seq<Option<real>>, k: nat, acc: real, x: real)
    requires c.Valid() && |times| == |c.sector.next| && k < |times| && !IsAbsorbing(c, k)
    requires acc == 1.0 + MeanAhead(c, k, States(c) - {k}, Known(times))
    requires x * (1.0 - Mass(c, k, {k})) == acc
    ensures Equation(c, k, Known(times[k := Some(x)]))
  {
    hide MeanAhead, Mass, States;
    OthersStay(c, times, k, x);
    Isolate(c, k, Known(times[k := Some(x)]));
  }

  method CheckAbsorbing(c: Chain, k: nat) returns (r: bool)
    requires c.Valid() && k < |c.sector.next|
    ensures r <==> IsAbsorbing(c, k)
  {
    r := true;
    for m := 0 to c.sector.labels
      invariant r <==> forall i: nat :: i < m ==> c.sector.next[k][i] == k
    {
      if c.sector.next[k][m] != k {
        r := false;
      }
    }
  }

  lemma StayIsMass(c: Chain, k: nat, row: map<nat, real>)
    requires c.Valid() && k < |c.sector.next| && Aggregates(c, k, row)
    ensures (if k in row then row[k] else 0.0) == Mass(c, k, {k})
  {
    hide Chance;
    if k !in row {
      assert !Leads(c, k, k);
      RSumZero(c.sector.labels, Into(c, k, {k}));
    }
  }

  /** The time of one state whose targets are known. */
  method SolveState(c: Chain, k: nat, times: seq<Option<real>>) returns (x: real)
    requires c.Valid() && k < |c.sector.next| && |times| == |c.sector.next| && Ready(c, k, times)
    ensures Equation(c, k, Known(times[k := Some(x)]))
  {
    hide MeanAhead, Mass, Ready, States, Aggregates, Chain.Valid;
    var absorbing := CheckAbsorbing(c, k);
    if absorbing {
      return 0.0;
    }
    var row := AggregateRow(c, k);
    var stay := if k in row then row[k] else 0.0;
    StayIsMass(c, k, row);
    LeavesSometime(c, k);
    var acc := Accumulate(c, k, row, times);
    x := acc / (1.0 - stay);
    QuotientSolves(c, times, k, acc, x);
  }

  /** The first `i` states of the order are solved, and no other. */
  ghost predicate SolvedUpto(c: Chain, order: seq<nat>, i: nat, times: seq<Option<real>>)
    requires c.Valid() && i <= |order|
  {
    && |times| == |c.sector.next|
    && (forall k: nat :: k < |times| ==> (times[k].Some? <==> k in order[..i]))
    && forall k: nat :: k < |times| && times[k].Some? ==> Ready(c, k, times) && Equation(c, k, Known(times))
  }

  lemma TargetsFirst(c: Chain, v: seq<int>, order: seq<nat>, i: nat, times: seq<Option<real>>)
    requires c.Valid() && |v| == |c.sector.next| && StrictDescent(c, v) && IsOrder(v, order) && i < |order|
    requires SolvedUpto(c, order, i, times)
    ensures |times| == |v| && order[i] < |times| && times[order[i]].None? && Ready(c, order[i], times)
  {
    hide Equation, Known;
    assert order[i] in order;
    var k := order[i];
    assert k !in order[..i];
    forall m: nat | m < c.sector.labels && c.sector.next[k][m] != k
      ensures times[c.sector.next[k][m]].Some?
    {
      var j := Earlier(v, order, i, c.sector.next[k][m]);
      assert order[..i][j] == c.sector.next[k][m];
    }
  }

  lemma SolvedNext(c: Chain, v: seq<int>, order: seq<nat>, i: nat, times: seq<Option<real>>, x: real)
    requires c.Valid() && |v| == |c.sector.next| && i < |order| && SolvedUpto(c, order, i, times)
    requires order[i] < |times| && times[order[i]].None? && Ready(c, order[i], times)
    requires Equation(c, order[i], Known(times[order[i] := Some(x)]))
    ensures SolvedUpto(c, order, i + 1, times[order[i] := Some(x)])
  {
    hide Equation, Known;
    var k, times' := order[i], times[order[i] := Some(x)];
    assert order[..i + 1] == order[..i] + [k];
    forall s: nat | s < |times'| && times'[s].Some?
      ensures Ready(c, s, times') && Equation(c, s, Known(times'))
    {
      if s != k {
        EquationStays(c, v, times, k, s, x);
      }
    }
  }

  /** Expected moves to absorption: refused without strict descent, else the solution of the equations. */
  method ExpectedMoves(c: Chain, v: seq<int>) returns (r: Option<seq<real>>)
    requires c.Valid() && |v| == |c.sector.next|
    ensures r.Some? <==> StrictDescent(c, v)
    ensures r.Some? ==> |r.value| == |v| && Solves(c, Listed(r.value))
    ensures r.Some? ==> forall t: nat -> real :: Solves(c, t) ==> Agrees(t, r.value)
  {
    hide SolvedUpto, Equation, IsOrder, Ready, StrictDescent, Solves, Agrees;
    var descends := CheckDescent(c, v);
    if !descends {
      return None;
    }
    var order := SortByPotential(v);
    var times: seq<Option<real>> := seq(|v|, _ => None);
    NothingSolved(c, order, times);
    for i := 0 to |order|
      invariant SolvedUpto(c, order, i, times)
    {
      TargetsFirst(c, v, order, i, times);
      var x := SolveState(c, order[i], times);
      SolvedNext(c, v, order, i, times, x);
      times := times[order[i] := Some(x)];
    }
    AllSolved(c, v, order, times);
    var result := seq(|v|, k requires 0 <= k < |v| && times[k].Some? => times[k].value);
    r := Some(result);
    SolvesAsSequence(c, times, result, Listed(result));
    OnlyListed(c, v, result);
  }

  ghost predicate Agrees(t: nat -> real, times: seq<real>)
  {
    forall k: nat :: k < |times| ==> t(k) == times[k]
  }

  /** Every solution is the listed one. */
  lemma OnlyListed(c: Chain, v: seq<int>, times: seq<real>)
    requires c.Valid() && |v| == |c.sector.next| == |times| && StrictDescent(c, v) && Solves(c, Listed(times))
    ensures forall t: nat -> real :: Solves(c, t) ==> Agrees(t, times)
  {
    hide StrictDescent, Solves;
    forall t: nat -> real | Solves(c, t)
      ensures Agrees(t, times)
    {
      forall k: nat | k < |v|
        ensures t(k) == times[k]
      {
        OnlySolution(c, v, t, Listed(times), k);
        assert Listed(times)(k) == times[k];
      }
    }
  }

  lemma NothingSolved(c: Chain, order: seq<nat>, times: seq<Option<real>>)
    requires c.Valid() && |times| == |c.sector.next| && forall k :: 0 <= k < |times| ==> times[k].None?
    ensures SolvedUpto(c, order, 0, times)
  {
    assert order[..0] == [];
  }

  lemma AllSolved(c: Chain, v: seq<int>, order: seq<nat>, times: seq<Option<real>>)
    requires c.Valid() && |v| == |c.sector.next| && IsOrder(v, order) && SolvedUpto(c, order, |order|, times)
    ensures |times| == |v| && forall k: nat :: k < |times| ==> times[k].Some? && Equation(c, k, Known(times))
  {
    hide Equation;
    assert order[..|order|] == order;
  }

  lemma SolvesAsSequence(c: Chain, times: seq<Option<real>>, result: seq<real>, t: nat -> real)
    requires c.Valid() && |times| == |result| == |c.sector.next|
    requires forall k: nat :: k < |times| ==>
      times[k].Some? && result[k] == times[k].value && Equation(c, k, Known(times))
    requires forall k: nat :: k < |times| ==> t(k) == result[k]
    ensures Solves(c, t)
  {
    hide Chance, Times;
    forall k: nat | k < |times|
      ensures Equation(c, k, t)
    {
      assert Equation(c, k, Known(times));
      RSumExt(c.sector.labels, Ahead(c, k, States(c), Known(times)), Ahead(c, k, States(c), t));
    }
  }
}
