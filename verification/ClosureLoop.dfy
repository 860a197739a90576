/** Descent on the log, instantiation, and the closed loop: source to log to recovery to source. */
module ClosureLoop {
  import opened Basics
  import opened ClosureSource
  import opened ClosureRecovery
  import opened UnionFind
  import Probe
  import Prediction

  // ----- replay

  predicate Inside(table: seq<Row>, ports: nat)
  {
    forall r :: r in table ==> r.a < ports && r.b < ports && r.a != r.b
  }

  /** The readings after the first `k` events, as the log states them. */
  ghost function ReplayAt(initial: seq<real>, table: seq<Row>, k: nat): (x: seq<real>)
    requires Inside(table, |initial|) && k <= |table|
    ensures |x| == |initial|
  {
    if k == 0 then initial else
      var r := table[k - 1];
      ReplayAt(initial, table, k - 1)[r.a := r.ai][r.b := r.aj]
  }

  ghost predicate AgreesAt(initial: seq<real>, table: seq<Row>, k: nat)
    requires Inside(table, |initial|) && k < |table|
  {
    var x := ReplayAt(initial, table, k);
    x[table[k].a] == table[k].bi && x[table[k].b] == table[k].bj
  }

  // ----- the centred squared norm

  predicate Ports(comp: seq<nat>, n: nat)
  {
    forall i :: 0 <= i < |comp| ==> comp[i] < n
  }

  function SumOf(initial: seq<real>, comp: seq<nat>): real
    requires Ports(comp, |initial|)
  {
    if comp == [] then 0.0 else SumOf(initial, comp[..|comp| - 1]) + initial[comp[|comp| - 1]]
  }

  function SquaresOf(initial: seq<real>, comp: seq<nat>): real
    requires Ports(comp, |initial|)
  {
    if comp == [] then 0.0 else
      SquaresOf(initial, comp[..|comp| - 1]) + initial[comp[|comp| - 1]] * initial[comp[|comp| - 1]]
  }

  function TotalChange(r: Row): real { r.ai - r.bi + (r.aj - r.bj) }

  function SquaresChange(r: Row): real { r.ai * r.ai - r.bi * r.bi + (r.aj * r.aj - r.bj * r.bj) }

  /** Total and sum of squares, tracked event by event. */
  ghost function Tracked(total: real, squares: real, table: seq<Row>, k: nat): (real, real)
    requires k <= |table|
  {
    if k == 0 then (total, squares) else
      var t := Tracked(total, squares, table, k - 1);
      (t.0 + TotalChange(table[k - 1]), t.1 + SquaresChange(table[k - 1]))
  }

  function Centred(total: real, squares: real, m: nat): real
    requires m > 0
  {
    squares - total * total / m as real
  }

  /** Event `k` changes the pair of readings without lowering the potential. */
  ghost predicate Violates(total: real, squares: real, table: seq<Row>, m: nat, k: nat)
    requires k < |table| && m > 0
  {
    var r, t, t' := table[k], Tracked(total, squares, table, k), Tracked(total, squares, table, k + 1);
    !SamePair(r.bi, r.bj, r.ai, r.aj) && !(Centred(t'.0, t'.1, m) < Centred(t.0, t.1, m))
  }

  ghost function Violations(total: real, squares: real, table: seq<Row>, m: nat, k: nat): nat
    requires k <= |table| && m > 0
  {
    if k == 0 then 0 else
      Violations(total, squares, table, m, k - 1) + if Violates(total, squares, table, m, k - 1) then 1 else 0
  }

  // ----- the tracked potential is the deviation from the mean

  /** The squared deviations from `mean`. */
  ghost function Deviations(x: seq<real>, comp: seq<nat>, mean: real): real
    requires Ports(comp, |x|)
  {
    if comp == [] then 0.0 else
      var d := x[comp[|comp| - 1]] - mean;
      Deviations(x, comp[..|comp| - 1], mean) + d * d
  }

  /** The squared deviations of the readings from their own mean. */
  ghost function Spread(x: seq<real>, comp: seq<nat>): real
    requires comp != [] && Ports(comp, |x|)
  {
    Deviations(x, comp, SumOf(x, comp) / |comp| as real)
  }

  lemma SumsStep(x: seq<real>, comp: seq<nat>)
    requires comp != [] && Ports(comp, |x|)
    ensures SumOf(x, comp) == SumOf(x, comp[..|comp| - 1]) + x[comp[|comp| - 1]]
    ensures SquaresOf(x, comp) == SquaresOf(x, comp[..|comp| - 1]) + x[comp[|comp| - 1]] * x[comp[|comp| - 1]]
  {
  }

  lemma NoSums(x: seq<real>)
    ensures SumOf(x, []) == 0.0 == SquaresOf(x, [])
  {
  }

  lemma {:induction false} DeviationsExpand(x: seq<real>, comp: seq<nat>, mean: real)
    requires Ports(comp, |x|)
    ensures Deviations(x, comp, mean) ==
            SquaresOf(x, comp) - 2.0 * (mean * SumOf(x, comp)) + |comp| as real * (mean * mean)
  {
    hide SumOf, SquaresOf;
    if comp == [] {
      NoSums(x);
      NoDeviations(mean);
    } else {
      var last := |comp| - 1;
      var v, most := x[comp[last]], comp[..last];
      DeviationsExpand(x, most, mean);
      SumsStep(x, comp);
      DeviationStep(v, mean, SumOf(x, most), SquaresOf(x, most), Deviations(x, most, mean), last);
    }
  }

  lemma NoDeviations(mean: real)
    ensures 0.0 - 2.0 * (mean * 0.0) + 0 as real * (mean * mean) == 0.0
  {
  }

  lemma DeviationStep(v: real, mean: real, sum: real, squares: real, deviations: real, n: nat)
    requires deviations == squares - 2.0 * (mean * sum) + n as real * (mean * mean)
    ensures deviations + (v - mean) * (v - mean) ==
            squares + v * v - 2.0 * (mean * (sum + v)) + (n + 1) as real * (mean * mean)
  {
    var mm, mv, ms := mean * mean, mean * v, mean * sum;
    assert (v - mean) * (v - mean) == v * v - 2.0 * mv + mm;
    assert mean * (sum + v) == ms + mv;
    assert (n + 1) as real * mm == n as real * mm + mm;
  }

  lemma CentredIsSpread(x: seq<real>, comp: seq<nat>)
    requires comp != [] && Ports(comp, |x|)
    ensures Centred(SumOf(x, comp), SquaresOf(x, comp), |comp|) == Spread(x, comp)
  {
    hide Deviations, SumOf, SquaresOf;
    var m, t := |comp| as real, SumOf(x, comp);
    var mean := t / m;
    DeviationsExpand(x, comp, mean);
    MeanTimes(t, m, mean);
    assert Spread(x, comp) == Deviations(x, comp, mean);
  }

  lemma MeanTimes(t: real, m: real, mean: real)
    requires m > 0.0 && mean == t / m
    ensures m * (mean * mean) == mean * t && mean * t == t * t / m
  {
    assert mean * m == t;
    assert m * (mean * mean) == (mean * m) * mean;
    var u, w := mean * t, t * t;
    assert u * m == (mean * m) * t == w;
    assert u == w / m;
  }

  lemma {:induction false} WriteElsewhere(x: seq<real>, comp: seq<nat>, p: nat, v: real)
    requires Ports(comp, |x|) && p < |x| && p !in comp
    ensures SumOf(x[p := v], comp) == SumOf(x, comp) && SquaresOf(x[p := v], comp) == SquaresOf(x, comp)
  {
    hide SumOf, SquaresOf;
    if comp == [] {
      NoSums(x);
      NoSums(x[p := v]);
    } else {
      var last := |comp| - 1;
      assert comp[last] in comp;
      WriteElsewhere(x, comp[..last], p, v);
      SumsStep(x, comp);
      SumsStep(x[p := v], comp);
    }
  }

  /** Writing one reading changes total and squares by the difference. */
  lemma {:induction false} WriteReading(x: seq<real>, comp: seq<nat>, p: nat, v: real)
    requires Ports(comp, |x|) && Probe.Distinct(comp) && p in comp
    ensures SumOf(x[p := v], comp) == SumOf(x, comp) + (v - x[p])
    ensures SquaresOf(x[p := v], comp) == SquaresOf(x, comp) + (v * v - x[p] * x[p])
  {
    hide SumOf, SquaresOf;
    SumsStep(x, comp);
    SumsStep(x[p := v], comp);
    var last := |comp| - 1;
    assert comp == comp[..last] + [comp[last]];
    if comp[last] == p {
      WriteElsewhere(x, comp[..last], p, v);
    } else {
      WriteReading(x, comp[..last], p, v);
    }
  }

  lemma WriteRow(x: seq<real>, comp: seq<nat>, r: Row)
    requires Ports(comp, |x|) && Probe.Distinct(comp) && r.a in comp && r.b in comp && r.a != r.b
    requires r.a < |x| && r.b < |x| && x[r.a] == r.bi && x[r.b] == r.bj
    ensures SumOf(x[r.a := r.ai][r.b := r.aj], comp) == SumOf(x, comp) + TotalChange(r)
    ensures SquaresOf(x[r.a := r.ai][r.b := r.aj], comp) == SquaresOf(x, comp) + SquaresChange(r)
  {
    hide SumOf, SquaresOf, Probe.Distinct;
    WriteReading(x, comp, r.a, r.ai);
    WriteReading(x[r.a := r.ai], comp, r.b, r.aj);
  }

  ghost predicate Agreed(initial: seq<real>, table: seq<Row>, k: nat)
    requires Inside(table, |initial|) && k <= |table|
  {
    forall i :: 0 <= i < k ==> AgreesAt(initial, table, i)
  }

  /** While the log is consistent, what is tracked are the sums over the replayed readings. */
  lemma {:induction false} TrackedIsReplayed(initial: seq<real>, comp: seq<nat>, table: seq<Row>, k: nat)
    requires Ports(comp, |initial|) && Probe.Distinct(comp) && Inside(table, |initial|) && k <= |table|
    requires (forall r :: r in table ==> r.a in comp && r.b in comp) && Agreed(initial, table, k)
    ensures Tracked(SumOf(initial, comp), SquaresOf(initial, comp), table, k) ==
            (SumOf(ReplayAt(initial, table, k), comp), SquaresOf(ReplayAt(initial, table, k), comp))
  {
    hide SumOf, SquaresOf, Probe.Distinct, TotalChange, SquaresChange;
    if k > 0 {
      TrackedIsReplayed(initial, comp, table, k - 1);
      var x, r := ReplayAt(initial, table, k - 1), table[k - 1];
      assert r in table && AgreesAt(initial, table, k - 1);
      WriteRow(x, comp, r);
    }
  }

  /** In a consistent log an event is a violation exactly when it changes the pair of readings
      and the squared deviations from the mean do not fall. */
  lemma ViolationIsSpread(initial: seq<real>, comp: seq<nat>, table: seq<Row>, k: nat)
    requires comp != [] && Ports(comp, |initial|) && Probe.Distinct(comp) && Inside(table, |initial|) && k < |table|
    requires (forall r :: r in table ==> r.a in comp && r.b in comp) && Agreed(initial, table, k + 1)
    ensures Violates(SumOf(initial, comp), SquaresOf(initial, comp), table, |comp|, k) <==>
      && !SamePair(table[k].bi, table[k].bj, table[k].ai, table[k].aj)
      && !(Spread(ReplayAt(initial, table, k + 1), comp) < Spread(ReplayAt(initial, table, k), comp))
  {
    hide Centred, SumOf, SquaresOf, Spread, Tracked, ReplayAt, SamePair, AgreesAt, Probe.Distinct;
    TrackedIsReplayed(initial, comp, table, k);
    TrackedIsReplayed(initial, comp, table, k + 1);
    CentredIsSpread(ReplayAt(initial, table, k), comp);
    CentredIsSpread(ReplayAt(initial, table, k + 1), comp);
  }

  datatype Descent = Descent(violations: nat, stutters: nat, swaps: nat, consistent: bool)

  predicate Stutter(r: Row) { r.bi == r.ai && r.bj == r.aj }

  predicate Swap(r: Row) { !Stutter(r) && SamePair(r.bi, r.bj, r.ai, r.aj) }

  /** Replay of the log, with the violations of strict descent. */
  method RecoverDescent(comp: seq<nat>, table: seq<Row>, initial: seq<real>, final: seq<real>) returns (d: Descent)
    requires comp != [] && Ports(comp, |initial|) && |final| == |initial| && Inside(table, |initial|)
    requires forall r :: r in table ==> r.a in comp && r.b in comp
    ensures d.violations == Violations(SumOf(initial, comp), SquaresOf(initial, comp), table, |comp|, |table|)
    ensures d.stutters == CountRows(table, Stutter) && d.swaps == CountRows(table, Swap)
    ensures d.consistent <==>
      && (forall k :: 0 <= k < |table| ==> AgreesAt(initial, table, k))
      && forall i :: 0 <= i < |comp| ==> ReplayAt(initial, table, |table|)[comp[i]] == final[comp[i]]
  {
    hide Centred, TotalChange, SquaresChange;
    var state, m := initial, |comp|;
    var total, squares := SumOf(initial, comp), SquaresOf(initial, comp);
    ghost var total0, squares0 := total, squares;
    var violations, stutters, swaps, consistent := 0, 0, 0, true;
    for k := 0 to |table|
      invariant state == ReplayAt(initial, table, k)
      invariant (total, squares) == Tracked(total0, squares0, table, k)
      invariant violations == Violations(total0, squares0, table, m, k)
      invariant stutters == CountRows(table[..k], Stutter) && swaps == CountRows(table[..k], Swap)
      invariant consistent <==> forall i :: 0 <= i < k ==> AgreesAt(initial, table, i)
    {
      var r := table[k];
      assert r in table;
      assert table[..k + 1][..k] == table[..k];
      assert AgreesAt(initial, table, k) <==> state[r.a] == r.bi && state[r.b] == r.bj;
      if state[r.a] != r.bi || state[r.b] != r.bj {
        consistent := false;
      }
      var before := Centred(total, squares, m);
      state := state[r.a := r.ai][r.b := r.aj];
      total, squares := total + TotalChange(r), squares + SquaresChange(r);
      var after := Centred(total, squares, m);
      if r.bi == r.ai && r.bj == r.aj {
        stutters := stutters + 1;
      } else if r.bi == r.aj && r.bj == r.ai {
        swaps := swaps + 1;
      }
      if !SamePair(r.bi, r.bj, r.ai, r.aj) && !(after < before) { violations := violations + 1; }
    }
    assert table[..|table|] == table;
    var same := CompareOn(comp, state, final);
    d := Descent(violations, stutters, swaps, consistent && same);
  }

  method CompareOn(comp: seq<nat>, x: seq<real>, y: seq<real>) returns (same: bool)
    requires |x| == |y| && Ports(comp, |x|)
    ensures same <==> forall i :: 0 <= i < |comp| ==> x[comp[i]] == y[comp[i]]
  {
    same := true;
    for i := 0 to |comp|
      invariant same <==> forall j :: 0 <= j < i ==> x[comp[j]] == y[comp[j]]
    {
      if x[comp[i]] != y[comp[i]] {
        same := false;
      }
    }
  }

  lemma ConservativeRow(rule: Rule, r: Row)
    requires (rule == SeamMean || rule == NearestAgreement) && RowByRule(rule, r)
    ensures TotalChange(r) == 0.0
    ensures SamePair(r.bi, r.bj, r.ai, r.aj) || SquaresChange(r) < 0.0
  {
    hide ApplyRule, SamePair;
    var direction: nat :| (r.ai, r.aj) == ApplyRule(rule, r.bi, r.bj, direction);
    RuleConserves(rule, r.bi, r.bj, direction);
    RuleDescends(rule, r.bi, r.bj, direction);
  }

  /** The conservative rules never violate strict descent. */
  lemma {:induction false} NoViolations(rule: Rule, table: seq<Row>, total: real, squares: real, m: nat, k: nat)
    requires (rule == SeamMean || rule == NearestAgreement) && TableByRule(rule, table) && k <= |table| && m > 0
    ensures Violations(total, squares, table, m, k) == 0
  {
    hide TotalChange, SquaresChange, RowByRule;
    if k > 0 {
      NoViolations(rule, table, total, squares, m, k - 1);
      assert table[k - 1] in table;
      ConservativeRow(rule, table[k - 1]);
    }
  }

  // ----- the table of a source log

  ghost function SourceRow(spec: Spec, initial: seq<real>, labels: seq<nat>, k: nat): Row
    requires ValidSpec(spec) && |initial| == spec.ports && Labels(spec, labels) && k < |labels|
  {
    var x, s := StateAt(spec, initial, labels, k), spec.seams[labels[k] / 2];
    assert s in spec.seams;
    var after := ApplyRule(spec.rule, x[s.0], x[s.1], labels[k] % 2);
    Row(s.0, s.1, x[s.0], after.0, x[s.1], after.1)
  }

  lemma SourceRowRead(spec: Spec, initial: seq<real>, labels: seq<nat>, log: Log, k: nat)
    requires ValidSpec(spec) && |initial| == spec.ports && Labels(spec, labels) && IsLog(spec, initial, labels, log)
    requires k < |labels|
    ensures RowOf(log, k, SourceRow(spec, initial, labels, k))
  {
    hide ApplyRule, Unrepeated;
    assert IsEvent(spec, initial, labels, k, log.events[k]);
    assert spec.seams[labels[k] / 2] in spec.seams;
  }

  ghost predicate SourceTable(spec: Spec, initial: seq<real>, labels: seq<nat>, table: seq<Row>)
    requires ValidSpec(spec) && |initial| == spec.ports && Labels(spec, labels)
  {
    |table| == |labels| && forall k :: 0 <= k < |labels| ==> table[k] == SourceRow(spec, initial, labels, k)
  }

  method ReadSource(spec: Spec, initial: seq<real>, labels: seq<nat>, steps: seq<nat>, digits: nat,
                    guess: Probe.Guess, poly: Probe.Polynomials) returns (log: Log, table: seq<Row>)
    requires ValidSpec(spec) && |initial| == spec.ports && Labels(spec, labels)
    requires digits > 0 && Probe.AllSuit(poly, spec.ports, spec.seams)
    ensures IsLog(spec, initial, labels, log) && log.probe.steps == steps && log.probe.digits == digits
    ensures SourceTable(spec, initial, labels, table)
  {
    hide SourceRow, RowOf, IsLog, Unrepeated, Probe.AllSuit;
    log := RunSource(spec, initial, labels, steps, digits, guess, poly);
    LogSize(spec, initial, labels, log);
    forall k | 0 <= k < |labels|
      ensures Readable(log, k) && RowOf(log, k, SourceRow(spec, initial, labels, k))
    {
      SourceRowRead(spec, initial, labels, log, k);
    }
    var r := EventsTable(log);
    table := r.value;
    forall k | 0 <= k < |labels|
      ensures table[k] == SourceRow(spec, initial, labels, k)
    {
      RowUnique(log, k, table[k], SourceRow(spec, initial, labels, k));
    }
  }

  lemma LogSize(spec: Spec, initial: seq<real>, labels: seq<nat>, log: Log)
    requires ValidSpec(spec) && |initial| == spec.ports && Labels(spec, labels) && IsLog(spec, initial, labels, log)
    ensures |log.events| == |labels|
  {
  }

  lemma SourceTableByRule(spec: Spec, initial: seq<real>, labels: seq<nat>, table: seq<Row>)
    requires ValidSpec(spec) && |initial| == spec.ports && Labels(spec, labels)
    requires SourceTable(spec, initial, labels, table)
    requires spec.rule == NearestAgreement ==> Integers(initial)
    ensures TableByRule(spec.rule, table) && Inside(table, spec.ports)
  {
    hide ApplyRule, Integers, IsInt, Unrepeated;
    forall r | r in table
      ensures RowByRule(spec.rule, r) && r.a < spec.ports && r.b < spec.ports && r.a != r.b
    {
      var k :| 0 <= k < |table| && table[k] == r;
      assert r == SourceRow(spec, initial, labels, k);
      assert spec.seams[labels[k] / 2] in spec.seams;
      if spec.rule == NearestAgreement {
        StaysInteger(spec, initial, labels, k);
        IntegerAt(StateAt(spec, initial, labels, k), r.a);
        IntegerAt(StateAt(spec, initial, labels, k), r.b);
      }
    }
  }

  lemma IntegerAt(x: seq<real>, p: nat)
    requires Integers(x) && p < |x|
    ensures IsInt(x[p])
  {
  }

  lemma ReplayStep(spec: Spec, initial: seq<real>, labels: seq<nat>, table: seq<Row>, k: nat)
    requires ValidSpec(spec) && |initial| == spec.ports && Labels(spec, labels) && k < |labels|
    requires SourceTable(spec, initial, labels, table) && Inside(table, |initial|)
    requires ReplayAt(initial, table, k) == StateAt(spec, initial, labels, k)
    ensures AgreesAt(initial, table, k)
    ensures ReplayAt(initial, table, k + 1) == StateAt(spec, initial, labels, k + 1)
  {
    hide ApplyRule, Unrepeated;
    assert table[k] == SourceRow(spec, initial, labels, k);
  }

  /** Replaying the log retraces the run. */
  lemma {:induction false} ReplayIsRun(spec: Spec, initial: seq<real>, labels: seq<nat>, table: seq<Row>, k: nat)
    requires ValidSpec(spec) && |initial| == spec.ports && Labels(spec, labels) && k <= |labels|
    requires SourceTable(spec, initial, labels, table) && Inside(table, |initial|)
    ensures ReplayAt(initial, table, k) == StateAt(spec, initial, labels, k)
    ensures k < |labels| ==> AgreesAt(initial, table, k)
  {
    hide Unrepeated, SourceTable, Inside, AgreesAt, ValidSpec, Labels;
    if k > 0 {
      ReplayIsRun(spec, initial, labels, table, k - 1);
      ReplayStep(spec, initial, labels, table, k - 1);
    }
    if k < |labels| {
      ReplayStep(spec, initial, labels, table, k);
    }
  }

  /** Some event fires the seam. */
  ghost predicate Fired(spec: Spec, labels: seq<nat>, s: Seam)
    requires Labels(spec, labels)
  {
    exists k :: 0 <= k < |labels| && spec.seams[labels[k] / 2] == s
  }

  lemma TouchedIsFired(spec: Spec, initial: seq<real>, labels: seq<nat>, table: seq<Row>, s: Seam)
    requires ValidSpec(spec) && |initial| == spec.ports && Labels(spec, labels)
    requires SourceTable(spec, initial, labels, table)
    ensures Touched(table, s) <==> Fired(spec, labels, s)
  {
    hide ApplyRule, Unrepeated;
    if Touched(table, s) {
      var r :| r in table && Touches(r, s);
      var k :| 0 <= k < |table| && table[k] == r;
      assert spec.seams[labels[k] / 2] == s;
    }
    if Fired(spec, labels, s) {
      var k :| 0 <= k < |labels| && spec.seams[labels[k] / 2] == s;
      assert table[k] in table && Touches(table[k], s);
    }
  }

  // ----- recovery and instantiation

  datatype Recovered = Recovered(ports: nat, seams: seq<Seam>, rule: Rule, uniform: bool,
                                 components: nat, isomorphic: bool, predicted: bool, supported: bool,
                                 descent: Descent)

  /** Build a carrier from the recovered seams, rule and schedule alone. */
  function Instantiate(r: Recovered): (spec: Option<Spec>)
    ensures spec.Some? <==> r.rule != Unclassified && r.uniform
    ensures spec.Some? ==> spec.value.ports == r.ports && spec.value.seams == r.seams && spec.value.rule == r.rule
    ensures spec.Some? && r.isomorphic ==> spec.value.carriers == r.components
    ensures spec.Some? && !r.isomorphic ==> spec.value.carriers == 1
  {
    if r.rule == Unclassified then None
    else if !r.uniform then None
    else Some(Spec(r.ports, r.seams, r.rule, if r.isomorphic then r.components else 1))
  }

  /** The log fires every seam, and some event tells the rule. */
  ghost predicate Telling(spec: Spec, labels: seq<nat>, table: seq<Row>)
    requires Labels(spec, labels)
  {
    && (forall s :: s in spec.seams ==> Fired(spec, labels, s))
    && exists r :: r in table && if spec.rule == NearestAgreement then OddTotal(r) else Discriminating(r)
  }

  lemma FiredSeamsOnly(spec: Spec, labels: seq<nat>, s: Seam)
    requires Labels(spec, labels) && Fired(spec, labels, s)
    ensures s in spec.seams
  {
  }

  /** The recovered seams are those of the source, in order. */
  lemma SeamsRecovered(spec: Spec, initial: seq<real>, labels: seq<nat>, table: seq<Row>, seams: seq<Seam>)
    requires ValidSpec(spec) && |initial| == spec.ports && Labels(spec, labels)
    requires SourceTable(spec, initial, labels, table) && forall s :: s in spec.seams ==> Fired(spec, labels, s)
    requires Sorted(seams) && forall s :: s in seams <==> Touched(table, s)
    ensures Prediction.SameSeams(spec.seams, seams) && Unrepeated(seams) && Probe.ProperSeams(seams)
    ensures seams == spec.seams <==> Sorted(spec.seams)
  {
    hide SourceTable, Touched, Fired;
    forall s
      ensures s in seams <==> s in spec.seams
    {
      TouchedIsFired(spec, initial, labels, table, s);
      if Fired(spec, labels, s) {
        FiredSeamsOnly(spec, labels, s);
      }
    }
    if Sorted(spec.seams) {
      SortedUnique(seams, spec.seams);
    }
  }

  lemma SameConnected(ports: nat, seams: seq<Seam>, other: seq<Seam>)
    requires Connected(ports, seams) && Prediction.SameSeams(seams, other)
    ensures Connected(ports, other)
  {
    hide Linked, Prediction.SameSeams;
    forall x: nat, y: nat | x < ports && y < ports
      ensures Linked(other, x, y)
    {
      Prediction.SameLinks(seams, other, x, y);
    }
  }

  lemma LogProbe(spec: Spec, initial: seq<real>, labels: seq<nat>, log: Log)
    requires ValidSpec(spec) && |initial| == spec.ports && Labels(spec, labels) && IsLog(spec, initial, labels, log)
    ensures Probe.IsRecord(spec.ports, spec.seams, log.probe)
  {
  }

  /** Recover a connected carrier from its own log; the schedule verdict is given. */
  method CloseLoop(spec: Spec, initial: seq<real>, labels: seq<nat>, uniform: bool, steps: seq<nat>, digits: nat,
                   guess: Probe.Guess, poly: Probe.Polynomials)
    returns (log: Log, table: seq<Row>, recovered: Recovered, rebuilt: Option<Spec>)
    requires ValidSpec(spec) && |initial| == spec.ports > 0 && Labels(spec, labels) && Connected(spec.ports, spec.seams)
    requires forall s :: s in spec.seams ==> Fired(spec, labels, s)
    requires spec.rule == NearestAgreement ==> Integers(initial)
    requires digits >= 3 && Probe.AllSuit(poly, spec.ports, spec.seams)
    ensures IsLog(spec, initial, labels, log) && log.probe.steps == steps && log.probe.digits == digits
    ensures SourceTable(spec, initial, labels, table)
    ensures Sorted(recovered.seams) && Prediction.SameSeams(spec.seams, recovered.seams)
    ensures recovered.seams == spec.seams <==> Sorted(spec.seams)
    ensures recovered.ports == spec.ports && recovered.components == 1
    ensures recovered.rule == spec.rule <==> Telling(spec, labels, table)
    ensures recovered.predicted && recovered.supported
    ensures recovered.descent.consistent && recovered.uniform == uniform && recovered.isomorphic
    ensures recovered.descent.stutters == CountRows(table, Stutter)
    ensures recovered.descent.swaps == CountRows(table, Swap)
    ensures spec.rule != Overwrite ==> recovered.descent.violations == 0
    ensures uniform && Telling(spec, labels, table) ==>
      rebuilt == Some(spec.(seams := recovered.seams, carriers := 1))
    ensures !uniform ==> rebuilt == None
  {
    hide IsLog, SourceTable, Classify, Sorted, Touched, Inside, ReplayAt, AgreesAt, Violations;
    hide Connected, AreComponents, IsComponent, Unrepeated, Prediction.SameSeams, Probe.AllSuit, Probe.IsRecord;
    hide OddTotal, Discriminating, TableByRule, Fired, Stutter, Swap;
    log, table := ReadSource(spec, initial, labels, steps, digits, guess, poly);
    SourceTableByRule(spec, initial, labels, table);
    var seams := RecoverSeams(table);
    SeamsRecovered(spec, initial, labels, table, seams);
    SameConnected(spec.ports, spec.seams, seams);
    SeamsInside(table, seams, spec.ports);
    var comps := Components(spec.ports, seams);
    ConnectedIsOne(spec.ports, seams, comps);
    FirstComponent(spec.ports, seams, comps);
    LogProbe(spec, initial, labels, log);
    var predicted, supported, parsed :=
      Prediction.PredictRecord(spec.ports, spec.seams, seams, comps[0], log.probe, poly);
    var rule := RecoverRule(table);
    RuleRecovered(spec.rule, table);
    TableSize(spec, initial, labels, table, log);
    ComponentHolds(comps[0], table, spec.ports);
    var descent := RecoverDescent(comps[0], table, initial, log.final);
    Retraced(spec, initial, labels, table, log, comps[0]);
    if spec.rule != Overwrite {
      NoViolations(spec.rule, table, SumOf(initial, comps[0]), SquaresOf(initial, comps[0]), |comps[0]|, |table|);
    }
    recovered := Recovered(spec.ports, seams, rule, uniform, |comps|, true, predicted, supported, descent);
    rebuilt := Instantiate(recovered);
  }

  lemma SeamsInside(table: seq<Row>, seams: seq<Seam>, ports: nat)
    requires Inside(table, ports) && forall s :: s in seams <==> Touched(table, s)
    ensures forall s :: s in seams ==> s.0 < ports && s.1 < ports
  {
  }

  lemma FirstComponent(ports: nat, seams: seq<Seam>, comps: seq<seq<nat>>)
    requires AreComponents(ports, seams, comps) && comps != []
    ensures IsComponent(ports, seams, comps[0])
  {
  }

  lemma TableSize(spec: Spec, initial: seq<real>, labels: seq<nat>, table: seq<Row>, log: Log)
    requires ValidSpec(spec) && |initial| == spec.ports && Labels(spec, labels)
    requires SourceTable(spec, initial, labels, table) && IsLog(spec, initial, labels, log)
    ensures |table| == |labels| && |log.final| == spec.ports
  {
  }

  lemma ComponentHolds(comp: seq<nat>, table: seq<Row>, ports: nat)
    requires ports > 0 && Inside(table, ports) && forall x: nat :: x in comp <==> x < ports
    ensures comp != [] && Ports(comp, ports) && forall r :: r in table ==> r.a in comp && r.b in comp
  {
    assert 0 in comp;
    assert forall i :: 0 <= i < |comp| ==> comp[i] in comp;
  }

  lemma Retraced(spec: Spec, initial: seq<real>, labels: seq<nat>, table: seq<Row>, log: Log, comp: seq<nat>)
    requires ValidSpec(spec) && |initial| == spec.ports && Labels(spec, labels)
    requires SourceTable(spec, initial, labels, table) && IsLog(spec, initial, labels, log) && Inside(table, |initial|)
    requires |log.final| == |initial| && Ports(comp, |initial|)
    ensures forall k :: 0 <= k < |table| ==> AgreesAt(initial, table, k)
    ensures forall i :: 0 <= i < |comp| ==> ReplayAt(initial, table, |table|)[comp[i]] == log.final[comp[i]]
  {
    hide AgreesAt, ReplayAt;
    forall k | 0 <= k < |table|
      ensures AgreesAt(initial, table, k)
    {
      ReplayIsRun(spec, initial, labels, table, k);
    }
    ReplayIsRun(spec, initial, labels, table, |labels|);
  }

  // ----- a misleading log

  lemma OneEvent(spec: Spec, initial: seq<real>, labels: seq<nat>)
    requires spec == Spec(2, [(0, 1)], NearestAgreement, 1) && initial == [0.0, 2.0] && labels == [0]
    ensures ValidSpec(spec) && Labels(spec, labels) && Fired(spec, labels, (0, 1))
    ensures SourceRow(spec, initial, labels, 0) == Row(0, 1, 0.0, 1.0, 2.0, 1.0)
  {
    TruncateInt(0);
    TruncateInt(2);
    assert StateAt(spec, initial, labels, 0) == initial;
    assert spec.seams[labels[0] / 2] == (0, 1);
  }

  /** An integer carrier whose only event has an even total is recovered as a mean carrier. */
  lemma EvenTotalMisleads(spec: Spec, initial: seq<real>, labels: seq<nat>, table: seq<Row>)
    requires spec == Spec(2, [(0, 1)], NearestAgreement, 1) && initial == [0.0, 2.0] && labels == [0]
    requires table == [Row(0, 1, 0.0, 1.0, 2.0, 1.0)]
    ensures ValidSpec(spec) && Labels(spec, labels) && Fired(spec, labels, (0, 1))
    ensures SourceTable(spec, initial, labels, table) && !Telling(spec, labels, table)
    ensures Classify(table) == SeamMean
  {
    hide SourceRow, Classify, TableByRule, ApplyRule, Fired;
    OneEvent(spec, initial, labels);
    assert Integers(initial) by { TruncateInt(0); TruncateInt(2); }
    SourceTableByRule(spec, initial, labels, table);
    RuleRecovered(spec.rule, table);
    assert table[0] in table && Discriminating(table[0]);
    assert forall r :: r in table ==> !OddTotal(r);
  }
}
