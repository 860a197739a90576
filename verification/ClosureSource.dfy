/** Stage A of the closure loop: a carrier runs and writes an event log. */
module ClosureSource {
  import opened Basics
  import IntegerLaw
  import opened UnionFind
  import Probe

  datatype Rule = SeamMean | NearestAgreement | Overwrite | Unclassified

  datatype Spec = Spec(ports: nat, seams: seq<Seam>, rule: Rule, carriers: nat)

  predicate ValidSpec(spec: Spec)
  {
    spec.rule != Unclassified && Unrepeated(spec.seams) && forall s :: s in spec.seams ==> s.0 < s.1 < spec.ports
  }

  /** `int` of a rational: toward zero. */
  function Truncate(x: real): int
  {
    if x >= 0.0 then x.Floor else -(-x).Floor
  }

  predicate IsInt(x: real)
  {
    x.Floor as real == x
  }

  lemma TruncateInt(x: int)
    ensures Truncate(x as real) == x && IsInt(x as real)
  {
  }

  /** One completed event on a seam; the direction is the drawn label. */
  function ApplyRule(rule: Rule, xi: real, xj: real, direction: nat): (real, real)
    requires rule != Unclassified
  {
    match rule
    case SeamMean => ((xi + xj) / 2.0, (xi + xj) / 2.0)
    case NearestAgreement =>
      var (i, j) := IntegerLaw.NearestAgreement(Truncate(xi), Truncate(xj), direction == 0);
      (i as real, j as real)
    case Overwrite => if direction == 0 then (xi, xi) else (xj, xj)
  }

  /** What each touched port held before and after. */
  datatype Event = Event(step: nat, changed: map<nat, (real, real)>)

  datatype Log = Log(ports: nat, initial: seq<real>, events: seq<Event>, final: seq<real>, probe: Probe.Record)

  /** A drawn label names a seam and a direction. */
  predicate Labels(spec: Spec, labels: seq<nat>)
  {
    forall k :: 0 <= k < |labels| ==> labels[k] / 2 < |spec.seams|
  }

  ghost function StateAt(spec: Spec, initial: seq<real>, labels: seq<nat>, k: nat): (x: seq<real>)
    requires ValidSpec(spec) && |initial| == spec.ports && Labels(spec, labels) && k <= |labels|
    ensures |x| == spec.ports
  {
    if k == 0 then initial else
      var x := StateAt(spec, initial, labels, k - 1);
      var s := spec.seams[labels[k - 1] / 2];
      assert s in spec.seams;
      var (ai, aj) := ApplyRule(spec.rule, x[s.0], x[s.1], labels[k - 1] % 2);
      x[s.0 := ai][s.1 := aj]
  }

  /** Event `k` of the run: the fired seam with its readings before and after. */
  ghost predicate IsEvent(spec: Spec, initial: seq<real>, labels: seq<nat>, k: nat, e: Event)
    requires ValidSpec(spec) && |initial| == spec.ports && Labels(spec, labels) && k < |labels|
  {
    var x, s := StateAt(spec, initial, labels, k), spec.seams[labels[k] / 2];
    assert s in spec.seams;
    var after := ApplyRule(spec.rule, x[s.0], x[s.1], labels[k] % 2);
    e == Event(k, map[s.0 := (x[s.0], after.0), s.1 := (x[s.1], after.1)])
  }

  ghost predicate IsLog(spec: Spec, initial: seq<real>, labels: seq<nat>, log: Log)
    requires ValidSpec(spec) && |initial| == spec.ports && Labels(spec, labels)
  {
    && log.ports == spec.ports && log.initial == initial && |log.events| == |labels|
    && log.final == StateAt(spec, initial, labels, |labels|)
    && Probe.IsRecord(spec.ports, spec.seams, log.probe)
    && forall k :: 0 <= k < |labels| ==> IsEvent(spec, initial, labels, k, log.events[k])
  }

  // ----- what a log says by itself

  /** What port `p` holds before event `k`, by the log alone. */
  ghost function Held(log: Log, k: nat, p: nat): real
    requires k <= |log.events| && p < |log.initial|
  {
    if k == 0 then log.initial[p]
    else if p in log.events[k - 1].changed then log.events[k - 1].changed[p].1
    else Held(log, k - 1, p)
  }

  /** An even direction favours the first port, an odd one the second. */
  ghost predicate Obeys(rule: Rule, even: bool, b0: real, b1: real, a0: real, a1: real)
  {
    match rule
    case SeamMean => a0 == a1 && a0 + a1 == b0 + b1
    case NearestAgreement =>
      IsInt(b0) && IsInt(b1) ==>
        var odd := ((b0.Floor + b1.Floor) % 2) as real;
        && IsInt(a0) && IsInt(a1) && a0 + a1 == b0 + b1
        && a0 - a1 == if even then odd else -odd
    case Overwrite => if even then a0 == b0 && a1 == b0 else a0 == b1 && a1 == b1
    case Unclassified => false
  }

  /** Event `k` changes exactly the ports of the labelled seam, from what they held, by the rule and direction. */
  ghost predicate EventObeys(spec: Spec, labels: seq<nat>, log: Log, k: nat)
    requires k < |labels| && k < |log.events| && labels[k] / 2 < |spec.seams|
  {
    var s, e := spec.seams[labels[k] / 2], log.events[k];
    && e.step == k && e.changed.Keys == {s.0, s.1} && s.0 < |log.initial| && s.1 < |log.initial|
    && e.changed[s.0].0 == Held(log, k, s.0) && e.changed[s.1].0 == Held(log, k, s.1)
    && Obeys(spec.rule, labels[k] % 2 == 0,
             e.changed[s.0].0, e.changed[s.1].0, e.changed[s.0].1, e.changed[s.1].1)
  }

  /** The log starts from the loads, obeys the rule event by event, and ends in what its events leave. */
  ghost predicate LogObeys(spec: Spec, initial: seq<real>, labels: seq<nat>, log: Log)
    requires Labels(spec, labels)
  {
    && log.initial == initial && |log.events| == |labels| && |log.final| == |initial|
    && (forall k :: 0 <= k < |labels| ==> EventObeys(spec, labels, log, k))
    && forall p :: 0 <= p < |initial| ==> log.final[p] == Held(log, |labels|, p)
  }

  lemma RuleObeyed(rule: Rule, xi: real, xj: real, direction: nat)
    requires rule != Unclassified && direction < 2
    ensures var (ai, aj) := ApplyRule(rule, xi, xj, direction); Obeys(rule, direction == 0, xi, xj, ai, aj)
  {
    if rule == NearestAgreement && IsInt(xi) && IsInt(xj) {
      TruncateInt(xi.Floor);
      TruncateInt(xj.Floor);
      var agreed := IntegerLaw.NearestAgreement(xi.Floor, xj.Floor, direction == 0);
      TruncateInt(agreed.0);
      TruncateInt(agreed.1);
      if direction == 0 {
        ParityOfGap(agreed.0, agreed.1, xi.Floor + xj.Floor);
      } else {
        ParityOfGap(agreed.1, agreed.0, xi.Floor + xj.Floor);
      }
    }
  }

  lemma ParityOfGap(high: int, low: int, total: int)
    requires high + low == total && 0 <= high - low <= 1
    ensures high - low == total % 2
  {
  }

  /** The held readings are the states of the run. */
  lemma {:induction false} HeldIsState(spec: Spec, initial: seq<real>, labels: seq<nat>, log: Log, k: nat, p: nat)
    requires ValidSpec(spec) && |initial| == spec.ports && Labels(spec, labels) && IsLog(spec, initial, labels, log)
    requires k <= |labels| && p < spec.ports
    ensures Held(log, k, p) == StateAt(spec, initial, labels, k)[p]
  {
    hide ApplyRule, Unrepeated, Probe.IsRecord;
    if k > 0 {
      HeldIsState(spec, initial, labels, log, k - 1, p);
      assert IsEvent(spec, initial, labels, k - 1, log.events[k - 1]);
      assert spec.seams[labels[k - 1] / 2] in spec.seams;
    }
  }

  lemma EventIsObeyed(spec: Spec, initial: seq<real>, labels: seq<nat>, log: Log, k: nat)
    requires ValidSpec(spec) && |initial| == spec.ports && Labels(spec, labels) && IsLog(spec, initial, labels, log)
    requires k < |labels|
    ensures EventObeys(spec, labels, log, k)
  {
    hide ApplyRule, Unrepeated, Obeys, Probe.IsRecord;
    var s, x := spec.seams[labels[k] / 2], StateAt(spec, initial, labels, k);
    assert s in spec.seams;
    assert IsEvent(spec, initial, labels, k, log.events[k]);
    HeldIsState(spec, initial, labels, log, k, s.0);
    HeldIsState(spec, initial, labels, log, k, s.1);
    RuleObeyed(spec.rule, x[s.0], x[s.1], labels[k] % 2);
  }

  /** The log of a run obeys its rule, event by event. */
  lemma RunObeys(spec: Spec, initial: seq<real>, labels: seq<nat>, log: Log)
    requires ValidSpec(spec) && |initial| == spec.ports && Labels(spec, labels) && IsLog(spec, initial, labels, log)
    ensures LogObeys(spec, initial, labels, log)
  {
    hide EventObeys, IsEvent, Held, Unrepeated, Probe.IsRecord;
    forall k | 0 <= k < |labels|
      ensures EventObeys(spec, labels, log, k)
    {
      EventIsObeyed(spec, initial, labels, log, k);
    }
    forall p | 0 <= p < |initial|
      ensures log.final[p] == Held(log, |labels|, p)
    {
      HeldIsState(spec, initial, labels, log, |labels|, p);
    }
  }

  /** Run the carrier on drawn labels and probe it; `guess` and `poly` only speed the readback up. */
  method RunSource(spec: Spec, initial: seq<real>, labels: seq<nat>, steps: seq<nat>, digits: nat,
                   guess: Probe.Guess, poly: Probe.Polynomials) returns (log: Log)
    requires ValidSpec(spec) && |initial| == spec.ports && Labels(spec, labels)
    requires digits > 0 && Probe.AllSuit(poly, spec.ports, spec.seams)
    ensures IsLog(spec, initial, labels, log) && log.probe.steps == steps && log.probe.digits == digits
    ensures LogObeys(spec, initial, labels, log)
  {
    hide ApplyRule, Probe.ProbeRight, Probe.AllSuit, Unrepeated, LogObeys;
    var state, events: seq<Event> := initial, [];
    for k := 0 to |labels|
      invariant state == StateAt(spec, initial, labels, k) && |events| == k
      invariant forall i :: 0 <= i < k ==> IsEvent(spec, initial, labels, i, events[i])
    {
      var (i, j) := spec.seams[labels[k] / 2];
      assert (i, j) in spec.seams;
      var beforeI, beforeJ := state[i], state[j];
      var (afterI, afterJ) := ApplyRule(spec.rule, beforeI, beforeJ, labels[k] % 2);
      state := state[i := afterI][j := afterJ];
      events := events + [Event(k, map[i := (beforeI, afterI), j := (beforeJ, afterJ)])];
    }
    var readback := Probe.ProbeLog(spec.ports, spec.seams, steps, digits, guess, poly);
    log := Log(spec.ports, initial, events, state, Probe.Record(steps, digits, readback));
    RunObeys(spec, initial, labels, log);
  }

  // ----- what the rules keep

  predicate Integers(x: seq<real>)
  {
    forall p :: 0 <= p < |x| ==> IsInt(x[p])
  }

  /** Nearest agreement runs on integers. */
  lemma {:induction false} StaysInteger(spec: Spec, initial: seq<real>, labels: seq<nat>, k: nat)
    requires ValidSpec(spec) && |initial| == spec.ports && Labels(spec, labels) && k <= |labels|
    requires spec.rule == NearestAgreement && Integers(initial)
    ensures Integers(StateAt(spec, initial, labels, k))
  {
    if k > 0 {
      StaysInteger(spec, initial, labels, k - 1);
      var x := StateAt(spec, initial, labels, k - 1);
      var s := spec.seams[labels[k - 1] / 2];
      assert s in spec.seams;
      var (i, j) := IntegerLaw.NearestAgreement(Truncate(x[s.0]), Truncate(x[s.1]), labels[k - 1] % 2 == 0);
      TruncateInt(i);
      TruncateInt(j);
    }
  }

  /** The conservative rules keep the total. */
  lemma RuleConserves(rule: Rule, xi: real, xj: real, direction: nat)
    requires rule == SeamMean || (rule == NearestAgreement && IsInt(xi) && IsInt(xj))
    ensures ApplyRule(rule, xi, xj, direction).0 + ApplyRule(rule, xi, xj, direction).1 == xi + xj
  {
    if rule == NearestAgreement {
      TruncateInt(xi.Floor);
      TruncateInt(xj.Floor);
    }
  }

  ghost function Squares(x: real, y: real): real { x * x + y * y }

  /** The unordered pair of readings is the same. */
  predicate SamePair(x: real, y: real, x': real, y': real)
  {
    (x == x' && y == y') || (x == y' && y == x')
  }

  /** The conservative rules lower the sum of squares whenever they change the pair of readings. */
  lemma RuleDescends(rule: Rule, xi: real, xj: real, direction: nat)
    requires rule == SeamMean || (rule == NearestAgreement && IsInt(xi) && IsInt(xj))
    ensures var (ai, aj) := ApplyRule(rule, xi, xj, direction);
      SamePair(xi, xj, ai, aj) || Squares(ai, aj) < Squares(xi, xj)
  {
    if rule == SeamMean {
      MeanDescends(xi, xj, (xi + xj) / 2.0);
    } else {
      TruncateInt(xi.Floor);
      TruncateInt(xj.Floor);
      AgreementDescends(xi.Floor, xj.Floor, direction == 0);
    }
  }

  lemma MeanDescends(x: real, y: real, m: real)
    requires m == (x + y) / 2.0
    ensures x == y || Squares(m, m) < Squares(x, y)
  {
    var d := (x - y) / 2.0;
    assert x == m + d && y == m - d;
    SquareOfSum(m, d);
    if x != y {
      SquarePositive(d, d * d);
    }
  }

  lemma SquareOfSum(m: real, d: real)
    ensures Squares(m + d, m - d) == 2.0 * (m * m) + 2.0 * (d * d)
  {
    assert (m + d) * (m + d) == m * m + 2.0 * (m * d) + d * d;
    assert (m - d) * (m - d) == m * m - 2.0 * (m * d) + d * d;
  }

  lemma AgreementDescends(x: int, y: int, ceiling: bool)
    ensures var (a, b) := IntegerLaw.NearestAgreement(x, y, ceiling);
      SamePair(x as real, y as real, a as real, b as real)
      || Squares(a as real, b as real) < Squares(x as real, y as real)
  {
    hide Squares, IntegerLaw.NearestAgreement;
    var (a, b) := IntegerLaw.NearestAgreement(x, y, ceiling);
    SquaresFall(x, y, ceiling);
    RealSquares(a, b);
    RealSquares(x, y);
  }

  lemma RealSquares(x: int, y: int)
    ensures (x * x + y * y) as real == Squares(x as real, y as real)
  {
  }

  lemma SquaresFall(x: int, y: int, ceiling: bool)
    ensures var (a, b) := IntegerLaw.NearestAgreement(x, y, ceiling);
      IntegerLaw.Abs(x - y) <= 1 || a * a + b * b < x * x + y * y
  {
    hide IntegerLaw.NearestAgreement, IntegerLaw.UnitTransferDrop;
    var d := IntegerLaw.Abs(x - y);
    IntegerLaw.SquareChangeIsLedger(x, y, ceiling);
    if d >= 2 {
      IntegerLaw.DropPositive(d);
    }
  }
}
