/** The integer nearest-agreement law: its two move engines and their agreement. */
module IntegerLaw {
  import opened Federation

  /** Preserve the total and land in the nearest agreement shell. */
  function NearestAgreement(xi: int, xj: int, ceilingToFirst: bool): (r: (int, int))
    ensures r.0 + r.1 == xi + xj
    ensures if ceilingToFirst then 0 <= r.0 - r.1 <= 1 else 0 <= r.1 - r.0 <= 1
  {
    var s := xi + xj;
    var low, high := s / 2, -((-s) / 2);
    if ceilingToFirst then (high, low) else (low, high)
  }

  datatype Kind = Wait | Swap | Descent

  /** Equal readings wait; on a gap of one the coin decides between leaving the
      higher reading where it is and swapping; a larger gap descends. */
  function KindOf(xi: int, xj: int, coin: bool): Kind
  {
    if xi == xj then Wait
    else if xi - xj == 1 then if coin then Wait else Swap
    else if xj - xi == 1 then if coin then Swap else Wait
    else Descent
  }

  function Abs(d: int): nat { if d < 0 then -d else d }

  /** Change of the sum of squares of the two endpoints. */
  function SquareChange(xi: int, xj: int, coin: bool): int
  {
    var (ni, nj) := NearestAgreement(xi, xj, coin);
    ni * ni + nj * nj - xi * xi - xj * xj
  }

  /** Sum of `2 (d_k - 1)` over the unit transfers of a descent with mismatch `d`. */
  function UnitTransferDrop(d: nat): int
  {
    if d < 2 then 0 else 2 * (d - 1) + UnitTransferDrop(d - 2)
  }

  lemma HalvesStep(h: int, c: int, p: int)
    requires p == h * c
    ensures 2 * h * c == 2 * p
    ensures 2 * (h + 1) * (c + 1) == 2 * p + 2 * h + 2 * c + 2
  {
  }

  lemma {:induction false} UnitTransferHalves(d: nat)
    ensures UnitTransferDrop(d) == 2 * (d / 2) * ((d + 1) / 2)
  {
    if d >= 2 {
      UnitTransferHalves(d - 2);
      var h, c := (d - 2) / 2, (d - 1) / 2;
      assert d / 2 == h + 1 && (d + 1) / 2 == c + 1 && h + c == d - 2;
      HalvesStep(h, c, h * c);
    }
  }

  lemma EvenSquare(h: int, d: int)
    requires d == 2 * h
    ensures d * d == 4 * (h * h)
  {
  }

  lemma OddSquare(h: int, d: int)
    requires d == 2 * h + 1
    ensures d * d == 4 * (h * (h + 1)) + 1
  {
    var hh := h * h;
    assert h * (h + 1) == hh + h;
    assert (2 * h + 1) * (2 * h + 1) == 4 * hh + 4 * h + 1;
  }

  lemma SquareHalves(d: nat)
    ensures d * d - d % 2 == 4 * ((d / 2) * ((d + 1) / 2))
  {
    var h := d / 2;
    if d % 2 == 0 {
      assert (d + 1) / 2 == h;
      EvenSquare(h, d);
    } else {
      assert (d + 1) / 2 == h + 1;
      OddSquare(h, d);
    }
  }

  /** The closed form of the unit-transfer ledger. */
  lemma UnitTransferClosedForm(d: nat)
    ensures UnitTransferDrop(d) == (d * d - d % 2) / 2
    ensures UnitTransferDrop(d) == 2 * (d / 2) * ((d + 1) / 2)
  {
    hide UnitTransferDrop;
    UnitTransferHalves(d);
    var h, c := d / 2, (d + 1) / 2;
    SquareHalves(d);
    assert 2 * h * c == 2 * (h * c);
  }

  lemma SquaresBySumAndGap(p: int, q: int, s: int, d: int)
    requires s == p + q && (d == p - q || d == q - p)
    ensures 2 * (p * p + q * q) == s * s + d * d
  {
    assert s * s == p * p + 2 * (p * q) + q * q;
    assert d * d == p * p - 2 * (p * q) + q * q;
  }

  lemma {:induction false} DropPositive(d: nat)
    requires d >= 2
    ensures UnitTransferDrop(d) > 0
  {
    if d >= 4 {
      DropPositive(d - 2);
    }
  }

  lemma {:induction false} TwiceTheDrop(d: nat, dd: int)
    requires dd == d * d
    ensures 2 * UnitTransferDrop(d) == dd - d % 2
  {
    if d >= 2 {
      TwiceTheDrop(d - 2, (d - 2) * (d - 2));
      assert dd == (d - 2) * (d - 2) + 4 * (d - 1);
    }
  }

  lemma AgreedSquares(a: int, b: int, s: int, ss: int)
    requires s == a + b && ss == s * s && -1 <= a - b <= 1
    ensures 2 * (a * a + b * b) == ss + Abs(a - b)
  {
    var e := Abs(a - b);
    SquaresBySumAndGap(a, b, s, e);
    assert e * e == e;
  }

  /** Any attempt lowers the sum of squares by the unit-transfer ledger of its gap. */
  lemma SquareChangeIsLedger(xi: int, xj: int, coin: bool)
    ensures SquareChange(xi, xj, coin) == -UnitTransferDrop(Abs(xi - xj))
  {
    hide NearestAgreement, UnitTransferDrop;
    var s, d := xi + xj, Abs(xi - xj);
    var (ni, nj) := NearestAgreement(xi, xj, coin);
    var ss, dd := s * s, d * d;
    TwiceTheDrop(d, dd);
    SquaresBySumAndGap(xi, xj, s, d);
    AgreedSquares(ni, nj, s, ss);
    assert Abs(ni - nj) == d % 2;
  }

  /** What an attempt adds to the tracked descent functional. */
  function Change(xi: int, xj: int, coin: bool): int
  {
    if KindOf(xi, xj, coin).Descent? then -UnitTransferDrop(Abs(xi - xj)) else 0
  }

  datatype Counts = Counts(descents: int, swaps: int, waits: int, transfers: int, violations: int) {
    function Plus(c: Counts): Counts
    {
      Counts(descents + c.descents, swaps + c.swaps, waits + c.waits,
             transfers + c.transfers, violations + c.violations)
    }
  }

  const NONE := Counts(0, 0, 0, 0, 0)

  lemma PlusAssoc(a: Counts, b: Counts, c: Counts)
    ensures a.Plus(b).Plus(c) == a.Plus(b.Plus(c))
  {
  }

  /** What one attempt adds to the tally; a decrement violation never occurs. */
  function Tick(xi: int, xj: int, coin: bool): Counts
  {
    match KindOf(xi, xj, coin)
    case Wait => NONE.(waits := 1)
    case Swap => NONE.(swaps := 1)
    case Descent =>
      Counts(1, 0, 0, Abs(xi - xj) / 2, 0)
  }

  function Higher(x: int, y: int): int { if x < y then y else x }

  /** What is counted: a wait moves nothing, a swap exchanges two different readings, a descent has a
      gap of two or more; the transfers are the units by which the higher reading falls. */
  lemma TickCounts(xi: int, xj: int, coin: bool)
    ensures var (ni, nj) := NearestAgreement(xi, xj, coin);
      && Tick(xi, xj, coin).transfers == Higher(xi, xj) - Higher(ni, nj)
      && Tick(xi, xj, coin).waits == (if ni == xi && nj == xj then 1 else 0)
      && Tick(xi, xj, coin).swaps == (if ni == xj && nj == xi && xi != xj then 1 else 0)
      && Tick(xi, xj, coin).descents == (if Abs(xi - xj) >= 2 then 1 else 0)
  {
    var s, low, high := xi + xj, (xi + xj) / 2, -(-(xi + xj) / 2);
    assert 2 * low <= s <= 2 * low + 1 && s == low + high;
  }

  class IntegerTally {
    var descents: int
    var swaps: int
    var waits: int
    var unitTransfers: int
    var decrementViolations: int

    constructor ()
      ensures Value() == NONE
    {
      descents, swaps, waits, unitTransfers, decrementViolations := 0, 0, 0, 0, 0;
    }

    function Value(): Counts
      reads this
    {
      Counts(descents, swaps, waits, unitTransfers, decrementViolations)
    }

    method Add(c: Counts)
      modifies this
      ensures Value() == old(Value()).Plus(c)
    {
      descents := descents + c.descents;
      swaps := swaps + c.swaps;
      waits := waits + c.waits;
      unitTransfers := unitTransfers + c.transfers;
      decrementViolations := decrementViolations + c.violations;
    }
  }

  // ----- sequential meaning of a schedule

  ghost predicate Schedule(g: PortGraph, ss: seq<nat>, cs: seq<bool>)
  {
    && g.Valid()
    && |ss| == |cs|
    && forall k :: 0 <= k < |ss| ==> ss[k] < |g.a|
  }

  /** The record of a run: readings, tracked descent functional, tally, and the
      first attempt after which the functional is `vMin`, once among the
      attempts that are not waits (`hit`) and once among all (`level`); -1 for none. */
  datatype Record = Record(x: seq<int>, v: int, counts: Counts, hit: int, level: int)

  /** Attempt number `t` on a seam joining ports `i` and `j`. */
  function Act(st: Record, i: nat, j: nat, coin: bool, vMin: int, t: nat): (r: Record)
    requires i < |st.x| && j < |st.x|
    ensures |r.x| == |st.x|
  {
    var (xi, xj) := (st.x[i], st.x[j]);
    var (ni, nj) := NearestAgreement(xi, xj, coin);
    var v := st.v + Change(xi, xj, coin);
    Record(st.x[i := ni][j := nj], v, st.counts.Plus(Tick(xi, xj, coin)),
           if st.hit < 0 && !KindOf(xi, xj, coin).Wait? && v == vMin then t else st.hit,
           if st.level < 0 && v == vMin then t else st.level)
  }

  /** The record after the attempts `lo, ..., hi - 1`. */
  ghost function Go(g: PortGraph, ss: seq<nat>, cs: seq<bool>, vMin: int, st: Record, lo: nat, hi: nat): (r: Record)
    requires Schedule(g, ss, cs) && |st.x| == g.ports && lo <= hi <= |ss|
    ensures |r.x| == |st.x|
    decreases hi
  {
    if hi == lo then st else
      Act(Go(g, ss, cs, vMin, st, lo, hi - 1), g.a[ss[hi - 1]], g.b[ss[hi - 1]], cs[hi - 1], vMin, hi - 1)
  }

  lemma {:induction false} GoTwice(g: PortGraph, ss: seq<nat>, cs: seq<bool>, vMin: int, st: Record,
                                   lo: nat, mid: nat, hi: nat)
    requires Schedule(g, ss, cs) && |st.x| == g.ports && lo <= mid <= hi <= |ss|
    ensures Go(g, ss, cs, vMin, Go(g, ss, cs, vMin, st, lo, mid), mid, hi) == Go(g, ss, cs, vMin, st, lo, hi)
    decreases hi
  {
    if mid < hi {
      GoTwice(g, ss, cs, vMin, st, lo, mid, hi - 1);
    }
  }

  /** Entering a run: nothing hit yet. */
  function Start(x: seq<int>, v: int, counts: Counts): Record
  {
    Record(x, v, counts, -1, -1)
  }

  // ----- the reference engine

  /** A wait leaves both readings in place. */
  lemma WaitIsIdentity(xi: int, xj: int, coin: bool)
    requires KindOf(xi, xj, coin).Wait?
    ensures NearestAgreement(xi, xj, coin) == (xi, xj)
  {
  }

  /** One attempt as the reference engine classifies it. */
  method Resolve(xi: int, xj: int, coin: bool) returns (ni: int, nj: int, change: int, tick: Counts)
    ensures (ni, nj) == NearestAgreement(xi, xj, coin)
    ensures change == Change(xi, xj, coin) && tick == Tick(xi, xj, coin)
  {
    var agreed := NearestAgreement(xi, xj, coin);
    ni, nj := agreed.0, agreed.1;
    change, tick := 0, NONE;
    var d := xi - xj;
    if d == 0 {
      tick := tick.(waits := 1);
    } else if d == 1 || d == -1 {
      if ni == xi {
        tick := tick.(waits := 1);
      } else {
        tick := tick.(swaps := 1);
      }
    } else {
      var ad: int := Abs(d);
      change := ni * ni + nj * nj - xi * xi - xj * xj;
      SquareChangeIsLedger(xi, xj, coin);
      UnitTransferClosedForm(ad);
      if change != -((ad * ad - ad % 2) / 2) {
        tick := tick.(violations := 1);
      }
      tick := tick.(transfers := ad / 2, descents := 1);
    }
  }

  /** Write the two endpoints of a seam. */
  method WritePair<T>(x: array<T>, i: nat, j: nat, u: T, v: T)
    requires i < x.Length && j < x.Length
    modifies x
    ensures x[..] == old(x[..])[i := u][j := v]
  {
    x[i] := u;
    x[j] := v;
  }

  /** A waiting attempt changes neither the readings nor the functional nor the hit. */
  lemma WaitingAct(st: Record, i: nat, j: nat, coin: bool, vMin: int, t: nat)
    requires i < |st.x| && j < |st.x| && Tick(st.x[i], st.x[j], coin).waits != 0
    ensures Act(st, i, j, coin, vMin, t).x == st.x
    ensures Act(st, i, j, coin, vMin, t).v == st.v && Act(st, i, j, coin, vMin, t).hit == st.hit
  {
    WaitIsIdentity(st.x[i], st.x[j], coin);
  }

  method IntegerMovesPython(x: array<int>, g: PortGraph, ss: seq<nat>, cs: seq<bool>, v0: int, vMin: int,
                            tally: IntegerTally)
    returns (v: int, first: int)
    requires Schedule(g, ss, cs) && x.Length == g.ports
    modifies x, tally
    ensures var end := Go(g, ss, cs, vMin, Start(old(x[..]), v0, old(tally.Value())), 0, |ss|);
            x[..] == end.x && v == end.v && tally.Value() == end.counts && first == end.hit
  {
    v, first := v0, -1;
    ghost var st := Start(x[..], v0, tally.Value());
    for t := 0 to |ss|
      invariant st == Go(g, ss, cs, vMin, Start(old(x[..]), v0, old(tally.Value())), 0, t)
      invariant x[..] == st.x && v == st.v && tally.Value() == st.counts && first == st.hit
    {
      var i, j := g.a[ss[t]], g.b[ss[t]];
      var ni, nj, change, tick := Resolve(x[i], x[j], cs[t]);
      tally.Add(tick);
      if tick.waits == 0 {
        v := v + change;
        WritePair(x, i, j, ni, nj);
        if first < 0 && v == vMin {
          first := t;
        }
      } else {
        WaitingAct(st, i, j, cs[t], vMin, t);
      }
      st := Act(st, i, j, cs[t], vMin, t);
    }
  }
}
