/** The descent functional, its minimum for given component totals, and the quotient. */
module IntegerDescent {
  import opened Sums

  /** `labels[p]` is the component of port `p`; labels are below `count`. */
  ghost predicate Labelled(labels: seq<nat>, count: nat)
  {
    forall p :: 0 <= p < |labels| ==> labels[p] < count
  }

  function Square(n: int): int { n * n }

  /** `f` on the ports of one component, zero elsewhere. */
  function In(labels: seq<nat>, c: nat, f: nat -> int): nat -> int
  {
    (p: nat) => if p < |labels| && labels[p] == c then f(p) else 0
  }

  /** The sum of `f` over the ports of one component. */
  ghost function Over(labels: seq<nat>, c: nat, f: nat -> int): int
  {
    Sum(|labels|, In(labels, c, f))
  }

  const ONE: nat -> int := (p: nat) => 1

  ghost function Size(labels: seq<nat>, c: nat): int
  {
    Over(labels, c, ONE)
  }

  function Reading(x: seq<int>): nat -> int
  {
    (p: nat) => if p < |x| then x[p] else 0
  }

  function ReadingSquare(x: seq<int>): nat -> int
  {
    (p: nat) => if p < |x| then Square(x[p]) else 0
  }

  ghost function Total(labels: seq<nat>, x: seq<int>, c: nat): int
  {
    Over(labels, c, Reading(x))
  }

  /** The descent functional: the sum of the squared readings. */
  ghost function V(x: seq<int>): int
  {
    Sum(|x|, ReadingSquare(x))
  }

  /** The balanced split of a total over `m` ports: quotient and remainder. */
  function Quotient(total: int, m: int): int { if m > 0 then total / m else 0 }

  function Remainder(total: int, m: int): int { if m > 0 then total % m else 0 }

  function SplitMinimum(total: int, m: int): int
  {
    var q, r := Quotient(total, m), Remainder(total, m);
    (m - r) * q * q + r * (q + 1) * (q + 1)
  }

  /** The least descent functional with the component totals of `x`. */
  ghost function VMin(labels: seq<nat>, count: nat, x: seq<int>): int
  {
    Sum(count, (c: nat) => SplitMinimum(Total(labels, x, c), Size(labels, c)))
  }

  /** Distance of a reading from the pair `{q, q+1}`; never negative on integers. */
  function Gap(v: int, q: int): int { (v - q) * (v - q - 1) }

  /** The quotient of the component of a port. */
  ghost function QuotientAt(labels: seq<nat>, x: seq<int>, p: nat): int
    requires p < |labels|
  {
    Quotient(Total(labels, x, labels[p]), Size(labels, labels[p]))
  }

  /** The balanced class: every reading is its component's quotient or one more. */
  ghost predicate Balanced(labels: seq<nat>, x: seq<int>)
    requires |labels| == |x|
  {
    forall p :: 0 <= p < |x| ==> x[p] == QuotientAt(labels, x, p) || x[p] == QuotientAt(labels, x, p) + 1
  }

  // ----- sums over components

  lemma OverLinear(labels: seq<nat>, c: nat, f: nat -> int, g: nat -> int, h: nat -> int, k: int)
    requires forall p: nat :: p < |labels| && labels[p] == c ==> h(p) == f(p) + k * g(p)
    ensures Over(labels, c, h) == Over(labels, c, f) + k * Over(labels, c, g)
  {
    SumLinear(|labels|, In(labels, c, f),
              In(labels, c, g),
              In(labels, c, h), k);
  }

  lemma OverNonnegative(labels: seq<nat>, c: nat, f: nat -> int)
    requires forall p: nat :: p < |labels| && labels[p] == c ==> f(p) >= 0
    ensures Over(labels, c, f) >= 0
    ensures Over(labels, c, f) == 0 <==> forall p: nat :: p < |labels| && labels[p] == c ==> f(p) == 0
  {
    var h := In(labels, c, f);
    SumNonnegative(|labels|, h);
    if Over(labels, c, f) == 0 {
      forall p: nat | p < |labels| && labels[p] == c
        ensures f(p) == 0
      {
        assert h(p) == 0;
      }
    }
  }

  /** One position of a component changes. */
  lemma OverPoint(labels: seq<nat>, c: nat, f: nat -> int, h: nat -> int, k: nat)
    requires k < |labels|
    requires forall p: nat :: p < |labels| && p != k ==> f(p) == h(p)
    ensures Over(labels, c, h) == Over(labels, c, f) + if labels[k] == c then h(k) - f(k) else 0
  {
    SumPoint(|labels|, In(labels, c, f),
             In(labels, c, h), k);
  }

  /** A sum over all ports is the sum over the components. */
  lemma {:induction false} GroupSum(labels: seq<nat>, count: nat, f: nat -> int)
    requires Labelled(labels, count)
    ensures Sum(|labels|, f) == Sum(count, (c: nat) => Over(labels, c, f))
  {
    var cell := (p: nat, c: nat) => if p < |labels| && labels[p] == c then f(p) else 0;
    forall p: nat | p < |labels|
      ensures f(p) == Sum(count, (c: nat) => cell(p, c))
    {
      SumSingle(count, labels[p], f(p), (c: nat) => cell(p, c));
    }
    forall c: nat | c < count
      ensures Over(labels, c, f) == Sum(|labels|, (p: nat) => cell(p, c))
    {
      SumExt(|labels|, In(labels, c, f), (p: nat) => cell(p, c));
    }
    SumSwap(|labels|, count, cell, f, (c: nat) => Over(labels, c, f));
  }

  // ----- the minimum

  function GapFn(x: seq<int>, q: int): nat -> int
  {
    (p: nat) => if p < |x| then Gap(x[p], q) else 0
  }

  /** The squares of a component against their gaps to any `q`. */
  lemma SquaresByGap(labels: seq<nat>, x: seq<int>, c: nat, q: int)
    requires |labels| == |x|
    ensures Over(labels, c, ReadingSquare(x)) ==
            Over(labels, c, GapFn(x, q)) + (2 * q + 1) * Total(labels, x, c) + -(q * (q + 1)) * Size(labels, c)
  {
    hide Gap, Square, Over;
    var linear := (p: nat) => GapFn(x, q)(p) + (2 * q + 1) * Reading(x)(p);
    OverLinear(labels, c, GapFn(x, q), Reading(x), linear, 2 * q + 1);
    forall p: nat | p < |labels| && labels[p] == c
      ensures ReadingSquare(x)(p) == linear(p) + (-(q * (q + 1))) * ONE(p)
    {
      GapExpand(x[p], q);
    }
    OverLinear(labels, c, linear, ONE, ReadingSquare(x), -(q * (q + 1)));
  }

  lemma SplitMinimumIs(total: int, m: int, q: int)
    requires m > 0 && q == Quotient(total, m)
    ensures SplitMinimum(total, m) == (2 * q + 1) * total + -(q * (q + 1)) * m
  {
    var r := Remainder(total, m);
    SplitArithmetic(total, m, q, r);
    Negated(q * (q + 1), m);
  }

  lemma Negated(a: int, m: int)
    ensures -a * m == -(a * m)
  {
  }

  /** Excess of the squares of a component over the balanced split. */
  lemma ComponentExcess(labels: seq<nat>, x: seq<int>, c: nat)
    requires |labels| == |x| && Size(labels, c) > 0
    ensures var q := Quotient(Total(labels, x, c), Size(labels, c));
            Over(labels, c, ReadingSquare(x)) ==
            SplitMinimum(Total(labels, x, c), Size(labels, c)) + Over(labels, c, GapFn(x, q))
  {
    hide Quotient, SplitMinimum, Over, Total, Size;
    var q := Quotient(Total(labels, x, c), Size(labels, c));
    SquaresByGap(labels, x, c, q);
    SplitMinimumIs(Total(labels, x, c), Size(labels, c), q);
  }

  lemma GapExpand(v: int, q: int)
    ensures Square(v) == Gap(v, q) + (2 * q + 1) * v - q * (q + 1)
  {
  }

  lemma SplitArithmetic(total: int, m: int, q: int, r: int)
    requires total == m * q + r
    ensures (2 * q + 1) * total - q * (q + 1) * m == (m - r) * q * q + r * (q + 1) * (q + 1)
  {
    assert (2 * q + 1) * total == 2 * (m * q * q) + 2 * q * r + m * q + r;
    assert (m - r) * q * q == m * q * q - r * q * q;
    assert r * (q + 1) * (q + 1) == r * q * q + 2 * q * r + r;
    assert q * (q + 1) * m == m * q * q + m * q;
  }

  lemma GapPositive(a: int, b: int, p: int)
    requires a > 0 && b > 0 && p == a * b
    ensures p > 0
  {
  }

  lemma GapMirrored(v: int, q: int)
    ensures Gap(v, q) == (q - v) * (q + 1 - v)
  {
    var vv, vq, qq := v * v, v * q, q * q;
    assert (v - q) * (v - q - 1) == vv - 2 * vq + qq - v + q;
    assert (q - v) * (q + 1 - v) == vv - 2 * vq + qq - v + q;
  }

  lemma GapNonnegative(v: int, q: int)
    ensures Gap(v, q) >= 0
    ensures Gap(v, q) == 0 <==> v == q || v == q + 1
  {
    if v > q + 1 {
      GapPositive(v - q, v - q - 1, Gap(v, q));
    } else if v < q {
      GapMirrored(v, q);
      GapPositive(q - v, q + 1 - v, Gap(v, q));
    }
  }

  lemma EmptyComponent(labels: seq<nat>, c: nat, f: nat -> int)
    requires Size(labels, c) <= 0
    ensures Size(labels, c) == 0
    ensures Over(labels, c, f) == 0
    ensures forall p: nat :: p < |labels| ==> labels[p] != c
  {
    OverNonnegative(labels, c, ONE);
    assert forall p: nat :: p < |labels| && labels[p] == c ==> ONE(p) == 1;
    OverNonnegative(labels, c, f);
  }

  /** The functional never undercuts the minimum of its own totals, and attains it
      exactly on the balanced class. */
  lemma MinimumIsBalanced(labels: seq<nat>, count: nat, x: seq<int>)
    requires |labels| == |x| && Labelled(labels, count)
    ensures V(x) >= VMin(labels, count, x)
    ensures V(x) == VMin(labels, count, x) <==> Balanced(labels, x)
  {
    var squares := (c: nat) => Over(labels, c, ReadingSquare(x));
    var minima := (c: nat) => SplitMinimum(Total(labels, x, c), Size(labels, c));
    var excess := (c: nat) => squares(c) + (-1) * minima(c);
    GroupSum(labels, count, ReadingSquare(x));
    SumLinear(count, squares, minima, excess, -1);
    forall c: nat | c < count
      ensures excess(c) >= 0
      ensures excess(c) == 0 <==>
              forall p: nat :: p < |labels| && labels[p] == c ==>
                x[p] == QuotientAt(labels, x, p) || x[p] == QuotientAt(labels, x, p) + 1
    {
      ExcessOf(labels, x, c);
    }
    SumNonnegative(count, excess);
    if Balanced(labels, x) {
      assert forall c: nat :: c < count ==> excess(c) == 0;
    }
    if forall c: nat :: c < count ==> excess(c) == 0 {
      forall p | 0 <= p < |x|
        ensures x[p] == QuotientAt(labels, x, p) || x[p] == QuotientAt(labels, x, p) + 1
      {
        assert excess(labels[p]) == 0;
      }
    }
  }

  lemma ExcessOf(labels: seq<nat>, x: seq<int>, c: nat)
    requires |labels| == |x|
    ensures var e := Over(labels, c, ReadingSquare(x)) - SplitMinimum(Total(labels, x, c), Size(labels, c));
            e >= 0 && (e == 0 <==>
              forall p: nat :: p < |labels| && labels[p] == c ==>
                x[p] == QuotientAt(labels, x, p) || x[p] == QuotientAt(labels, x, p) + 1)
  {
    if Size(labels, c) > 0 {
      var q := Quotient(Total(labels, x, c), Size(labels, c));
      ComponentExcess(labels, x, c);
      forall p: nat | p < |labels| && labels[p] == c
        ensures GapFn(x, q)(p) >= 0
        ensures GapFn(x, q)(p) == 0 <==> x[p] == QuotientAt(labels, x, p) || x[p] == QuotientAt(labels, x, p) + 1
      {
        GapNonnegative(x[p], q);
      }
      OverNonnegative(labels, c, GapFn(x, q));
    } else {
      EmptyComponent(labels, c, ReadingSquare(x));
      assert SplitMinimum(Total(labels, x, c), 0) == 0;
    }
  }

  // ----- the quotient payload

  /** The readings of component `c` among the first `n` ports, with multiplicity. */
  ghost function ReadingsOf(labels: seq<nat>, x: seq<int>, c: nat, n: nat): multiset<int>
    requires n <= |labels| == |x|
  {
    if n == 0 then multiset{} else
      ReadingsOf(labels, x, c, n - 1) + if labels[n - 1] == c then multiset{x[n - 1]} else multiset{}
  }

  datatype Entry = Entry(size: int, readings: multiset<int>)

  /** The payload that is hashed: per component its size and its multiset of readings. */
  ghost function QuotientPayload(labels: seq<nat>, count: nat, x: seq<int>): (r: seq<Entry>)
    requires |labels| == |x|
    ensures |r| == count
  {
    seq(count, (c: nat) =>
      Entry(Size(labels, c), if |labels| == |x| then ReadingsOf(labels, x, c, |x|) else multiset{}))
  }

  /** `m - r` readings `q` and `r` readings `q + 1`. */
  function BalancedReadings(total: int, m: int): multiset<int>
  {
    var q, r := Quotient(total, m), Remainder(total, m);
    if 0 <= r <= m then multiset{}[q := m - r][q + 1 := r] else multiset{}
  }

  /** The payload expected from the component totals of the loads. */
  ghost function ExpectedPayload(labels: seq<nat>, count: nat, loads: seq<int>): (r: seq<Entry>)
    ensures |r| == count
  {
    seq(count, (c: nat) => Entry(Size(labels, c), BalancedReadings(Total(labels, loads, c), Size(labels, c))))
  }

  ghost function Hits(labels: seq<nat>, x: seq<int>, c: nat, v: int): nat -> int
  {
    (p: nat) => if p < |labels| && labels[p] == c then if p < |x| && x[p] == v then 1 else 0 else 0
  }

  lemma {:induction false} Multiplicity(labels: seq<nat>, x: seq<int>, c: nat, v: int, n: nat)
    requires n <= |labels| == |x|
    ensures ReadingsOf(labels, x, c, n)[v] == Sum(n, Hits(labels, x, c, v))
  {
    if n > 0 {
      Multiplicity(labels, x, c, v, n - 1);
    }
  }

  function Indicator(x: seq<int>, v: int): nat -> int
  {
    (p: nat) => if p < |x| && x[p] == v then 1 else 0
  }

  lemma MultiplicityOver(labels: seq<nat>, x: seq<int>, c: nat, v: int)
    requires |labels| == |x|
    ensures ReadingsOf(labels, x, c, |x|)[v] == Over(labels, c, Indicator(x, v))
  {
    Multiplicity(labels, x, c, v, |x|);
    SumExt(|x|, Hits(labels, x, c, v), In(labels, c, Indicator(x, v)));
  }

  lemma DivModUnique(total: int, m: int, q: int, k: int)
    requires m > 0 && q == total / m && total == k + q * m
    ensures k == total % m
  {
  }

  /** In a component whose readings are all `q` or `q + 1`, `r` ports read `q + 1` and the others `q`. */
  lemma BalancedCounts(labels: seq<nat>, x: seq<int>, c: nat, q: int)
    requires |labels| == |x| && Size(labels, c) > 0 && q == Quotient(Total(labels, x, c), Size(labels, c))
    requires forall p: nat :: p < |labels| && labels[p] == c ==> x[p] == q || x[p] == q + 1
    ensures Over(labels, c, Indicator(x, q + 1)) == Remainder(Total(labels, x, c), Size(labels, c))
    ensures Over(labels, c, Indicator(x, q)) == Size(labels, c) - Remainder(Total(labels, x, c), Size(labels, c))
    ensures forall v :: v != q && v != q + 1 ==> Over(labels, c, Indicator(x, v)) == 0
  {
    OverLinear(labels, c, Indicator(x, q + 1), ONE, Reading(x), q);
    DivModUnique(Total(labels, x, c), Size(labels, c), q, Over(labels, c, Indicator(x, q + 1)));
    OverLinear(labels, c, ONE, Indicator(x, q + 1), Indicator(x, q), -1);
    forall v | v != q && v != q + 1
      ensures Over(labels, c, Indicator(x, v)) == 0
    {
      OverNonnegative(labels, c, Indicator(x, v));
    }
  }

  /** A component whose readings are all `q` or `q + 1` has the balanced multiset. */
  lemma BalancedMultiset(labels: seq<nat>, x: seq<int>, c: nat, q: int)
    requires |labels| == |x| && Size(labels, c) > 0 && q == Quotient(Total(labels, x, c), Size(labels, c))
    requires forall p: nat :: p < |labels| && labels[p] == c ==> x[p] == q || x[p] == q + 1
    ensures ReadingsOf(labels, x, c, |x|) == BalancedReadings(Total(labels, x, c), Size(labels, c))
  {
    hide Over;
    BalancedCounts(labels, x, c, q);
    forall v: int
      ensures ReadingsOf(labels, x, c, |x|)[v] == BalancedReadings(Total(labels, x, c), Size(labels, c))[v]
    {
      MultiplicityOver(labels, x, c, v);
    }
  }

  /** The expected multiset has no readings but `q` and `q + 1`. */
  lemma BalancedReadingsOnly(total: int, m: int, v: int)
    requires v in BalancedReadings(total, m)
    ensures v == Quotient(total, m) || v == Quotient(total, m) + 1
  {
  }

  lemma {:induction false} ReadingPresent(labels: seq<nat>, x: seq<int>, p: nat, n: nat)
    requires p < n <= |labels| == |x|
    ensures x[p] in ReadingsOf(labels, x, labels[p], n)
  {
    if p < n - 1 {
      ReadingPresent(labels, x, p, n - 1);
    }
  }

  /** The payload is the one expected from the totals exactly when the functional is minimal. */
  lemma PayloadIffMinimum(labels: seq<nat>, count: nat, x: seq<int>)
    requires |labels| == |x| && Labelled(labels, count)
    ensures QuotientPayload(labels, count, x) == ExpectedPayload(labels, count, x)
            <==> V(x) == VMin(labels, count, x)
  {
    MinimumIsBalanced(labels, count, x);
    if Balanced(labels, x) {
      forall c: nat | c < count
        ensures QuotientPayload(labels, count, x)[c] == ExpectedPayload(labels, count, x)[c]
      {
        if Size(labels, c) > 0 {
          BalancedMultiset(labels, x, c, Quotient(Total(labels, x, c), Size(labels, c)));
        } else {
          EmptyReadings(labels, x, c);
        }
      }
    }
    if QuotientPayload(labels, count, x) == ExpectedPayload(labels, count, x) {
      forall p | 0 <= p < |x|
        ensures x[p] == QuotientAt(labels, x, p) || x[p] == QuotientAt(labels, x, p) + 1
      {
        var c := labels[p];
        assert QuotientPayload(labels, count, x)[c] == ExpectedPayload(labels, count, x)[c];
        ReadingPresent(labels, x, p, |x|);
        BalancedReadingsOnly(Total(labels, x, c), Size(labels, c), x[p]);
      }
    }
  }

  lemma EmptyReadings(labels: seq<nat>, x: seq<int>, c: nat)
    requires |labels| == |x| && Size(labels, c) <= 0
    ensures ReadingsOf(labels, x, c, |x|) == BalancedReadings(Total(labels, x, c), Size(labels, c))
  {
    EmptyComponent(labels, c, Reading(x));
    forall v: int
      ensures ReadingsOf(labels, x, c, |x|)[v] == 0
    {
      MultiplicityOver(labels, x, c, v);
      EmptyComponent(labels, c, Indicator(x, v));
    }
  }

  /** Minimum and expected payload depend on the component totals only. */
  lemma TotalsDecide(labels: seq<nat>, count: nat, x: seq<int>, y: seq<int>)
    requires forall c: nat :: c < count ==> Total(labels, x, c) == Total(labels, y, c)
    ensures VMin(labels, count, x) == VMin(labels, count, y)
    ensures ExpectedPayload(labels, count, x) == ExpectedPayload(labels, count, y)
  {
    SumExt(count, (c: nat) => SplitMinimum(Total(labels, x, c), Size(labels, c)),
           (c: nat) => SplitMinimum(Total(labels, y, c), Size(labels, c)));
  }
}
