/** Predicting a logged probe from recovered seams, and why the prediction of a true log never fails. */
module Prediction {
  import opened MatrixPower
  import opened Readback
  import opened UnionFind
  import opened Probe

  // ----- the parsed probe

  /** A fraction has a positive denominator. */
  type Fraction = f: (int, nat) | f.1 > 0 witness (0, 1)

  /** A readback vector as fractions `n / d`. */
  type Fractions = map<nat, Fraction>

  /** The fractions stand for the logged decimals, in whatever terms. */
  ghost predicate Stands(entries: map<nat, Decimal>, parsed: Fractions)
  {
    parsed.Keys == entries.Keys && forall q :: q in entries ==> Reads(entries[q], parsed[q].0, parsed[q].1)
  }

  ghost predicate StepStands(vectors: seq<map<nat, Decimal>>, parsed: seq<Fractions>)
  {
    |parsed| == |vectors| && forall p :: 0 <= p < |vectors| ==> Stands(vectors[p], parsed[p])
  }

  ghost predicate ProbeStands(readback: Readbacks, parsed: seq<seq<Fractions>>)
  {
    |parsed| == |readback| && forall k :: 0 <= k < |readback| ==> StepStands(readback[k], parsed[k])
  }

  function Signed(negative: bool, x: int): int { if negative then -x else x }

  function Parse(d: Decimal): (f: Fraction)
    ensures Reads(d, f.0, f.1)
  {
    match d
    case Zero => (0, 1)
    case Decimal(negative, mantissa, shift) =>
      if shift >= 0 then (Signed(negative, mantissa), Pow10(shift))
      else (Signed(negative, mantissa * Pow10(-shift)), 1)
  }

  method ParseVector(entries: map<nat, Decimal>) returns (parsed: Fractions)
    ensures Stands(entries, parsed)
  {
    parsed := map q | q in entries :: Parse(entries[q]);
  }

  method ParseProbe(readback: Readbacks) returns (parsed: seq<seq<Fractions>>)
    ensures ProbeStands(readback, parsed)
  {
    hide Stands;
    parsed := [];
    for k := 0 to |readback|
      invariant |parsed| == k && forall i :: 0 <= i < k ==> StepStands(readback[i], parsed[i])
    {
      var vectors: seq<Fractions> := [];
      for p := 0 to |readback[k]|
        invariant |vectors| == p && forall i :: 0 <= i < p ==> Stands(readback[k][i], vectors[i])
      {
        var v := ParseVector(readback[k][p]);
        vectors := vectors + [v];
      }
      parsed := parsed + [vectors];
    }
  }

  // ----- the prediction test

  /** What was observed at a port; nothing reads as zero. */
  function Seen(parsed: Fractions, q: nat): Fraction
  {
    if q in parsed then parsed[q] else (0, 1)
  }

  ghost function Quotient(n: int, d: int): real { if d == 0 then 0.0 else n as real / d as real }

  ghost function Size(x: real): real { if x < 0.0 then -x else x }

  /** The observed number is within `1 / scale` of the predicted one, relatively. */
  ghost predicate Near(observed: real, predicted: real, scale: nat)
  {
    Size(observed - predicted) * scale as real <= Size(predicted)
  }

  /** The entry lies within tolerance of the predicted `M^(2 n) / (2 S)^(2 n)`; no entry reads as zero. */
  ghost predicate EntryPasses(comp: seq<nat>, seams: seq<Seam>, n: nat, scale: nat, b: nat, a: nat, parsed: Fractions)
    requires a < |comp| && b < |comp|
  {
    Near(if comp[b] in parsed then Quotient(parsed[comp[b]].0, parsed[comp[b]].1) else 0.0,
         Quotient(Numerator(comp, seams, n, b, a), Denominator(seams, n)), scale)
  }

  lemma OverCommon(n: int, d: int, num: int, den: int, u: real, v: real, z: real)
    requires d > 0 && den > 0 && u == n as real / d as real && v == num as real / den as real
    requires z == d as real * den as real
    ensures z > 0.0 && (u - v) * z == (n * den - num * d) as real && v * z == (num * d) as real
  {
    var x, y := d as real, den as real;
    assert u * x == n as real && v * y == num as real;
    assert u * (x * y) == u * x * y && v * (x * y) == v * y * x;
    assert (n * den) as real == n as real * y && (num * d) as real == num as real * x;
    assert (u - v) * z == u * z - v * z;
  }

  lemma SizeTimes(x: real, z: real, m: int)
    requires z > 0.0 && x * z == m as real
    ensures Size(x) * z == Abs(m) as real
  {
    if x < 0.0 {
      assert x * z < 0.0;
      assert -x * z == -(x * z);
    } else {
      assert x * z >= 0.0;
    }
  }

  lemma ScaledOrder(x: real, y: real, s: real, z: real)
    requires z > 0.0
    ensures x * s <= y <==> (x * z) * s <= y * z
  {
    var e := y - x * s;
    assert y * z - (x * z) * s == e * z;
    if e >= 0.0 {
      assert e * z >= 0.0;
    } else {
      assert e * z < 0.0;
    }
  }

  /** The integer test decides the tolerance of the real numbers. */
  lemma ToleranceIsReal(n: int, d: nat, num: int, den: int, scale: nat)
    requires d > 0 && scale > 0 && (num != 0 ==> den > 0)
    ensures WithinTolerance(n, d, num, den, scale) <==> Near(Quotient(n, d), Quotient(num, den), scale)
  {
    hide Near, Abs;
    if num == 0 {
      ZeroPredicted(n, d, Quotient(n, d), Quotient(num, den), scale);
    } else {
      CommonTolerance(n, d, num, den, scale, Quotient(n, d), Quotient(num, den), d as real * den as real);
    }
  }

  lemma ScaleAsReal(x: int, y: int, scale: int)
    ensures x * scale <= y <==> x as real * scale as real <= y as real
  {
    assert (x * scale) as real == x as real * scale as real;
  }

  lemma CommonTolerance(n: int, d: nat, num: int, den: int, scale: nat, u: real, v: real, z: real)
    requires d > 0 && den > 0 && u == n as real / d as real && v == num as real / den as real
    requires z == d as real * den as real
    ensures Abs(n * den - num * d) * scale <= Abs(num * d) <==> Near(u, v, scale)
  {
    hide Abs, Size;
    OverCommon(n, d, num, den, u, v, z);
    SizeTimes(u - v, z, n * den - num * d);
    SizeTimes(v, z, num * d);
    ScaledOrder(Size(u - v), Size(v), scale as real, z);
    ScaleAsReal(Abs(n * den - num * d), Abs(num * d), scale);
  }

  lemma ZeroPredicted(n: int, d: nat, u: real, v: real, scale: nat)
    requires d > 0 && scale > 0 && u == n as real / d as real && v == 0.0
    ensures Near(u, v, scale) <==> n == 0
  {
    assert u * d as real == n as real;
    if n != 0 {
      assert Size(u) > 0.0;
      assert Size(u) * scale as real > 0.0;
    }
  }

  lemma PassIsTest(comp: seq<nat>, seams: seq<Seam>, n: nat, scale: nat, b: nat, a: nat, parsed: Fractions)
    requires a < |comp| && b < |comp| && scale > 0
    ensures EntryPasses(comp, seams, n, scale, b, a, parsed) <==>
      WithinTolerance(Seen(parsed, comp[b]).0, Seen(parsed, comp[b]).1,
                      Numerator(comp, seams, n, b, a), Denominator(seams, n), scale)
  {
    hide Numerator, Denominator, WithinTolerance, Near;
    var o := Seen(parsed, comp[b]);
    if Numerator(comp, seams, n, b, a) != 0 {
      DenominatorPositive(comp, seams, n, b, a);
    }
    ToleranceIsReal(o.0, o.1, Numerator(comp, seams, n, b, a), Denominator(seams, n), scale);
  }

  predicate Known(comp: seq<nat>, vectors: seq<Fractions>)
  {
    forall a :: 0 <= a < |comp| ==> comp[a] < |vectors|
  }

  /** Every entry of the component is within tolerance of its prediction. */
  ghost predicate StepPasses(comp: seq<nat>, seams: seq<Seam>, n: nat, scale: nat, vectors: seq<Fractions>)
    requires Known(comp, vectors)
  {
    forall a: nat, b: nat :: a < |comp| && b < |comp| ==>
      EntryPasses(comp, seams, n, scale, b, a, vectors[comp[a]])
  }

  /** Nothing is read back outside the component. */
  ghost predicate Supported(comp: seq<nat>, vectors: seq<Fractions>)
    requires Known(comp, vectors)
  {
    forall a: nat, q :: a < |comp| && q in vectors[comp[a]] ==> q in comp
  }

  method PredictStart(comp: seq<nat>, ghost seams: seq<Seam>, ghost n: nat, scale: nat, power: Matrix, den: int, a: nat,
                      parsed: Fractions) returns (ok: bool)
    requires a < |comp| && Square(power, |comp|) && den == Denominator(seams, n) && scale > 0
    requires forall b: nat :: b < |comp| ==> At(power, b, a) == Numerator(comp, seams, n, b, a)
    ensures ok <==> forall b: nat :: b < |comp| ==> EntryPasses(comp, seams, n, scale, b, a, parsed)
  {
    hide Numerator, Denominator, WithinTolerance, EntryPasses;
    ok := true;
    for b := 0 to |comp|
      invariant ok <==> forall i: nat :: i < b ==> EntryPasses(comp, seams, n, scale, i, a, parsed)
    {
      var o := Seen(parsed, comp[b]);
      assert At(power, b, a) == Numerator(comp, seams, n, b, a);
      PassIsTest(comp, seams, n, scale, b, a, parsed);
      if !WithinTolerance(o.0, o.1, At(power, b, a), den, scale) {
        ok := false;
      }
    }
  }

  method PredictStep(comp: seq<nat>, seams: seq<Seam>, n: nat, scale: nat, c: seq<int>, vectors: seq<Fractions>)
    returns (ok: bool)
    requires comp != [] && Distinct(comp) && ProperSeams(seams) && Suits(c, comp, seams) && Known(comp, vectors)
    requires scale > 0
    ensures ok <==> StepPasses(comp, seams, n, scale, vectors)
  {
    hide EntryPasses, Suits, Numerator, Denominator;
    var power, den := ExpectationPower(comp, seams, n, c);
    ok := true;
    for a := 0 to |comp|
      invariant ok <==> forall i: nat, b: nat :: i < a && b < |comp| ==>
        EntryPasses(comp, seams, n, scale, b, i, vectors[comp[i]])
    {
      var passes := PredictStart(comp, seams, n, scale, power, den, a, vectors[comp[a]]);
      ok := ok && passes;
    }
  }

  method SupportOf(comp: seq<nat>, vectors: seq<Fractions>) returns (ok: bool)
    requires Known(comp, vectors)
    ensures ok <==> Supported(comp, vectors)
  {
    ok := true;
    for a := 0 to |comp|
      invariant ok <==> forall i: nat, q :: i < a && q in vectors[comp[i]] ==> q in comp
    {
      ok := ok && forall q :: q in vectors[comp[a]] ==> q in comp;
    }
  }

  ghost predicate AllKnown(comp: seq<nat>, parsed: seq<seq<Fractions>>)
  {
    forall k :: 0 <= k < |parsed| ==> Known(comp, parsed[k])
  }

  /** Every entry of every step is within tolerance. */
  ghost predicate ProbePasses(comp: seq<nat>, seams: seq<Seam>, steps: seq<nat>, scale: nat,
                              parsed: seq<seq<Fractions>>)
    requires |parsed| == |steps| && AllKnown(comp, parsed)
  {
    forall k :: 0 <= k < |steps| ==> StepPasses(comp, seams, steps[k], scale, parsed[k])
  }

  ghost predicate AllSupported(comp: seq<nat>, parsed: seq<seq<Fractions>>)
    requires AllKnown(comp, parsed)
  {
    forall k :: 0 <= k < |parsed| ==> Supported(comp, parsed[k])
  }

  /** The probe predicted from the seams, entry by entry, and its support. */
  method PredictProbe(comp: seq<nat>, seams: seq<Seam>, steps: seq<nat>, digits: nat, c: seq<int>,
                      parsed: seq<seq<Fractions>>) returns (passes: bool, supported: bool)
    requires comp != [] && Distinct(comp) && ProperSeams(seams) && Suits(c, comp, seams) && digits >= 3
    requires |parsed| == |steps| && AllKnown(comp, parsed)
    ensures passes <==> ProbePasses(comp, seams, steps, Pow10(digits - 3), parsed)
    ensures supported <==> AllSupported(comp, parsed)
  {
    hide StepPasses, Supported, Suits, Known, Distinct;
    passes, supported := true, true;
    for k := 0 to |steps|
      invariant passes <==> forall i :: 0 <= i < k ==> StepPasses(comp, seams, steps[i], Pow10(digits - 3), parsed[i])
      invariant supported <==> forall i :: 0 <= i < k ==> Supported(comp, parsed[i])
    {
      var p := PredictStep(comp, seams, steps[k], Pow10(digits - 3), c, parsed[k]);
      var s := SupportOf(comp, parsed[k]);
      passes, supported := passes && p, supported && s;
    }
  }

  // ----- one list of seams for another

  ghost predicate SameSeams(seams: seq<Seam>, other: seq<Seam>)
  {
    forall s :: s in seams <==> s in other
  }

  lemma {:induction false} CountOne(seams: seq<Seam>, s: Seam)
    requires Unrepeated(seams)
    ensures multiset(seams)[s] == if s in seams then 1 else 0
  {
    if seams != [] {
      var last := |seams| - 1;
      var front := seams[..last];
      assert seams == front + [seams[last]];
      CountOne(front, s);
    }
  }

  lemma SameBag(seams: seq<Seam>, other: seq<Seam>)
    requires Unrepeated(seams) && Unrepeated(other) && SameSeams(seams, other)
    ensures multiset(seams) == multiset(other) && |seams| == |other|
  {
    forall s: Seam
      ensures multiset(seams)[s] == multiset(other)[s]
    {
      CountOne(seams, s);
      CountOne(other, s);
    }
    assert multiset(seams) == multiset(other);
    assert |seams| == |multiset(seams)| && |other| == |multiset(other)|;
  }

  lemma SameLinks(seams: seq<Seam>, other: seq<Seam>, x: nat, y: nat)
    requires SameSeams(seams, other) && Linked(seams, x, y)
    ensures Linked(other, x, y)
  {
    var w :| WalkFrom(seams, w, x, y);
    forall k | 0 <= k < |w| - 1
      ensures Joined(other, w[k], w[k + 1])
    {
      assert Joined(seams, w[k], w[k + 1]);
    }
    assert WalkFrom(other, w, x, y);
  }

  lemma SameComponent(ports: nat, seams: seq<Seam>, other: seq<Seam>, comp: seq<nat>)
    requires SameSeams(seams, other) && IsComponent(ports, seams, comp)
    ensures IsComponent(ports, other, comp)
  {
    hide Linked, SameSeams;
    SameSeamsBack(seams, other);
    forall x: nat, y: nat | x in comp
      ensures x < ports && (y in comp <==> y < ports && Linked(other, x, y))
    {
      if Linked(seams, x, y) {
        SameLinks(seams, other, x, y);
      }
      if Linked(other, x, y) {
        SameLinks(other, seams, x, y);
      }
    }
  }

  lemma SameSeamsBack(seams: seq<Seam>, other: seq<Seam>)
    requires SameSeams(seams, other)
    ensures SameSeams(other, seams)
  {
  }

  /** The order of the seams does not change what is predicted. */
  lemma SameNumerator(comp: seq<nat>, seams: seq<Seam>, other: seq<Seam>, n: nat, b: nat, a: nat)
    requires multiset(seams) == multiset(other) && |seams| == |other|
    ensures Numerator(comp, seams, n, b, a) == Numerator(comp, other, n, b, a)
    ensures Denominator(seams, n) == Denominator(other, n)
  {
    ExpectationReordered(comp, seams, other, |seams|);
  }

  lemma SameSuits(c: seq<int>, comp: seq<nat>, seams: seq<Seam>, other: seq<Seam>)
    requires multiset(seams) == multiset(other) && |seams| == |other| && Suits(c, comp, seams)
    ensures Suits(c, comp, other)
  {
    ExpectationReordered(comp, seams, other, |seams|);
  }

  // ----- the prediction never fails

  lemma EntryAlwaysPasses(comp: seq<nat>, seams: seq<Seam>, n: nat, digits: nat, b: nat, a: nat,
                          entries: map<nat, Decimal>, parsed: Fractions)
    requires a < |comp| && b < |comp| && digits >= 3
    requires EntryRight(comp, seams, n, digits, b, a, entries) && Stands(entries, parsed)
    ensures EntryPasses(comp, seams, n, Pow10(digits - 3), b, a, parsed)
  {
    hide Numerator, Denominator, Rounds, Reads, Pow10, EntryPasses;
    var num, den, q := Numerator(comp, seams, n, b, a), Denominator(seams, n), comp[b];
    if q in entries {
      assert q in parsed;
      PredictionPasses(num, den, digits, entries[q], parsed[q].0, parsed[q].1);
    } else {
      assert q !in parsed;
    }
    PassIsTest(comp, seams, n, Pow10(digits - 3), b, a, parsed);
  }

  lemma StepAlwaysPasses(comp: seq<nat>, seams: seq<Seam>, n: nat, digits: nat,
                         vectors: seq<map<nat, Decimal>>, parsed: seq<Fractions>)
    requires digits >= 3 && ComponentRight(comp, seams, n, digits, vectors) && StepStands(vectors, parsed)
    ensures Known(comp, parsed)
    ensures StepPasses(comp, seams, n, Pow10(digits - 3), parsed) && Supported(comp, parsed)
  {
    hide EntryRight, EntryPasses;
    var scale := Pow10(digits - 3);
    forall a: nat, b: nat | a < |comp| && b < |comp|
      ensures EntryPasses(comp, seams, n, scale, b, a, parsed[comp[a]])
    {
      assert VectorRight(comp, seams, n, digits, a, vectors[comp[a]]);
      EntryAlwaysPasses(comp, seams, n, digits, b, a, vectors[comp[a]], parsed[comp[a]]);
    }
    forall a: nat, q | a < |comp| && q in parsed[comp[a]]
      ensures q in comp
    {
      assert VectorRight(comp, seams, n, digits, a, vectors[comp[a]]);
      assert Stands(vectors[comp[a]], parsed[comp[a]]);
    }
  }

  lemma SameStep(comp: seq<nat>, seams: seq<Seam>, other: seq<Seam>, n: nat, scale: nat, vectors: seq<Fractions>)
    requires multiset(seams) == multiset(other) && |seams| == |other|
    requires Known(comp, vectors) && StepPasses(comp, seams, n, scale, vectors)
    ensures StepPasses(comp, other, n, scale, vectors)
  {
    hide Numerator, Denominator, Near;
    forall a: nat, b: nat | a < |comp| && b < |comp|
      ensures EntryPasses(comp, other, n, scale, b, a, vectors[comp[a]])
    {
      assert EntryPasses(comp, seams, n, scale, b, a, vectors[comp[a]]);
      SameNumerator(comp, seams, other, n, b, a);
    }
  }

  /** A probe log of some seams, predicted from any list of the same seams, passes at every entry. */
  lemma TrueProbePasses(ports: nat, seams: seq<Seam>, other: seq<Seam>, comp: seq<nat>, steps: seq<nat>, digits: nat,
                        readback: Readbacks, parsed: seq<seq<Fractions>>)
    requires digits >= 3 && ProbeRight(ports, seams, steps, digits, readback) && ProbeStands(readback, parsed)
    requires Unrepeated(seams) && Unrepeated(other) && SameSeams(seams, other) && IsComponent(ports, other, comp)
    ensures |parsed| == |steps| && AllKnown(comp, parsed)
    ensures ProbePasses(comp, other, steps, Pow10(digits - 3), parsed) && AllSupported(comp, parsed)
  {
    hide ComponentRight, StepStands, Known, StepPasses, Supported, IsComponent, Unrepeated, SameSeams;
    SameBag(seams, other);
    SameSeamsBack(seams, other);
    SameComponent(ports, other, seams, comp);
    forall k | 0 <= k < |parsed|
      ensures Known(comp, parsed[k]) && Supported(comp, parsed[k])
      ensures StepPasses(comp, other, steps[k], Pow10(digits - 3), parsed[k])
    {
      assert StepRight(ports, seams, steps[k], digits, readback[k]);
      StepAlwaysPasses(comp, seams, steps[k], digits, readback[k], parsed[k]);
      SameStep(comp, seams, other, steps[k], Pow10(digits - 3), parsed[k]);
    }
  }

  /** Recovery of a log's own probe: the flags of a true log are both set. */
  method PredictRecord(ports: nat, ghost seams: seq<Seam>, other: seq<Seam>, comp: seq<nat>, record: Record,
                       poly: Polynomials) returns (passes: bool, supported: bool, parsed: seq<seq<Fractions>>)
    requires IsRecord(ports, seams, record) && record.digits >= 3 && AllSuit(poly, ports, seams)
    requires Unrepeated(seams) && Unrepeated(other) && SameSeams(seams, other) && IsComponent(ports, other, comp)
    requires ProperSeams(other)
    ensures passes && supported && ProbeStands(record.readback, parsed)
    ensures |parsed| == |record.steps| && AllKnown(comp, parsed) && AllSupported(comp, parsed)
    ensures ProbePasses(comp, other, record.steps, Pow10(record.digits - 3), parsed)
  {
    hide ProbeRight, ProbeStands, AllKnown, ProbePasses, AllSupported, IsComponent, Suits, Unrepeated, SameSeams;
    hide ProperSeams, Distinct;
    parsed := ParseProbe(record.readback);
    TrueProbePasses(ports, seams, other, comp, record.steps, record.digits, record.readback, parsed);
    SameBag(seams, other);
    SameSeamsBack(seams, other);
    SameComponent(ports, other, seams, comp);
    SameSuits(poly(comp), comp, seams, other);
    ComponentShape(ports, other, comp);
    passes, supported := PredictProbe(comp, other, record.steps, record.digits, poly(comp), parsed);
  }
}
