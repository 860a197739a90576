/** Label systems with tilted weights, and the law of label paths. */
module TiltedKernel {
  import opened Basics
  import opened Sums

  /** `next[s][m]` is the state that label `m` leads to from `s`, `drop[s][m]` the change of the potential. */
  datatype Sector = Sector(labels: nat, next: seq<seq<nat>>, drop: seq<seq<int>>)
  {
    predicate Valid()
    {
      && |drop| == |next|
      && forall s: nat :: s < |next| ==>
           && |next[s]| == labels && |drop[s]| == labels
           && forall m: nat :: m < labels ==> next[s][m] < |next|
    }
  }

  /** The tilt `2^(-beta d)` of a decrement that is not positive. */
  function Tilt(beta: nat, d: int): (r: nat)
    requires d <= 0
    ensures r >= 1
  {
    assert beta * -d >= 0;
    Pow2(beta * -d)
  }

  lemma TiltAdds(beta: nat, d: int, e: int)
    requires d <= 0 && e <= 0
    ensures Tilt(beta, d + e) == Tilt(beta, d) * Tilt(beta, e)
  {
    assert beta * -d >= 0 && beta * -e >= 0;
    assert beta * -(d + e) == beta * -d + beta * -e;
    Pow2Adds(beta * -d, beta * -e);
  }

  datatype Kernel = Kernel(weight: seq<seq<nat>>, partition: seq<nat>)

  function Total(row: seq<nat>): nat
  {
    if row == [] then 0 else Total(row[..|row| - 1]) + row[|row| - 1]
  }

  /** Every decrement lowers the potential or keeps it. */
  predicate Descends(sector: Sector)
    requires sector.Valid()
  {
    forall s: nat, m: nat :: s < |sector.next| && m < sector.labels ==> sector.drop[s][m] <= 0
  }

  predicate RowTilted(sector: Sector, beta: nat, s: nat, row: seq<nat>)
    requires sector.Valid() && s < |sector.next|
  {
    |row| == sector.labels && forall m: nat :: m < sector.labels ==>
      sector.drop[s][m] <= 0 && row[m] == Tilt(beta, sector.drop[s][m])
  }

  /** The kernel of a sector: weights are the tilts, the partition sums the row. */
  predicate Tilted(sector: Sector, beta: nat, kernel: Kernel)
    requires sector.Valid()
  {
    && |kernel.weight| == |sector.next| && |kernel.partition| == |sector.next|
    && forall s: nat :: s < |sector.next| ==>
         RowTilted(sector, beta, s, kernel.weight[s]) && kernel.partition[s] == Total(kernel.weight[s])
  }

  // ----- what a weight is

  /** `w` doubled so many times. */
  ghost function Doubled(w: int, times: nat): int
  {
    if times == 0 then w else 2 * Doubled(w, times - 1)
  }

  lemma {:induction false} DoubledIs(w: int, times: nat)
    ensures Doubled(w, times) == w * Pow2(times)
  {
    if times > 0 {
      DoubledIs(w, times - 1);
      assert 2 * (w * Pow2(times - 1)) == w * (2 * Pow2(times - 1));
    }
  }

  lemma {:induction false} DoubledTwice(w: int, j: nat, k: nat)
    ensures Doubled(Doubled(w, j), k) == Doubled(w, j + k)
  {
    if k > 0 {
      DoubledTwice(w, j, k - 1);
    }
  }

  ghost predicate IsWeight(beta: nat, d: int, w: int)
  {
    d <= 0 && beta * -d >= 0 && w == Doubled(1, beta * -d)
  }

  lemma TiltIsWeight(beta: nat, d: int)
    requires d <= 0
    ensures IsWeight(beta, d, Tilt(beta, d))
  {
    assert beta * -d >= 0;
    DoubledIs(1, beta * -d);
  }

  function Weights(row: seq<nat>): nat -> int
  {
    (m: nat) => if m < |row| then row[m] else 0
  }

  /** Every weight is one, doubled `beta` times per unit that the decrement lies below zero; partitions are row sums. */
  ghost predicate DoublesPerUnit(sector: Sector, beta: nat, kernel: Kernel)
    requires sector.Valid()
  {
    && |kernel.weight| == |kernel.partition| == |sector.next|
    && forall s: nat :: s < |sector.next| ==>
         && |kernel.weight[s]| == sector.labels
         && kernel.partition[s] == Sum(sector.labels, Weights(kernel.weight[s]))
         && forall m: nat :: m < sector.labels ==> IsWeight(beta, sector.drop[s][m], kernel.weight[s][m])
  }

  lemma {:induction false} TotalIsSum(row: seq<nat>, m: nat)
    requires m <= |row|
    ensures Total(row[..m]) == Sum(m, Weights(row))
  {
    if m > 0 {
      TotalIsSum(row, m - 1);
      assert row[..m][..m - 1] == row[..m - 1];
    }
  }

  lemma TiltedDoubles(sector: Sector, beta: nat, kernel: Kernel)
    requires sector.Valid() && Tilted(sector, beta, kernel)
    ensures DoublesPerUnit(sector, beta, kernel)
  {
    hide Tilt, Total, IsWeight;
    forall s: nat | s < |sector.next|
      ensures |kernel.weight[s]| == sector.labels
      ensures kernel.partition[s] == Sum(sector.labels, Weights(kernel.weight[s]))
      ensures forall m: nat :: m < sector.labels ==> IsWeight(beta, sector.drop[s][m], kernel.weight[s][m])
    {
      var row := kernel.weight[s];
      assert RowTilted(sector, beta, s, row);
      TotalIsSum(row, |row|);
      assert row[..|row|] == row;
      forall m: nat | m < sector.labels
        ensures IsWeight(beta, sector.drop[s][m], row[m])
      {
        TiltIsWeight(beta, sector.drop[s][m]);
      }
    }
  }

  /** A decrement lower by `u` weighs as much as the other one doubled `beta` times per unit. */
  lemma WeightDoubles(beta: nat, d: int, w: int, u: nat, w': int)
    requires IsWeight(beta, d, w) && IsWeight(beta, d - u, w')
    ensures d == 0 ==> w == 1
    ensures beta * u >= 0 && w' == Doubled(w, beta * u)
  {
    assert beta * u >= 0;
    assert beta * -(d - u) == beta * -d + beta * u;
    DoubledTwice(1, beta * -d, beta * u);
  }

  /** Without tilt all weights are one and a partition is the number of labels. */
  lemma {:induction false} NoTilt(sector: Sector, kernel: Kernel, s: nat, m: nat)
    requires sector.Valid() && DoublesPerUnit(sector, 0, kernel) && s < |sector.next| && m <= sector.labels
    ensures m < sector.labels ==> kernel.weight[s][m] == 1
    ensures Sum(m, Weights(kernel.weight[s])) == m
    ensures m == sector.labels ==> kernel.partition[s] == sector.labels
  {
    if m < sector.labels {
      assert IsWeight(0, sector.drop[s][m], kernel.weight[s][m]);
    }
    if m > 0 {
      NoTilt(sector, kernel, s, m - 1);
    }
  }

  method BuildRow(sector: Sector, beta: nat, s: nat) returns (r: Option<(seq<nat>, nat)>)
    requires sector.Valid() && s < |sector.next|
    ensures r.None? <==> exists m: nat :: m < sector.labels && sector.drop[s][m] > 0
    ensures r.Some? ==> RowTilted(sector, beta, s, r.value.0) && r.value.1 == Total(r.value.0)
  {
    var row: seq<nat>, z := [], 0;
    for m := 0 to sector.labels
      invariant |row| == m && z == Total(row)
      invariant forall i: nat :: i < m ==> sector.drop[s][i] <= 0 && row[i] == Tilt(beta, sector.drop[s][i])
    {
      if sector.drop[s][m] > 0 {
        return None;
      }
      var w := Tilt(beta, sector.drop[s][m]);
      assert (row + [w])[..m] == row;
      row, z := row + [w], z + w;
    }
    r := Some((row, z));
  }

  /** Refuses a table with a positive decrement, else tabulates the tilts. */
  method BuildKernel(sector: Sector, beta: nat) returns (r: Option<Kernel>)
    requires sector.Valid()
    ensures r.Some? <==> Descends(sector)
    ensures r.Some? ==> Tilted(sector, beta, r.value) && DoublesPerUnit(sector, beta, r.value)
  {
    hide Total, Tilt, DoublesPerUnit;
    var weight: seq<seq<nat>>, partition: seq<nat> := [], [];
    for s := 0 to |sector.next|
      invariant |weight| == |partition| == s
      invariant forall i: nat, m: nat :: i < s && m < sector.labels ==> sector.drop[i][m] <= 0
      invariant forall i: nat :: i < s ==>
        RowTilted(sector, beta, i, weight[i]) && partition[i] == Total(weight[i])
    {
      var row := BuildRow(sector, beta, s);
      if row.None? {
        return None;
      }
      weight, partition := weight + [row.value.0], partition + [row.value.1];
    }
    TiltedDoubles(sector, beta, Kernel(weight, partition));
    r := Some(Kernel(weight, partition));
  }

  lemma {:induction false} TotalAtLeast(row: seq<nat>, m: nat)
    requires m < |row|
    ensures Total(row) >= row[m]
  {
    if m < |row| - 1 {
      TotalAtLeast(row[..|row| - 1], m);
    }
  }

  lemma WeightsPositive(sector: Sector, beta: nat, kernel: Kernel, s: nat, m: nat)
    requires sector.Valid() && Tilted(sector, beta, kernel) && s < |sector.next| && m < sector.labels
    ensures |kernel.weight[s]| == sector.labels && kernel.weight[s][m] > 0 && kernel.partition[s] > 0
  {
    assert RowTilted(sector, beta, s, kernel.weight[s]);
    TotalAtLeast(kernel.weight[s], m);
  }
}
