/** Layered reads on a read relation: values per round, cones, distances. */
module ReadNet {
  import opened Basics

  /** `rows[i]` lists the registers that site `i` reads. */
  type Rows = seq<seq<nat>>

  predicate WellFormed(rows: Rows)
  {
    forall i :: 0 <= i < |rows| ==> forall k :: 0 <= k < |rows[i]| ==> rows[i][k] < |rows|
  }

  predicate SelfReads(rows: Rows)
  {
    forall i: nat :: i < |rows| ==> i in rows[i]
  }

  predicate Symmetric(rows: Rows)
  {
    forall i: nat, j: nat :: i < |rows| && j < |rows| ==> (i in rows[j] <==> j in rows[i])
  }

  // ----- values

  function RowSum(prev: seq<int>, row: seq<nat>): int
    requires forall k :: 0 <= k < |row| ==> row[k] < |prev|
  {
    if row == [] then 0 else RowSum(prev, row[..|row| - 1]) + prev[row[|row| - 1]]
  }

  /** The values of round `j`, from the seeds: one more than the sum of the values read. */
  ghost function Layer(rows: Rows, seed: seq<int>, j: nat): (r: seq<int>)
    requires WellFormed(rows) && |seed| == |rows|
    ensures |r| == |rows|
    decreases j
  {
    if j == 0 then seed else
      seq(|rows|, i requires 0 <= i < |rows| => 1 + RowSum(Layer(rows, seed, j - 1), rows[i]))
  }

  /** Seeds `i + 1`, one more at the intervention site. */
  function Seeds(n: nat, intervention: Option<nat>): (r: seq<int>)
    ensures |r| == n
    ensures forall i :: 0 <= i < n ==> r[i] == 1 + i + (if intervention == Some(i) then 1 else 0)
  {
    seq(n, i requires 0 <= i < n => 1 + i + (if intervention == Some(i) then 1 else 0))
  }

  method SumRow(prev: seq<int>, row: seq<nat>) returns (total: int)
    requires forall k :: 0 <= k < |row| ==> row[k] < |prev|
    ensures total == RowSum(prev, row)
  {
    total := 0;
    for k := 0 to |row|
      invariant total == RowSum(prev, row[..k])
    {
      assert row[..k + 1][..k] == row[..k];
      total := total + prev[row[k]];
    }
    assert row[..|row|] == row;
  }

  method NextLayer(rows: Rows, prev: seq<int>) returns (cur: seq<int>)
    requires WellFormed(rows) && |prev| == |rows|
    ensures |cur| == |rows| && forall k :: 0 <= k < |rows| ==> cur[k] == 1 + RowSum(prev, rows[k])
  {
    cur := [];
    for i := 0 to |rows|
      invariant |cur| == i && forall k :: 0 <= k < i ==> cur[k] == 1 + RowSum(prev, rows[k])
    {
      var total := SumRow(prev, rows[i]);
      cur := cur + [1 + total];
    }
  }

  lemma LayerZero(rows: Rows, seed: seq<int>)
    requires WellFormed(rows) && |seed| == |rows|
    ensures Layer(rows, seed, 0) == seed
  {
  }

  lemma LayerNext(rows: Rows, seed: seq<int>, j: nat, prev: seq<int>, cur: seq<int>)
    requires WellFormed(rows) && |seed| == |rows| && j > 0 && prev == Layer(rows, seed, j - 1)
    requires |cur| == |rows| && forall k :: 0 <= k < |rows| ==> cur[k] == 1 + RowSum(prev, rows[k])
    ensures cur == Layer(rows, seed, j)
  {
    hide RowSum;
  }

  /** Execute the rounds `0, ..., rounds` of complete-neighbour reads. */
  method RunReads(rows: Rows, rounds: nat, intervention: Option<nat>) returns (values: seq<seq<int>>)
    requires WellFormed(rows)
    ensures |values| == rounds + 1
    ensures forall j :: 0 <= j <= rounds ==> values[j] == Layer(rows, Seeds(|rows|, intervention), j)
  {
    hide RowSum, Seeds, Layer, WellFormed;
    ghost var seed := Seeds(|rows|, intervention);
    var prev := Seeds(|rows|, intervention);
    values := [prev];
    LayerZero(rows, seed);
    for j := 1 to rounds + 1
      invariant |values| == j && prev == Layer(rows, seed, j - 1)
      invariant forall i :: 0 <= i < j ==> values[i] == Layer(rows, seed, i)
    {
      var cur := NextLayer(rows, prev);
      LayerNext(rows, seed, j, prev, cur);
      values := values + [cur];
      prev := cur;
    }
  }

  // ----- cones

  /** Site `t` in round `j + k` depends on site `s` in round `j`. */
  ghost predicate InCone(rows: Rows, s: nat, k: nat, t: nat)
    requires WellFormed(rows) && t < |rows|
    decreases k
  {
    if k == 0 then s == t else exists m :: 0 <= m < |rows[t]| && InCone(rows, s, k - 1, rows[t][m])
  }

  lemma ConeStep(rows: Rows, s: nat, k: nat, u: nat, t: nat)
    requires WellFormed(rows) && t < |rows| && u in rows[t] && u < |rows| && InCone(rows, s, k, u)
    ensures InCone(rows, s, k + 1, t)
  {
    var m :| 0 <= m < |rows[t]| && rows[t][m] == u;
    assert InCone(rows, s, k, rows[t][m]);
  }

  lemma ConeBack(rows: Rows, s: nat, k: nat, t: nat) returns (u: nat)
    requires WellFormed(rows) && t < |rows| && k > 0 && InCone(rows, s, k, t)
    ensures u < |rows| && u in rows[t] && InCone(rows, s, k - 1, u)
  {
    var m :| 0 <= m < |rows[t]| && InCone(rows, s, k - 1, rows[t][m]);
    u := rows[t][m];
  }

  /** With self-reads a cone only grows. */
  lemma {:induction false} ConeGrows(rows: Rows, s: nat, k: nat, l: nat, t: nat)
    requires WellFormed(rows) && SelfReads(rows) && t < |rows| && k <= l && InCone(rows, s, k, t)
    ensures InCone(rows, s, l, t)
    decreases l
  {
    if k < l {
      ConeGrows(rows, s, k, l - 1, t);
      ConeStep(rows, s, l - 1, t, t);
    }
  }

  lemma {:induction false} ConeJoins(rows: Rows, s: nat, j: nat, u: nat, k: nat, t: nat)
    requires WellFormed(rows) && u < |rows| && t < |rows|
    requires InCone(rows, s, j, u) && InCone(rows, u, k, t)
    ensures InCone(rows, s, j + k, t)
    decreases k
  {
    if k > 0 {
      var v := ConeBack(rows, u, k, t);
      ConeJoins(rows, s, j, u, k - 1, v);
      ConeStep(rows, s, j + k - 1, v, t);
    }
  }

  /** On a symmetric relation cones run both ways. */
  lemma {:induction false} ConeReverses(rows: Rows, s: nat, k: nat, t: nat)
    requires WellFormed(rows) && Symmetric(rows) && s < |rows| && t < |rows| && InCone(rows, s, k, t)
    ensures InCone(rows, t, k, s)
    decreases k
  {
    if k > 0 {
      var u := ConeBack(rows, s, k, t);
      ConeReverses(rows, s, k - 1, u);
      assert InCone(rows, t, 0, t);
      ConeStep(rows, t, 0, t, u);
      ConeJoins(rows, t, 1, u, k - 1, s);
    }
  }

  // ----- distances

  /** `w` walks along reads. */
  ghost predicate Walk(rows: Rows, w: seq<nat>)
  {
    && |w| > 0
    && (forall k :: 0 <= k < |w| ==> w[k] < |rows|)
    && forall k :: 0 <= k < |w| - 1 ==> w[k] in rows[w[k + 1]]
  }

  ghost predicate WalkBetween(rows: Rows, w: seq<nat>, s: nat, t: nat)
  {
    Walk(rows, w) && w[0] == s && w[|w| - 1] == t
  }

  /** Some walk of at most `k` steps joins `s` to `t`. */
  ghost predicate DistanceAtMost(rows: Rows, s: nat, t: nat, k: nat)
  {
    exists w :: WalkBetween(rows, w, s, t) && |w| - 1 <= k
  }

  lemma {:induction false} WalkInCone(rows: Rows, w: seq<nat>)
    requires WellFormed(rows) && Walk(rows, w)
    ensures InCone(rows, w[0], |w| - 1, w[|w| - 1])
    decreases |w|
  {
    if |w| > 1 {
      var last := |w| - 1;
      WalkInCone(rows, w[..last]);
      assert w[last - 1] in rows[w[last - 1 + 1]];
      ConeStep(rows, w[0], last - 1, w[last - 1], w[last]);
    }
  }

  lemma {:induction false} ConeHasWalk(rows: Rows, s: nat, k: nat, t: nat) returns (w: seq<nat>)
    requires WellFormed(rows) && s < |rows| && t < |rows| && InCone(rows, s, k, t)
    ensures WalkBetween(rows, w, s, t) && |w| == k + 1
    decreases k
  {
    if k == 0 {
      w := [s];
    } else {
      var u := ConeBack(rows, s, k, t);
      var v := ConeHasWalk(rows, s, k - 1, u);
      w := v + [t];
    }
  }

  /** With self-reads the cone after `k` rounds is the ball of radius `k`. */
  lemma ConeIsBall(rows: Rows, s: nat, k: nat, t: nat)
    requires WellFormed(rows) && SelfReads(rows) && s < |rows| && t < |rows|
    ensures InCone(rows, s, k, t) <==> DistanceAtMost(rows, s, t, k)
  {
    if InCone(rows, s, k, t) {
      var w := ConeHasWalk(rows, s, k, t);
    }
    if DistanceAtMost(rows, s, t, k) {
      var w :| WalkBetween(rows, w, s, t) && |w| - 1 <= k;
      WalkInCone(rows, w);
      ConeGrows(rows, s, |w| - 1, k, t);
    }
  }

  // ----- the intervention

  ghost predicate Later(rows: Rows, seed: seq<int>, seed': seq<int>, j: nat, s: nat)
    requires WellFormed(rows) && |seed| == |seed'| == |rows|
  {
    forall i: nat :: i < |rows| ==>
      && Layer(rows, seed', j)[i] >= Layer(rows, seed, j)[i]
      && (Layer(rows, seed', j)[i] > Layer(rows, seed, j)[i] <==> InCone(rows, s, j, i))
  }

  /** Row sums of two layers differ exactly when the row meets a difference. */
  lemma {:induction false} RowSumsDiffer(a: seq<int>, b: seq<int>, row: seq<nat>)
    requires |a| == |b| && forall k :: 0 <= k < |row| ==> row[k] < |a|
    requires forall i :: 0 <= i < |a| ==> b[i] >= a[i]
    ensures RowSum(b, row) >= RowSum(a, row)
    ensures RowSum(b, row) > RowSum(a, row) <==> exists k :: 0 <= k < |row| && b[row[k]] > a[row[k]]
  {
    if row != [] {
      var last := |row| - 1;
      RowSumsDiffer(a, b, row[..last]);
      if k :| 0 <= k < |row| && b[row[k]] > a[row[k]] {
        if k < last {
          assert row[..last][k] == row[k];
        }
      }
      if RowSum(b, row) > RowSum(a, row) && b[row[last]] == a[row[last]] {
        var k :| 0 <= k < last && b[row[..last][k]] > a[row[..last][k]];
        assert b[row[k]] > a[row[k]];
      }
    }
  }

  /** A `+1` at one seed raises round-`j` values exactly on the future cone, and lowers none. */
  lemma {:induction false} InterventionIsCone(rows: Rows, s: nat, j: nat)
    requires WellFormed(rows) && s < |rows|
    ensures Later(rows, Seeds(|rows|, None), Seeds(|rows|, Some(s)), j, s)
  {
    var seed, seed' := Seeds(|rows|, None), Seeds(|rows|, Some(s));
    if j > 0 {
      InterventionIsCone(rows, s, j - 1);
      var a, b := Layer(rows, seed, j - 1), Layer(rows, seed', j - 1);
      forall i: nat | i < |rows|
        ensures Layer(rows, seed', j)[i] >= Layer(rows, seed, j)[i]
        ensures Layer(rows, seed', j)[i] > Layer(rows, seed, j)[i] <==> InCone(rows, s, j, i)
      {
        RowSumsDiffer(a, b, rows[i]);
        assert forall k :: 0 <= k < |rows[i]| ==>
          (b[rows[i][k]] > a[rows[i][k]] <==> InCone(rows, s, j - 1, rows[i][k]));
      }
    }
  }
}
