/** What the values of the layered reads count: walks of the read relation. */
module ReadWalks {
  import opened Sums
  import opened ReadNet

  // ----- walks

  ghost predicate Inside(rows: Rows, w: seq<nat>)
  {
    w != [] && forall k :: 0 <= k < |w| ==> w[k] < |rows|
  }

  /** From the site back along reads: every entry is read by the one before it. */
  ghost predicate IsWalk(rows: Rows, i: nat, length: nat, w: seq<nat>)
  {
    && Inside(rows, w) && |w| == length + 1 && w[0] == i
    && forall k: nat :: k < length ==> w[k + 1] in rows[w[k]]
  }

  ghost function Last(w: seq<nat>): nat
    requires w != []
  {
    w[|w| - 1]
  }

  /** The walk with one more read. */
  ghost function Steps(rows: Rows, w: seq<nat>): (r: seq<seq<nat>>)
    requires WellFormed(rows) && Inside(rows, w)
    ensures |r| == |rows[Last(w)]| && forall k :: 0 <= k < |r| ==> r[k] == w + [rows[Last(w)][k]]
    ensures forall v :: v in r ==> Inside(rows, v)
  {
    seq(|rows[Last(w)]|, k requires 0 <= k < |rows[Last(w)]| => w + [rows[Last(w)][k]])
  }

  ghost function Onward(rows: Rows, list: seq<seq<nat>>): (r: seq<seq<nat>>)
    requires WellFormed(rows) && forall w :: w in list ==> Inside(rows, w)
    ensures forall w :: w in r ==> Inside(rows, w)
  {
    if list == [] then [] else Onward(rows, list[..|list| - 1]) + Steps(rows, list[|list| - 1])
  }

  /** All walks of a length into site `i`, each written back from `i`. */
  ghost function Walks(rows: Rows, i: nat, length: nat): (r: seq<seq<nat>>)
    requires WellFormed(rows) && i < |rows|
    ensures forall w :: w in r ==> Inside(rows, w)
  {
    if length == 0 then [[i]] else Onward(rows, Walks(rows, i, length - 1))
  }

  ghost predicate IsStep(rows: Rows, list: seq<seq<nat>>, w: seq<nat>)
    requires WellFormed(rows) && forall v :: v in list ==> Inside(rows, v)
  {
    |w| > 1 &&
    var v := w[..|w| - 1];
    v in list && (assert Inside(rows, v) && v[|v| - 1] < |rows|; Last(w) in rows[Last(v)])
  }

  lemma StepsListed(rows: Rows, v: seq<nat>, w: seq<nat>)
    requires WellFormed(rows) && Inside(rows, v)
    ensures w in Steps(rows, v) <==> |w| > 1 && w[..|w| - 1] == v && Last(w) in rows[Last(v)]
  {
    if |w| > 1 && w[..|w| - 1] == v && Last(w) in rows[Last(v)] {
      var k :| 0 <= k < |rows[Last(v)]| && rows[Last(v)][k] == Last(w);
      assert w == v + [Last(w)];
      assert Steps(rows, v)[k] == w;
    }
  }

  lemma {:induction false} OnwardListed(rows: Rows, list: seq<seq<nat>>, w: seq<nat>)
    requires WellFormed(rows) && forall v :: v in list ==> Inside(rows, v)
    ensures w in Onward(rows, list) <==> IsStep(rows, list, w)
  {
    hide Steps, Inside;
    if list != [] {
      var last := |list| - 1;
      OnwardListed(rows, list[..last], w);
      StepsListed(rows, list[last], w);
      assert list == list[..last] + [list[last]];
    }
  }

  lemma WalkSteps(rows: Rows, i: nat, length: nat, w: seq<nat>)
    requires WellFormed(rows) && length > 0 && |w| > 1
    ensures IsWalk(rows, i, length, w) <==>
      IsWalk(rows, i, length - 1, w[..|w| - 1]) && Last(w) in rows[Last(w[..|w| - 1])]
  {
    var v := w[..|w| - 1];
    if IsWalk(rows, i, length, w) {
      assert w[length - 1 + 1] in rows[w[length - 1]];
    }
    if IsWalk(rows, i, length - 1, v) && Last(w) in rows[Last(v)] {
      forall k: nat | k < length
        ensures w[k + 1] in rows[w[k]]
      {
        if k < length - 1 {
          assert v[k + 1] in rows[v[k]];
        }
      }
    }
  }

  /** The list holds exactly the walks. */
  lemma {:induction false} WalksListed(rows: Rows, i: nat, length: nat, w: seq<nat>)
    requires WellFormed(rows) && i < |rows|
    ensures w in Walks(rows, i, length) <==> IsWalk(rows, i, length, w)
  {
    if length == 0 {
      assert |w| == 1 && w[0] == i ==> w == [i];
    } else {
      OnwardListed(rows, Walks(rows, i, length - 1), w);
      if |w| > 1 {
        WalksListed(rows, i, length - 1, w[..|w| - 1]);
        WalkSteps(rows, i, length, w);
      }
    }
  }

  ghost predicate Once<T(!new)>(list: seq<T>)
  {
    forall a, b :: 0 <= a < b < |list| ==> list[a] != list[b]
  }

  lemma {:induction false} OnwardOnce(rows: Rows, list: seq<seq<nat>>)
    requires WellFormed(rows) && (forall v :: v in list ==> Inside(rows, v)) && Once(list)
    requires forall i :: 0 <= i < |rows| ==> Once(rows[i])
    ensures Once(Onward(rows, list))
  {
    if list != [] {
      var last := |list| - 1;
      var most, v := list[..last], list[last];
      OnwardOnce(rows, most);
      var before, more := Onward(rows, most), Steps(rows, v);
      var all := before + more;
      forall a, b | 0 <= a < b < |all|
        ensures all[a] != all[b]
      {
        if a < |before| <= b {
          OnwardListed(rows, most, before[a]);
          assert before[a] in before;
          assert more[b - |before|][..|v|] == v;
        } else if |before| <= a {
          assert Last(more[a - |before|]) == rows[Last(v)][a - |before|];
          assert Last(more[b - |before|]) == rows[Last(v)][b - |before|];
        }
      }
    }
  }

  /** When no row repeats a register, no walk is listed twice. */
  lemma {:induction false} WalksOnce(rows: Rows, i: nat, length: nat)
    requires WellFormed(rows) && i < |rows| && forall i :: 0 <= i < |rows| ==> Once(rows[i])
    ensures Once(Walks(rows, i, length))
  {
    if length > 0 {
      WalksOnce(rows, i, length - 1);
      OnwardOnce(rows, Walks(rows, i, length - 1));
    }
  }

  // ----- values

  /** The value at the far end of a walk. */
  ghost function FarEnd(f: seq<int>): seq<nat> -> int
  {
    (w: seq<nat>) => if w != [] && Last(w) < |f| then f[Last(w)] else 0
  }

  /** The sums of a layer along every row. */
  ghost function RowSums(rows: Rows, f: seq<int>): (r: seq<int>)
    requires WellFormed(rows) && |f| == |rows|
    ensures |r| == |rows| && forall u :: 0 <= u < |rows| ==> r[u] == RowSum(f, rows[u])
  {
    seq(|rows|, u requires 0 <= u < |rows| => RowSum(f, rows[u]))
  }

  lemma FarEndIs(f: seq<int>, w: seq<nat>, u: nat)
    requires u < |f|
    ensures FarEnd(f)(w + [u]) == f[u]
  {
  }

  lemma RowSumStep(f: seq<int>, row: seq<nat>, k: nat)
    requires 0 < k <= |row| && forall i :: 0 <= i < |row| ==> row[i] < |f|
    ensures RowSum(f, row[..k]) == RowSum(f, row[..k - 1]) + f[row[k - 1]]
  {
    assert row[..k][..k - 1] == row[..k - 1];
  }

  lemma NoRow(f: seq<int>, list: seq<seq<nat>>, row: seq<nat>)
    requires forall i :: 0 <= i < |row| ==> row[i] < |f|
    ensures Tally(list[..0], FarEnd(f)) == 0 == RowSum(f, row[..0])
  {
  }

  lemma {:induction false} StepsTally(f: seq<int>, w: seq<nat>, row: seq<nat>, list: seq<seq<nat>>, k: nat)
    requires |list| == |row| && k <= |row| && forall i :: 0 <= i < |row| ==> row[i] < |f| && list[i] == w + [row[i]]
    ensures Tally(list[..k], FarEnd(f)) == RowSum(f, row[..k])
  {
    hide Tally, RowSum, FarEnd;
    if k == 0 {
      NoRow(f, list, row);
    } else {
      StepsTally(f, w, row, list, k - 1);
      assert list[..k] == list[..k - 1] + [list[k - 1]];
      TallySnoc(list[..k - 1], list[k - 1], FarEnd(f));
      FarEndIs(f, w, row[k - 1]);
      RowSumStep(f, row, k);
    }
  }

  /** Ends of longer walks are row sums at the ends of shorter ones. */
  lemma {:induction false} OnwardTally(rows: Rows, f: seq<int>, list: seq<seq<nat>>)
    requires WellFormed(rows) && |f| == |rows| && forall w :: w in list ==> Inside(rows, w)
    ensures Tally(Onward(rows, list), FarEnd(f)) == Tally(list, FarEnd(RowSums(rows, f)))
  {
    hide RowSum;
    if list != [] {
      var last := |list| - 1;
      var w := list[last];
      OnwardTally(rows, f, list[..last]);
      TallyJoin(Onward(rows, list[..last]), Steps(rows, w), FarEnd(f));
      StepsTally(f, w, rows[Last(w)], Steps(rows, w), |rows[Last(w)]|);
      assert Steps(rows, w)[..|rows[Last(w)]|] == Steps(rows, w);
      assert rows[Last(w)][..|rows[Last(w)]|] == rows[Last(w)];
    }
  }

  ghost function Count(rows: Rows, i: nat): nat -> int
    requires WellFormed(rows) && i < |rows|
  {
    (length: nat) => |Walks(rows, i, length)|
  }

  lemma {:induction false} OneMoreEach(list: seq<seq<nat>>, rows: Rows, f: seq<int>, next: seq<int>)
    requires |f| == |next| == |rows| && (forall w :: w in list ==> Inside(rows, w))
    requires forall u :: 0 <= u < |rows| ==> next[u] == 1 + f[u]
    ensures Tally(list, FarEnd(next)) == |list| + Tally(list, FarEnd(f))
  {
    if list != [] {
      OneMoreEach(list[..|list| - 1], rows, f, next);
      var w := list[|list| - 1];
      assert w in list && Inside(rows, w) && w[|w| - 1] < |rows|;
    }
  }

  /** One round less, for walks one read longer. */
  lemma LayerStep(rows: Rows, seed: seq<int>, i: nat, j: nat, k: nat)
    requires WellFormed(rows) && |seed| == |rows| && i < |rows| && j > 0
    ensures Tally(Walks(rows, i, k), FarEnd(Layer(rows, seed, j))) ==
            |Walks(rows, i, k)| + Tally(Walks(rows, i, k + 1), FarEnd(Layer(rows, seed, j - 1)))
  {
    hide RowSum, Tally, FarEnd;
    var before := Layer(rows, seed, j - 1);
    OnwardTally(rows, before, Walks(rows, i, k));
    OneMoreEach(Walks(rows, i, k), rows, RowSums(rows, before), Layer(rows, seed, j));
  }

  lemma {:induction false} LayerUnrolls(rows: Rows, seed: seq<int>, i: nat, j: nat, k: nat)
    requires WellFormed(rows) && |seed| == |rows| && i < |rows|
    ensures Tally(Walks(rows, i, k), FarEnd(Layer(rows, seed, j))) + Sum(k, Count(rows, i)) ==
            Tally(Walks(rows, i, j + k), FarEnd(seed)) + Sum(j + k, Count(rows, i))
    decreases j
  {
    hide Layer, Walks, Tally, FarEnd;
    if j == 0 {
      LayerZero(rows, seed);
    } else {
      LayerUnrolls(rows, seed, i, j - 1, k + 1);
      LayerStep(rows, seed, i, j, k);
      assert j - 1 + (k + 1) == j + k;
      assert Sum(k + 1, Count(rows, i)) == Sum(k, Count(rows, i)) + |Walks(rows, i, k)|;
    }
  }

  /** A value is the seeds summed over the walks of length `j` into the site, plus the number of shorter walks. */
  lemma LayerCountsWalks(rows: Rows, seed: seq<int>, i: nat, j: nat)
    requires WellFormed(rows) && |seed| == |rows| && i < |rows|
    ensures Layer(rows, seed, j)[i] == Tally(Walks(rows, i, j), FarEnd(seed)) + Sum(j, Count(rows, i))
  {
    hide Layer, Walks;
    LayerUnrolls(rows, seed, i, j, 0);
    EmptyWalk(rows, i, Layer(rows, seed, j));
  }

  lemma EmptyWalk(rows: Rows, i: nat, f: seq<int>)
    requires WellFormed(rows) && |f| == |rows| && i < |rows|
    ensures Tally(Walks(rows, i, 0), FarEnd(f)) == f[i]
  {
    assert Walks(rows, i, 0) == [] + [[i]];
    TallySnoc([], [i], FarEnd(f));
  }
}
