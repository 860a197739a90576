/** Strict pair counts as a triple sum over a histogram of site pairs. */
module PairWeights {
  import opened Basics
  import opened Sums

  /** A pair of sites, by the distances from the centre and the distance between them. */
  datatype Entry = Entry(a: nat, b: nat, d: nat)

  function Min(x: int, y: int): int
  {
    if x < y then x else y
  }

  // ----- weights

  /** Events in rounds `j` and `j'` of a pair like `x` are a strictly ordered pair of the `k`-interval. */
  predicate Ordered(k: int, j: int, j': int, x: Entry)
  {
    x.a <= Min(j, k - j) && j < j' && x.b <= Min(j', k - j') && x.d <= j' - j
  }

  ghost function Upper(k: int, j: int, x: Entry): nat -> int
  {
    (j': nat) => One(Ordered(k, j, j', x))
  }

  ghost function Lower(k: int, rounds: nat, x: Entry): nat -> int
  {
    (j: nat) => Sum(rounds + 1, Upper(k, j, x))
  }

  /** The number of strictly ordered event pairs that a pair of sites contributes. */
  ghost function Weight(k: int, rounds: nat, x: Entry): int
  {
    Sum(rounds + 1, Lower(k, rounds, x))
  }

  ghost function Weights(k: int, rounds: nat): Entry -> int
  {
    (x: Entry) => Weight(k, rounds, x)
  }

  /** Pairs too far out for the budget contribute nothing. */
  lemma FarWeighsNothing(k: int, rounds: nat, x: Entry)
    requires x.a + x.b + x.d > k
    ensures Weight(k, rounds, x) == 0
  {
    forall j: nat | j < rounds + 1
      ensures Lower(k, rounds, x)(j) == 0
    {
      SumZero(rounds + 1, Upper(k, j, x));
    }
    SumZero(rounds + 1, Lower(k, rounds, x));
  }

  // ----- the loops

  /** What the triple loop has added for `x` when it stands at `(a, j, j')`. */
  ghost function Progress(k: int, rounds: nat, a: nat, j: nat, j': nat, x: Entry): int
  {
    if x.a < a then Weight(k, rounds, x)
    else if x.a == a then Sum(j, Lower(k, rounds, x)) + Sum(j', Upper(k, j, x))
    else 0
  }

  ghost function Progresses(k: int, rounds: nat, a: nat, j: nat, j': nat): Entry -> int
  {
    (x: Entry) => Progress(k, rounds, a, j, j', x)
  }

  lemma Starts(k: nat, rounds: nat, list: seq<Entry>)
    ensures Tally(list, Progresses(k, rounds, 0, 0, 0)) == 0
  {
    TallyZero(list, Progresses(k, rounds, 0, 0, 0));
  }

  /** Rounds below `a` hold no event of a site at distance `a`. */
  lemma EnterRounds(k: nat, rounds: nat, a: nat, list: seq<Entry>)
    ensures Tally(list, Progresses(k, rounds, a, a, 0)) == Tally(list, Progresses(k, rounds, a, 0, 0))
  {
    forall x | x in list
      ensures Progress(k, rounds, a, a, 0, x) == Progress(k, rounds, a, 0, 0, x)
    {
      if x.a == a {
        forall j: nat | j < a
          ensures Lower(k, rounds, x)(j) == 0
        {
          SumZero(rounds + 1, Upper(k, j, x));
        }
        SumZero(a, Lower(k, rounds, x));
      }
    }
    TallyExt(list, Progresses(k, rounds, a, a, 0), Progresses(k, rounds, a, 0, 0));
  }

  lemma EnterTargets(k: nat, rounds: nat, a: nat, j: nat, list: seq<Entry>)
    ensures Tally(list, Progresses(k, rounds, a, j, j + 1)) == Tally(list, Progresses(k, rounds, a, j, 0))
  {
    forall x | x in list
      ensures Progress(k, rounds, a, j, j + 1, x) == Progress(k, rounds, a, j, 0, x)
    {
      SumZero(j + 1, Upper(k, j, x));
    }
    TallyExt(list, Progresses(k, rounds, a, j, j + 1), Progresses(k, rounds, a, j, 0));
  }

  lemma LeaveTargets(k: nat, rounds: nat, a: nat, j: nat, list: seq<Entry>)
    requires k <= rounds
    ensures Tally(list, Progresses(k, rounds, a, j + 1, 0)) == Tally(list, Progresses(k, rounds, a, j, k + 1))
  {
    forall x | x in list
      ensures Progress(k, rounds, a, j + 1, 0, x) == Progress(k, rounds, a, j, k + 1, x)
    {
      SumTail(k + 1, rounds + 1, Upper(k, j, x));
    }
    TallyExt(list, Progresses(k, rounds, a, j + 1, 0), Progresses(k, rounds, a, j, k + 1));
  }

  lemma LeaveRounds(k: nat, rounds: nat, a: nat, list: seq<Entry>)
    requires k <= rounds && a <= k
    ensures Tally(list, Progresses(k, rounds, a + 1, 0, 0)) == Tally(list, Progresses(k, rounds, a, k - a + 1, 0))
  {
    forall x | x in list
      ensures Progress(k, rounds, a + 1, 0, 0, x) == Progress(k, rounds, a, k - a + 1, 0, x)
    {
      if x.a == a {
        forall j: nat | k - a + 1 <= j < rounds + 1
          ensures Lower(k, rounds, x)(j) == 0
        {
          SumZero(rounds + 1, Upper(k, j, x));
        }
        SumTail(k - a + 1, rounds + 1, Lower(k, rounds, x));
      }
    }
    TallyExt(list, Progresses(k, rounds, a + 1, 0, 0), Progresses(k, rounds, a, k - a + 1, 0));
  }

  lemma Ends(k: nat, rounds: nat, list: seq<Entry>)
    ensures Tally(list, Progresses(k, rounds, k / 2 + 1, 0, 0)) == Tally(list, Weights(k, rounds))
  {
    forall x | x in list
      ensures Progress(k, rounds, k / 2 + 1, 0, 0, x) == Weight(k, rounds, x)
    {
      if x.a > k / 2 {
        forall j: nat | j < rounds + 1
          ensures Lower(k, rounds, x)(j) == 0
        {
          SumZero(rounds + 1, Upper(k, j, x));
        }
        SumZero(rounds + 1, Lower(k, rounds, x));
      }
    }
    TallyExt(list, Progresses(k, rounds, k / 2 + 1, 0, 0), Weights(k, rounds));
  }

  // ----- the histogram

  ghost function Cell(a: int, b: int, d: int): Entry -> int
  {
    (x: Entry) => One(x.a == a && x.b == b && x.d == d)
  }

  /** `h[a, b, d]` is the number of entries `(a, b, d)` of the list. */
  ghost predicate Counts(h: array3<int>, rounds: nat, list: seq<Entry>)
    reads h
  {
    && h.Length0 == rounds + 1 && h.Length1 == rounds + 1 && h.Length2 == rounds + 2
    && forall a, b, d :: 0 <= a <= rounds && 0 <= b <= rounds && 0 <= d <= rounds + 1 ==>
         h[a, b, d] == Tally(list, Cell(a, b, d))
  }

  ghost function Block(a: int, b: int, d: int, width: int): Entry -> int
  {
    (x: Entry) => One(x.a == a && ((x.b < b && x.d < width) || (x.b == b && x.d < d)))
  }

  /** `h[a, :height, :width].sum()` */
  method SumBlock(h: array3<int>, rounds: nat, ghost list: seq<Entry>, a: nat, height: nat, width: nat)
    returns (total: int)
    requires Counts(h, rounds, list) && a <= rounds && height <= rounds + 1 && width <= rounds + 2
    ensures total == Tally(list, Block(a, height, 0, width))
  {
    total := 0;
    TallyZero(list, Block(a, 0, 0, width));
    for b := 0 to height
      invariant total == Tally(list, Block(a, b, 0, width))
    {
      for d := 0 to width
        invariant total == Tally(list, Block(a, b, d, width))
      {
        total := total + h[a, b, d];
        TallyAdd(list, Block(a, b, d, width), Cell(a, b, d), Block(a, b, d + 1, width));
      }
      TallyExt(list, Block(a, b, width, width), Block(a, b + 1, 0, width));
    }
  }

  lemma AddTarget(k: nat, rounds: nat, a: nat, j: nat, j': nat, list: seq<Entry>, block: int)
    requires a <= j <= k - a && j < j' <= k
    requires block == Tally(list, Block(a, Min(j', k - j') + 1, 0, j' - j + 1))
    ensures Tally(list, Progresses(k, rounds, a, j, j' + 1)) == Tally(list, Progresses(k, rounds, a, j, j')) + block
  {
    var f, h := Progresses(k, rounds, a, j, j'), Progresses(k, rounds, a, j, j' + 1);
    var g := Block(a, Min(j', k - j') + 1, 0, j' - j + 1);
    forall x | x in list
      ensures h(x) == f(x) + g(x)
    {
    }
    TallyAdd(list, f, g, h);
  }

  /** The triple sum for one `k`. */
  method CountAt(h: array3<int>, rounds: nat, ghost list: seq<Entry>, k: nat) returns (total: int)
    requires Counts(h, rounds, list) && k <= rounds
    ensures total == Tally(list, Weights(k, rounds))
  {
    hide Counts, Progresses, Block, Weights;
    total := 0;
    Starts(k, rounds, list);
    for a := 0 to k / 2 + 1
      invariant total == Tally(list, Progresses(k, rounds, a, 0, 0))
    {
      EnterRounds(k, rounds, a, list);
      for j := a to k - a + 1
        invariant total == Tally(list, Progresses(k, rounds, a, j, 0))
      {
        EnterTargets(k, rounds, a, j, list);
        for j' := j + 1 to k + 1
          invariant total == Tally(list, Progresses(k, rounds, a, j, j'))
        {
          var block := SumBlock(h, rounds, list, a, Min(j', k - j') + 1, j' - j + 1);
          AddTarget(k, rounds, a, j, j', list, block);
          total := total + block;
        }
        LeaveTargets(k, rounds, a, j, list);
      }
      LeaveRounds(k, rounds, a, list);
    }
    Ends(k, rounds, list);
  }

  /** The counts for `k = 1, ..., rounds`. */
  method StrictPairCounts(h: array3<int>, rounds: nat, ghost list: seq<Entry>) returns (counts: map<nat, int>)
    requires Counts(h, rounds, list)
    ensures forall k: nat :: k in counts <==> 1 <= k <= rounds
    ensures forall k: nat :: 1 <= k <= rounds ==> counts[k] == Tally(list, Weights(k, rounds))
  {
    hide Counts, Weights;
    counts := map[];
    for k := 1 to rounds + 1
      invariant forall i: nat :: i in counts <==> 1 <= i < k
      invariant forall i: nat :: 1 <= i < k ==> counts[i] == Tally(list, Weights(i, rounds))
    {
      var c := CountAt(h, rounds, list, k);
      counts := counts[k := c];
    }
  }
}
