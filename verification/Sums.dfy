/** Finite sums over an index range or a list, for integers and for reals. */
module Sums {

  /** `f(0) + ... + f(n-1)` over the integers. */
  ghost function Sum(n: nat, f: nat -> int): int
  {
    if n == 0 then 0 else Sum(n - 1, f) + f(n - 1)
  }

  lemma {:induction false} SumExt(n: nat, f: nat -> int, g: nat -> int)
    requires forall i: nat :: i < n ==> f(i) == g(i)
    ensures Sum(n, f) == Sum(n, g)
  {
    if n > 0 {
      SumExt(n - 1, f, g);
    }
  }

  /** Two families that differ at one index only. */
  lemma {:induction false} SumPoint(n: nat, f: nat -> int, g: nat -> int, k: nat)
    requires k < n
    requires forall i: nat :: i < n && i != k ==> f(i) == g(i)
    ensures Sum(n, g) == Sum(n, f) - f(k) + g(k)
  {
    if k == n - 1 {
      SumExt(n - 1, f, g);
    } else {
      SumPoint(n - 1, f, g, k);
    }
  }

  lemma {:induction false} SumLinear(n: nat, f: nat -> int, g: nat -> int, h: nat -> int, c: int)
    requires forall i: nat :: i < n ==> h(i) == f(i) + c * g(i)
    ensures Sum(n, h) == Sum(n, f) + c * Sum(n, g)
  {
    if n > 0 {
      SumLinear(n - 1, f, g, h, c);
    }
  }

  lemma {:induction false} SumZero(n: nat, f: nat -> int)
    requires forall i: nat :: i < n ==> f(i) == 0
    ensures Sum(n, f) == 0
  {
    if n > 0 {
      SumZero(n - 1, f);
    }
  }

  /** Trailing zeros do not count. */
  lemma {:induction false} SumTail(m: nat, n: nat, f: nat -> int)
    requires m <= n && forall i: nat :: m <= i < n ==> f(i) == 0
    ensures Sum(n, f) == Sum(m, f)
  {
    if m < n {
      SumTail(m, n - 1, f);
    }
  }

  lemma SumScale(n: nat, f: nat -> int, g: nat -> int, c: int)
    requires forall t: nat :: t < n ==> g(t) == c * f(t)
    ensures Sum(n, g) == c * Sum(n, f)
  {
    var zero := (t: nat) => 0;
    SumZero(n, zero);
    SumLinear(n, zero, f, g, c);
  }

  lemma {:induction false} SumSingle(n: nat, k: nat, v: int, f: nat -> int)
    requires k < n
    requires forall i: nat :: i < n ==> f(i) == if i == k then v else 0
    ensures Sum(n, f) == v
  {
    if k == n - 1 {
      SumZero(n - 1, f);
    } else {
      SumSingle(n - 1, k, v, f);
    }
  }

  lemma {:induction false} SumNonnegative(n: nat, f: nat -> int)
    requires forall i: nat :: i < n ==> f(i) >= 0
    ensures Sum(n, f) >= 0
    ensures Sum(n, f) == 0 <==> forall i: nat :: i < n ==> f(i) == 0
  {
    if n > 0 {
      SumNonnegative(n - 1, f);
    }
  }

  lemma {:induction false} SumMonotone(n: nat, f: nat -> int, h: nat -> int)
    requires forall i: nat :: i < n ==> f(i) <= h(i)
    ensures Sum(n, f) <= Sum(n, h)
  {
    if n > 0 {
      SumMonotone(n - 1, f, h);
    }
  }

  /** The order of a double sum does not matter: `g(i)` sums row `i`, `h(j)` column `j`. */
  lemma {:induction false} SumSwap(n: nat, m: nat, f: (nat, nat) -> int, g: nat -> int, h: nat -> int)
    requires forall i: nat :: i < n ==> g(i) == Sum(m, (j: nat) => f(i, j))
    requires forall j: nat :: j < m ==> h(j) == Sum(n, (i: nat) => f(i, j))
    ensures Sum(n, g) == Sum(m, h)
  {
    if n == 0 {
      SumZero(m, h);
    } else {
      var h' := (j: nat) => Sum(n - 1, (i: nat) => f(i, j));
      SumSwap(n - 1, m, f, g, h');
      forall j: nat | j < m
        ensures h(j) == h'(j) + f(n - 1, j)
      {
        SumExt(n - 1, (i: nat) => f(i, j), (i: nat) => f(i, j));
      }
      SumLinear(m, h', (j: nat) => f(n - 1, j), h, 1);
    }
  }

  ghost function Line(f: (nat, nat) -> int, i: nat): nat -> int
  {
    (j: nat) => f(i, j)
  }

  ghost function Lines(f: (nat, nat) -> int, m: nat): nat -> int
  {
    (i: nat) => Sum(m, Line(f, i))
  }

  lemma SwapTwo(n: nat, m: nat, f: (nat, nat) -> int, g: (nat, nat) -> int)
    requires forall i: nat, j: nat :: i < n && j < m ==> f(i, j) == g(j, i)
    ensures Sum(n, Lines(f, m)) == Sum(m, Lines(g, n))
  {
    forall i: nat | i < n
      ensures Lines(f, m)(i) == Sum(m, (j: nat) => f(i, j))
    {
      SumExt(m, Line(f, i), (j: nat) => f(i, j));
    }
    forall j: nat | j < m
      ensures Lines(g, n)(j) == Sum(n, (i: nat) => f(i, j))
    {
      SumExt(n, Line(g, j), (i: nat) => f(i, j));
    }
    SumSwap(n, m, f, Lines(f, m), Lines(g, n));
  }

  /** The sum of `f` over a list. */
  ghost function Tally<T>(list: seq<T>, f: T -> int): int
  {
    if list == [] then 0 else Tally(list[..|list| - 1], f) + f(list[|list| - 1])
  }

  lemma TallySnoc<T>(list: seq<T>, x: T, f: T -> int)
    ensures Tally(list + [x], f) == Tally(list, f) + f(x)
  {
    assert (list + [x])[..|list|] == list;
  }

  lemma {:induction false} TallyJoin<T>(list: seq<T>, more: seq<T>, f: T -> int)
    ensures Tally(list + more, f) == Tally(list, f) + Tally(more, f)
  {
    if more == [] {
      assert list + more == list;
    } else {
      var last := |more| - 1;
      TallyJoin(list, more[..last], f);
      assert list + more == list + more[..last] + [more[last]];
      TallySnoc(list + more[..last], more[last], f);
    }
  }

  lemma {:induction false} TallyAdd<T>(list: seq<T>, f: T -> int, g: T -> int, h: T -> int)
    requires forall x :: x in list ==> h(x) == f(x) + g(x)
    ensures Tally(list, h) == Tally(list, f) + Tally(list, g)
  {
    if list != [] {
      TallyAdd(list[..|list| - 1], f, g, h);
    }
  }

  lemma {:induction false} TallyExt<T>(list: seq<T>, f: T -> int, g: T -> int)
    requires forall x :: x in list ==> f(x) == g(x)
    ensures Tally(list, f) == Tally(list, g)
  {
    if list != [] {
      TallyExt(list[..|list| - 1], f, g);
    }
  }

  lemma {:induction false} TallyZero<T>(list: seq<T>, f: T -> int)
    requires forall x :: x in list ==> f(x) == 0
    ensures Tally(list, f) == 0
  {
    if list != [] {
      TallyZero(list[..|list| - 1], f);
    }
  }

  lemma SplitBag<T>(front: seq<T>, x: T, back: seq<T>)
    ensures multiset(front + [x] + back) == multiset(front + back) + multiset{x}
  {
  }

  lemma BagCancel<T>(a: multiset<T>, b: multiset<T>, x: T)
    requires a + multiset{x} == b + multiset{x}
    ensures a == b
  {
    assert a == a + multiset{x} - multiset{x};
    assert b == b + multiset{x} - multiset{x};
  }

  lemma TallySplit<T>(front: seq<T>, x: T, back: seq<T>, f: T -> int)
    ensures Tally(front + [x] + back, f) == Tally(front + back, f) + f(x)
  {
    TallyJoin(front, back, f);
    TallyJoin(front + [x], back, f);
    TallySnoc(front, x, f);
  }

  /** The order of the list does not matter. */
  lemma {:induction false} TallyReordered<T>(list: seq<T>, other: seq<T>, f: T -> int)
    requires multiset(list) == multiset(other)
    ensures Tally(list, f) == Tally(other, f)
    decreases |list|
  {
    if list == [] {
      assert |multiset(other)| == 0;
      assert other == [];
    } else {
      var last := |list| - 1;
      var x := list[last];
      assert x in multiset(other);
      var i :| 0 <= i < |other| && other[i] == x;
      var front, back, most := other[..i], other[i + 1..], list[..last];
      assert other == front + [x] + back;
      assert list == most + [x] + [];
      SplitBag(front, x, back);
      SplitBag(most, x, []);
      assert most + [] == most;
      BagCancel(multiset(most), multiset(front + back), x);
      TallyReordered(most, front + back, f);
      TallySplit(front, x, back, f);
    }
  }

  /** `f(0) + ... + f(n-1)` over the reals. */
  ghost function RSum(n: nat, f: nat -> real): real
  {
    if n == 0 then 0.0 else RSum(n - 1, f) + f(n - 1)
  }

  lemma {:induction false} RSumExt(n: nat, f: nat -> real, g: nat -> real)
    requires forall i: nat :: i < n ==> f(i) == g(i)
    ensures RSum(n, f) == RSum(n, g)
  {
    if n > 0 {
      RSumExt(n - 1, f, g);
    }
  }

  lemma {:induction false} RSumPoint(n: nat, f: nat -> real, g: nat -> real, k: nat)
    requires k < n
    requires forall i: nat :: i < n && i != k ==> f(i) == g(i)
    ensures RSum(n, g) == RSum(n, f) - f(k) + g(k)
  {
    if k == n - 1 {
      RSumExt(n - 1, f, g);
    } else {
      RSumPoint(n - 1, f, g, k);
    }
  }

  lemma {:induction false} RSumLinear(n: nat, f: nat -> real, g: nat -> real, h: nat -> real, c: real)
    requires forall i: nat :: i < n ==> h(i) == f(i) + c * g(i)
    ensures RSum(n, h) == RSum(n, f) + c * RSum(n, g)
  {
    if n > 0 {
      RSumLinear(n - 1, f, g, h, c);
    }
  }

  lemma {:induction false} RSumNonnegative(n: nat, f: nat -> real)
    requires forall i: nat :: i < n ==> f(i) >= 0.0
    ensures RSum(n, f) >= 0.0
  {
    if n > 0 {
      RSumNonnegative(n - 1, f);
    }
  }

  lemma {:induction false} RSumZero(n: nat, f: nat -> real)
    requires forall i: nat :: i < n ==> f(i) == 0.0
    ensures RSum(n, f) == 0.0
  {
    if n > 0 {
      RSumZero(n - 1, f);
    }
  }

  lemma {:induction false} RSumMonotone(n: nat, f: nat -> real, h: nat -> real)
    requires forall i: nat :: i < n ==> f(i) <= h(i)
    ensures RSum(n, f) <= RSum(n, h)
  {
    if n > 0 {
      RSumMonotone(n - 1, f, h);
    }
  }

  lemma {:induction false} RSumPositive(n: nat, f: nat -> real, k: nat)
    requires k < n && f(k) > 0.0 && forall m: nat :: m < n ==> f(m) >= 0.0
    ensures RSum(n, f) > 0.0
  {
    if k == n - 1 {
      RSumNonnegative(n - 1, f);
    } else {
      RSumPositive(n - 1, f, k);
    }
  }
}
