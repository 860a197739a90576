/** Optional results, indicators, powers of two, and products that proofs keep closed. */
module Basics {

  datatype Option<T> = None | Some(value: T)

  function One(c: bool): int
  {
    if c then 1 else 0
  }

  ghost predicate Increasing(s: seq<nat>)
  {
    forall i, j :: 0 <= i < j < |s| ==> s[i] < s[j]
  }

  /** A larger last element keeps the list increasing. */
  lemma IncreasingGrows(s: seq<nat>, x: nat)
    requires Increasing(s) && forall y :: y in s ==> y < x
    ensures Increasing(s + [x])
  {
    assert forall i :: 0 <= i < |s| ==> s[i] in s;
  }

  function Pow2(k: nat): (r: int)
    ensures r >= 1
  {
    if k == 0 then 1 else 2 * Pow2(k - 1)
  }

  lemma {:induction false} Pow2Adds(j: nat, k: nat)
    ensures Pow2(j + k) == Pow2(j) * Pow2(k)
  {
    if k > 0 {
      Pow2Adds(j, k - 1);
      assert Pow2(j + k) == 2 * Pow2(j + (k - 1));
      assert Pow2(j) * (2 * Pow2(k - 1)) == 2 * (Pow2(j) * Pow2(k - 1));
    }
  }

  function Times(a: real, b: real): real { a * b }

  lemma ProductPositive(a: real, b: real, s: real)
    requires a > 0.0 && b > 0.0 && s == a * b
    ensures s > 0.0
  {
  }

  lemma SquarePositive(d: real, s: real)
    requires d != 0.0 && s == d * d
    ensures s > 0.0
  {
    if d > 0.0 {
      ProductPositive(d, d, s);
    } else {
      ProductPositive(-d, -d, s);
    }
  }
}
