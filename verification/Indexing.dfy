/** Positions in row-major order: events by round and site, sites by label. */
module Indexing {

  /** The position of column `i` of row `j`, in rows of length `n`. */
  function Id(n: nat, j: nat, i: nat): nat
  {
    j * n + i
  }

  function Major(n: nat, e: nat): nat
    requires n > 0
  {
    e / n
  }

  function Minor(n: nat, e: nat): (i: nat)
    requires n > 0
    ensures i < n
  {
    e % n
  }

  lemma IdSplits(n: nat, j: nat, i: nat)
    requires i < n
    ensures Major(n, Id(n, j, i)) == j && Minor(n, Id(n, j, i)) == i
  {
    var e := j * n + i;
    SplitOnce(n, j, i, e / n, e % n);
  }

  lemma SplitOnce(n: int, j: int, i: int, q: int, r: int)
    requires 0 <= i < n && 0 <= r < n && j * n + i == q * n + r
    ensures j == q && i == r
  {
    if j > q {
      Farther(n, q, j);
    } else if j < q {
      Farther(n, j, q);
    }
  }

  lemma Farther(n: int, j: int, q: int)
    requires j < q && n >= 0
    ensures j * n + n <= q * n
  {
    NonnegativeProduct(q - j - 1, n, (q - j - 1) * n);
    assert (q - j - 1) * n == q * n - j * n - n;
  }

  lemma NonnegativeProduct(a: int, b: int, p: int)
    requires a >= 0 && b >= 0 && p == a * b
    ensures p >= 0
  {
  }

  lemma IdJoins(n: nat, e: nat)
    requires n > 0
    ensures Id(n, Major(n, e), Minor(n, e)) == e
  {
  }

  /** Ids order by round first. */
  lemma IdRange(n: nat, rounds: nat, j: nat, i: nat)
    requires i < n
    ensures j <= rounds <==> Id(n, j, i) < (rounds + 1) * n
  {
    if j <= rounds {
      assert (rounds - j) * n >= 0;
    } else {
      assert (j - rounds - 1) * n >= 0;
    }
  }
}
