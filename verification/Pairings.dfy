/** Equivariant inverse pairings: matchings by backtracking, centralizers by one value. */
module Pairings {

  type Perm = seq<int>

  ghost predicate IsPerm(c: Perm, n: nat)
  {
    && |c| == n && (forall i :: 0 <= i < n ==> 0 <= c[i] < n)
    && forall i, j :: 0 <= i < j < n ==> c[i] != c[j]
  }

  /** Vertex `i` has another vertex as its partner. */
  ghost predicate Paired(m: Perm, i: int)
    requires 0 <= i < |m|
  {
    0 <= m[i] < |m| && m[i] != i && m[m[i]] == i
  }

  /** A fixed-point-free involution: a perfect matching of the vertices. */
  ghost predicate IsMatching(m: Perm, n: nat)
  {
    |m| == n && forall i :: 0 <= i < n ==> Paired(m, i)
  }

  // ----- backtracking

  /** A matching of some of the vertices; `-1` marks a free one. */
  ghost predicate IsPartial(p: Perm)
  {
    forall i :: 0 <= i < |p| ==> p[i] == -1 || Paired(p, i)
  }

  /** The matching `m` completes the partial one `p`. */
  ghost predicate Completes(m: Perm, p: Perm)
  {
    IsMatching(m, |p|) && forall i :: 0 <= i < |p| && p[i] != -1 ==> m[i] == p[i]
  }

  ghost predicate Distinct(list: seq<Perm>)
  {
    forall i, j :: 0 <= i < j < |list| ==> list[i] != list[j]
  }

  /** `found` lists every completion of `p` exactly once. */
  ghost predicate Enumerates(found: seq<Perm>, p: Perm)
  {
    Distinct(found) && forall m :: m in found <==> Completes(m, p)
  }

  function Free(p: Perm): nat
  {
    if p == [] then 0 else (if p[0] == -1 then 1 else 0) + Free(p[1..])
  }

  lemma {:induction false} FreeUpdate(p: Perm, i: nat, v: int)
    requires i < |p|
    ensures Free(p[i := v]) == Free(p) - (if p[i] == -1 then 1 else 0) + (if v == -1 then 1 else 0)
  {
    if i == 0 {
      assert p[i := v][1..] == p[1..];
    } else {
      assert p[i := v][1..] == p[1..][i - 1 := v];
      FreeUpdate(p[1..], i - 1, v);
    }
  }

  /** The first free vertex, or all of them taken. */
  method FirstFree(perm: array<int>) returns (i: nat)
    ensures i <= perm.Length && (i < perm.Length ==> perm[i] == -1)
    ensures forall k :: 0 <= k < i ==> perm[k] != -1
  {
    i := 0;
    while i < perm.Length && perm[i] != -1
      invariant i <= perm.Length && forall k :: 0 <= k < i ==> perm[k] != -1
    {
      i := i + 1;
    }
  }

  /** Every completion pairs the first free vertex with a later free one. */
  lemma CompletionBranches(m: Perm, p: Perm, i: nat)
    requires IsPartial(p) && i < |p| && p[i] == -1 && (forall k :: 0 <= k < i ==> p[k] != -1) && Completes(m, p)
    ensures i < m[i] < |p| && p[m[i]] == -1 && Completes(m, p[i := m[i]][m[i] := i])
  {
    assert Paired(m, i);
    var j := m[i];
    assert p[j] == -1 || Paired(p, j);
    assert p[j] == -1;
    assert p[i := j][j := i][j] == i;
  }

  lemma BranchCompletes(m: Perm, p: Perm, i: nat, j: nat)
    requires IsPartial(p) && i < j < |p| && p[i] == -1 && p[j] == -1
    ensures IsPartial(p[i := j][j := i])
    ensures Completes(m, p[i := j][j := i]) ==> Completes(m, p) && m[i] == j
  {
    var q := p[i := j][j := i];
    forall k | 0 <= k < |q|
      ensures q[k] == -1 || Paired(q, k)
    {
      if k != i && k != j && p[k] != -1 {
        assert Paired(p, k);
        assert q[p[k]] == k;
      }
    }
    if Completes(m, q) {
      forall k | 0 <= k < |p| && p[k] != -1
        ensures m[k] == p[k]
      {
        assert q[k] == p[k];
      }
      assert q[i] == j;
    }
  }

  /** Completions that pair `i` with a vertex below `j`. */
  ghost predicate EnumeratesBelow(found: seq<Perm>, p: Perm, i: nat, j: nat)
    requires i < |p|
  {
    Distinct(found) && forall m :: m in found <==> Completes(m, p) && m[i] < j
  }

  lemma AppendBranch(found: seq<Perm>, more: seq<Perm>, p: Perm, i: nat, j: nat)
    requires IsPartial(p) && i < j < |p| && p[i] == -1 && p[j] == -1 && (forall k :: 0 <= k < i ==> p[k] != -1)
    requires EnumeratesBelow(found, p, i, j) && Enumerates(more, p[i := j][j := i])
    ensures EnumeratesBelow(found + more, p, i, j + 1)
  {
    forall m
      ensures m in more <==> Completes(m, p) && m[i] == j
    {
      if m in more {
        BranchCompletes(m, p, i, j);
      }
      if Completes(m, p) && m[i] == j {
        CompletionBranches(m, p, i);
      }
    }
    forall a, b | 0 <= a < b < |found + more|
      ensures (found + more)[a] != (found + more)[b]
    {
      if a < |found| <= b {
        assert found[a] in found && more[b - |found|] in more;
      }
    }
  }

  lemma SkipTaken(found: seq<Perm>, p: Perm, i: nat, j: nat)
    requires IsPartial(p) && i < j < |p| && p[i] == -1 && p[j] != -1 && (forall k :: 0 <= k < i ==> p[k] != -1)
    requires EnumeratesBelow(found, p, i, j)
    ensures EnumeratesBelow(found, p, i, j + 1)
  {
    forall m | Completes(m, p)
      ensures m[i] != j
    {
      CompletionBranches(m, p, i);
    }
  }

  lemma NoBranches(p: Perm, i: nat)
    requires IsPartial(p) && i < |p| && p[i] == -1 && (forall k :: 0 <= k < i ==> p[k] != -1)
    ensures EnumeratesBelow([], p, i, i + 1)
  {
    forall m | Completes(m, p)
      ensures m[i] > i
    {
      CompletionBranches(m, p, i);
    }
  }

  lemma AllBranches(found: seq<Perm>, p: Perm, i: nat)
    requires i < |p| && EnumeratesBelow(found, p, i, |p|)
    ensures Enumerates(found, p)
  {
    forall m | Completes(m, p)
      ensures m[i] < |p|
    {
      assert Paired(m, i);
    }
  }

  lemma OnlyItself(p: Perm)
    requires IsPartial(p) && forall k :: 0 <= k < |p| ==> p[k] != -1
    ensures Enumerates([p], p)
  {
    assert Completes(p, p);
    forall m
      ensures Completes(m, p) <==> m in [p]
    {
      if Completes(m, p) {
        assert m == p;
      }
    }
  }

  /** Extend the partial matching in every way, and leave it as it was. */
  method Complete(perm: array<int>) returns (found: seq<Perm>)
    requires IsPartial(perm[..])
    modifies perm
    ensures perm[..] == old(perm[..])
    ensures Enumerates(found, perm[..])
    decreases Free(perm[..])
  {
    hide IsPartial, Enumerates, EnumeratesBelow, Free;
    var i := FirstFree(perm);
    ghost var p := perm[..];
    if i == perm.Length {
      OnlyItself(p);
      return [perm[..]];
    }
    found := [];
    NoBranches(p, i);
    for j := i + 1 to perm.Length
      invariant perm[..] == p
      invariant EnumeratesBelow(found, p, i, j)
    {
      if perm[j] == -1 {
        assert p[j] == -1;
        BranchCompletes([], p, i, j);
        FreeUpdate(p, i, j);
        FreeUpdate(p[i := j], j, i);
        perm[i] := j;
        perm[j] := i;
        assert perm[..] == p[i := j][j := i];
        var more := Complete(perm);
        AppendBranch(found, more, p, i, j);
        found := found + more;
        perm[i] := -1;
        perm[j] := -1;
        assert perm[..] == p;
      } else {
        SkipTaken(found, p, i, j);
      }
    }
    AllBranches(found, p, i);
  }

  /** Every perfect matching of `n` vertices, each once. */
  method PerfectMatchings(n: nat) returns (found: seq<Perm>)
    ensures Distinct(found)
    ensures forall m :: m in found <==> IsMatching(m, n)
  {
    var perm := new int[n](_ => -1);
    found := Complete(perm);
  }

  // ----- centralizers

  /** Every listed element is a permutation of the vertices. */
  ghost predicate Perms(group: seq<Perm>, n: nat)
  {
    forall g :: g in group ==> IsPerm(g, n)
  }

  /** Every vertex is the image of vertex 0 under some listed element. */
  ghost predicate Transitive(group: seq<Perm>, n: nat)
  {
    forall v :: 0 <= v < n ==> Reached(group, v)
  }

  ghost predicate Reached(group: seq<Perm>, v: int)
  {
    exists k :: 0 <= k < |group| && Head(group[k], v)
  }

  ghost predicate Head(d: Perm, x: int)
  {
    |d| > 0 && d[0] == x
  }

  ghost predicate Commutes(c: Perm, g: Perm, n: nat)
  {
    IsPerm(c, n) && IsPerm(g, n) && forall i :: 0 <= i < n ==> g[c[i]] == c[g[i]]
  }

  ghost predicate Centralizes(c: Perm, group: seq<Perm>, n: nat)
  {
    IsPerm(c, n) && forall g :: g in group ==> Commutes(c, g, n)
  }

  method CommutesWithAll(c: Perm, group: seq<Perm>, n: nat) returns (r: bool)
    requires IsPerm(c, n) && Perms(group, n)
    ensures r <==> Centralizes(c, group, n)
  {
    for k := 0 to |group|
      invariant forall i :: 0 <= i < k ==> Commutes(c, group[i], n)
    {
      var g := group[k];
      assert g in group;
      for i := 0 to n
        invariant forall j :: 0 <= j < i ==> g[c[j]] == c[g[j]]
      {
        if g[c[i]] != c[g[i]] {
          return false;
        }
      }
    }
    r := true;
  }

  /** The values that `x` at vertex 0 forces, from the first `k` elements. */
  ghost predicate Forced(c: Perm, group: seq<Perm>, n: nat, x: int, k: nat)
    requires k <= |group| && Perms(group, n) && 0 <= x < n
  {
    && |c| == n
    && (forall i {:trigger group[i]} :: 0 <= i < k ==> group[i] in group && c[group[i][0]] == group[i][x])
    && forall v :: 0 <= v < n && c[v] != -1 ==> exists i :: 0 <= i < k && group[i] in group && group[i][0] == v
  }

  method Force(group: seq<Perm>, n: nat, x: int) returns (c: Perm, consistent: bool)
    requires Perms(group, n) && 0 <= x < n
    ensures consistent ==> Forced(c, group, n, x, |group|)
    ensures !consistent ==> forall d :: !(Centralizes(d, group, n) && Head(d, x))
  {
    c := seq(n, _ => -1);
    for k := 0 to |group|
      invariant Forced(c, group, n, x, k)
    {
      var g := group[k];
      assert g in group;
      var v, w := g[0], g[x];
      if c[v] == -1 {
        c := c[v := w];
      } else if c[v] != w {
        ghost var i :| 0 <= i < k && group[i] in group && group[i][0] == v;
        Clash(group, n, x, i, k);
        return c, false;
      }
    }
    consistent := true;
  }

  lemma Clash(group: seq<Perm>, n: nat, x: int, i: nat, k: nat)
    requires Perms(group, n) && 0 <= x < n && i < |group| && k < |group| && group[i] in group && group[k] in group
    requires group[i][0] == group[k][0] && group[i][x] != group[k][x]
    ensures forall d :: !(Centralizes(d, group, n) && Head(d, x))
  {
    forall d | Centralizes(d, group, n)
      ensures !Head(d, x)
    {
      assert Commutes(d, group[i], n) && Commutes(d, group[k], n);
      assert group[i][d[0]] == d[group[i][0]];
      assert group[k][d[0]] == d[group[k][0]];
    }
  }

  /** A centralizing permutation is what its value at vertex 0 forces. */
  lemma ForcedIsOnly(c: Perm, d: Perm, group: seq<Perm>, n: nat, x: int)
    requires Perms(group, n) && Transitive(group, n) && 0 <= x < n
    requires Forced(c, group, n, x, |group|) && Centralizes(d, group, n) && d[0] == x
    ensures c == d
  {
    forall v | 0 <= v < n
      ensures c[v] == d[v]
    {
      assert Reached(group, v);
      var k :| 0 <= k < |group| && Head(group[k], v);
      var g := group[k];
      assert g in group;
      assert Commutes(d, g, n);
      assert g[d[0]] == d[g[0]];
    }
  }

  /** And it takes that value. */
  lemma ForcedTakes(c: Perm, group: seq<Perm>, n: nat, x: int)
    requires Perms(group, n) && 0 <= x < n && |group| > 0
    requires Forced(c, group, n, x, |group|) && Centralizes(c, group, n)
    ensures c[0] == x
  {
    var g := group[0];
    assert g in group;
    assert Commutes(c, g, n);
    assert g[c[0]] == c[g[0]] == g[x];
  }

  method IsBijective(c: Perm, n: nat) returns (r: bool)
    requires |c| == n && forall i :: 0 <= i < n ==> c[i] == -1 || 0 <= c[i] < n
    ensures r <==> IsPerm(c, n)
  {
    for i := 0 to n
      invariant forall k :: 0 <= k < i ==> c[k] != -1
      invariant forall k, l :: 0 <= k < l < i ==> c[k] != c[l]
    {
      if c[i] == -1 {
        return false;
      }
      for k := 0 to i
        invariant forall l :: 0 <= l < k ==> c[l] != c[i]
      {
        if c[k] == c[i] {
          return false;
        }
      }
    }
    r := true;
  }

  lemma ForcedInside(c: Perm, group: seq<Perm>, n: nat, x: int)
    requires Perms(group, n) && 0 <= x < n && Forced(c, group, n, x, |group|)
    ensures |c| == n && forall v :: 0 <= v < n ==> c[v] == -1 || 0 <= c[v] < n
  {
    forall v | 0 <= v < n && c[v] != -1
      ensures 0 <= c[v] < n
    {
      var i :| 0 <= i < |group| && group[i] in group && group[i][0] == v;
      assert c[group[i][0]] == group[i][x];
    }
  }

  /** The centralizing permutations with value below `x` at vertex 0, each once. */
  ghost predicate CentralizerBelow(found: seq<Perm>, group: seq<Perm>, n: nat, x: int)
    requires n > 0
  {
    Distinct(found) && forall c :: c in found <==> Centralizes(c, group, n) && c[0] < x
  }

  lemma CentralizerNext(found: seq<Perm>, group: seq<Perm>, n: nat, x: int, c: Perm)
    requires n > 0 && 0 <= x < n && CentralizerBelow(found, group, n, x)
    requires Centralizes(c, group, n) && c[0] == x && forall d :: Centralizes(d, group, n) && Head(d, x) ==> d == c
    ensures CentralizerBelow(found + [c], group, n, x + 1)
  {
    forall i | 0 <= i < |found|
      ensures found[i] != c
    {
      assert found[i] in found;
    }
  }

  lemma CentralizerSkips(found: seq<Perm>, group: seq<Perm>, n: nat, x: int)
    requires n > 0 && 0 <= x < n && CentralizerBelow(found, group, n, x)
    requires forall d :: !(Centralizes(d, group, n) && Head(d, x))
    ensures CentralizerBelow(found, group, n, x + 1)
  {
  }

  /** The whole centralizer of a transitive list, each element once. */
  method Centralizer(group: seq<Perm>, n: nat) returns (found: seq<Perm>)
    requires n > 0 && Perms(group, n) && Transitive(group, n)
    ensures Distinct(found)
    ensures forall c :: c in found <==> Centralizes(c, group, n)
  {
    hide Perms, Transitive, Centralizes, Forced, IsPerm;
    SomeElement(group, n);
    found := [];
    CentralizerStarts(group, n);
    for x := 0 to n
      invariant CentralizerBelow(found, group, n, x)
    {
      var c, consistent := Force(group, n, x);
      if consistent {
        ForcedInside(c, group, n, x);
        var bijective := IsBijective(c, n);
        var commutes := false;
        if bijective {
          commutes := CommutesWithAll(c, group, n);
        }
        forall d | Centralizes(d, group, n) && Head(d, x)
          ensures d == c
        {
          ForcedIsOnly(c, d, group, n, x);
        }
        if commutes {
          ForcedTakes(c, group, n, x);
          CentralizerNext(found, group, n, x, c);
          found := found + [c];
        } else {
          NotCentral(c, group, n);
          CentralizerSkips(found, group, n, x);
        }
      } else {
        CentralizerSkips(found, group, n, x);
      }
    }
    CentralizerEnds(found, group, n);
  }

  lemma NotCentral(c: Perm, group: seq<Perm>, n: nat)
    requires !IsPerm(c, n) || !Centralizes(c, group, n)
    ensures !Centralizes(c, group, n)
  {
  }

  lemma SomeElement(group: seq<Perm>, n: nat)
    requires n > 0 && Transitive(group, n)
    ensures |group| > 0
  {
    assert Reached(group, 0);
  }

  lemma CentralizerStarts(group: seq<Perm>, n: nat)
    requires n > 0
    ensures CentralizerBelow([], group, n, 0)
  {
  }

  lemma CentralizerEnds(found: seq<Perm>, group: seq<Perm>, n: nat)
    requires n > 0 && CentralizerBelow(found, group, n, n)
    ensures Distinct(found) && forall c :: c in found <==> Centralizes(c, group, n)
  {
  }

  // ----- the two enumerations coincide

  lemma MatchingIsPerm(m: Perm, n: nat)
    requires IsMatching(m, n)
    ensures IsPerm(m, n)
  {
    forall i, j | 0 <= i < j < n
      ensures m[i] != m[j]
    {
      assert Paired(m, i) && Paired(m, j);
    }
    forall i | 0 <= i < n
      ensures 0 <= m[i] < n
    {
      assert Paired(m, i);
    }
  }

  ghost predicate Central(m: Perm, group: seq<Perm>, n: nat)
  {
    IsMatching(m, n) && Centralizes(m, group, n)
  }

  /** Not the identity, an involution, and without fixed points. */
  method IsPairing(c: Perm, n: nat) returns (r: bool)
    requires n > 0 && IsPerm(c, n)
    ensures r <==> IsMatching(c, n)
  {
    for i := 0 to n
      invariant forall k :: 0 <= k < i ==> Paired(c, k)
    {
      if c[i] == i || c[c[i]] != i {
        assert !Paired(c, i);
        return false;
      }
    }
    r := true;
  }

  method CommutingMatchings(group: seq<Perm>, n: nat) returns (total: nat, commuting: seq<Perm>)
    requires Perms(group, n)
    ensures Distinct(commuting) && forall m :: m in commuting <==> Central(m, group, n)
  {
    hide Perms, Centralizes, IsMatching, IsPerm;
    var matchings := PerfectMatchings(n);
    total, commuting := |matchings|, [];
    for k := 0 to |matchings|
      invariant Distinct(commuting)
      invariant forall m :: m in commuting <==> m in matchings[..k] && Central(m, group, n)
    {
      var m := matchings[k];
      assert m in matchings;
      assert matchings[..k + 1] == matchings[..k] + [m];
      MatchingIsPerm(m, n);
      var commutes := CommutesWithAll(m, group, n);
      if commutes {
        assert m !in matchings[..k];
        AppendNew(commuting, m);
        commuting := commuting + [m];
      }
    }
    assert matchings[..|matchings|] == matchings;
  }

  lemma AppendNew(list: seq<Perm>, m: Perm)
    requires Distinct(list) && m !in list
    ensures Distinct(list + [m])
  {
  }

  lemma CentralizesIsPerm(c: Perm, group: seq<Perm>, n: nat)
    requires Centralizes(c, group, n)
    ensures IsPerm(c, n)
  {
  }

  method CentralPairings(group: seq<Perm>, n: nat) returns (order: nat, pairings: seq<Perm>)
    requires n > 0 && Perms(group, n) && Transitive(group, n)
    ensures Distinct(pairings) && forall m :: m in pairings <==> Central(m, group, n)
  {
    hide Perms, Transitive, Centralizes, IsMatching, IsPerm;
    var central := Centralizer(group, n);
    order, pairings := |central|, [];
    for k := 0 to |central|
      invariant Distinct(pairings)
      invariant forall m :: m in pairings <==> m in central[..k] && Central(m, group, n)
    {
      var c := central[k];
      assert c in central;
      assert central[..k + 1] == central[..k] + [c];
      CentralizesIsPerm(c, group, n);
      var pairing := IsPairing(c, n);
      if pairing {
        assert c !in central[..k];
        AppendNew(pairings, c);
        pairings := pairings + [c];
      }
    }
    assert central[..|central|] == central;
  }

  lemma {:induction false} SameSize(a: seq<Perm>, b: seq<Perm>)
    requires Distinct(a) && Distinct(b) && forall m :: m in a <==> m in b
    ensures |a| == |b|
  {
    Listed(a);
    Listed(b);
    assert (set m | m in a) == (set m | m in b);
  }

  lemma {:induction false} Listed(a: seq<Perm>)
    requires Distinct(a)
    ensures |set m | m in a| == |a|
  {
    if a != [] {
      var b, m := a[..|a| - 1], a[|a| - 1];
      Listed(b);
      assert (set x | x in a) == (set x | x in b) + {m};
      assert m !in b;
    }
  }

  /** Commuting matchings are exactly the fixed-point-free involutions of the centralizer. */
  method InversePairings(group: seq<Perm>, n: nat) returns (commuting: seq<Perm>, central: seq<Perm>)
    requires n > 0 && Perms(group, n) && Transitive(group, n)
    ensures forall m :: m in commuting <==> Central(m, group, n)
    ensures Distinct(commuting) && Distinct(central) && |commuting| == |central|
    ensures forall m :: m in commuting <==> m in central
  {
    hide Perms, Transitive, Central;
    var total, order;
    total, commuting := CommutingMatchings(group, n);
    order, central := CentralPairings(group, n);
    SameSize(commuting, central);
  }
}
