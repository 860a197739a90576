/** Causal edges from the rounds of the read log: writers, longest-path ranks, and the common relation. */
module CarrierProvenance {
  import opened Indexing
  import opened ReadNet
  import opened EventOrder
  import opened TraceOrder
  import opened ConesFromLog

  /** Event `reader` of a round read a version of a register. */
  datatype Read = Read(reader: nat, register: nat, version: nat)

  datatype Chunk = Chunk(round: nat, records: seq<Read>)

  /** The records of one round of a layered run. */
  function RoundChunk(rows: Rows, j: nat): Chunk
  {
    var pairs := RecordsBelow(rows, |rows|);
    Chunk(j, seq(|pairs|, k requires 0 <= k < |pairs| => Read(pairs[k].0, pairs[k].1, j)))
  }

  /** Rounds `1, ..., rounds`, in order. */
  function Forward(rows: Rows, rounds: nat): seq<Chunk>
  {
    seq(rounds, c requires 0 <= c < rounds => RoundChunk(rows, c + 1))
  }

  // ----- writers

  predicate IsWriterTable(n: nat, rounds: nat, table: array2<int>, upto: nat)
    reads table
  {
    && table.Length0 == n && table.Length1 == rounds + 2
    && forall r: nat, v: nat :: r < n && v < rounds + 2 ==>
         table[r, v] == if 1 <= v && Id(n, v - 1, r) < upto then Id(n, v - 1, r) else -1
  }

  /** Every event writes the next version of its own register; no version is written twice. */
  method WriterOf(n: nat, rounds: nat, values: seq<seq<int>>) returns (table: array2<int>)
    requires |values| == rounds + 1 && forall j :: 0 <= j <= rounds ==> |values[j]| == n
    ensures fresh(table) && IsWriterTable(n, rounds, table, Id(n, rounds + 1, 0))
  {
    hide Id;
    table := new int[n, rounds + 2]((_, _) => -1);
    NoneBelow(n, 0);
    for j := 0 to rounds + 1
      invariant fresh(table) && IsWriterTable(n, rounds, table, Id(n, j, 0))
    {
      for i := 0 to n
        invariant fresh(table) && IsWriterTable(n, rounds, table, Id(n, j, i))
      {
        NextId(n, j, i);
        assert table[i, j + 1] == -1;
        table[i, j + 1] := Id(n, j, i);
      }
      NextRow(n, j);
    }
  }

  lemma NoneBelow(n: nat, j: nat)
    ensures Id(n, 0, 0) == 0
  {
  }

  lemma NextRow(n: nat, j: nat)
    ensures Id(n, j, n) == Id(n, j + 1, 0)
  {
  }

  lemma NextId(n: nat, j: nat, i: nat)
    requires i < n
    ensures Id(n, j, i + 1) == Id(n, j, i) + 1
    ensures forall r: nat, v: nat :: r < n && Id(n, v, r) == Id(n, j, i) ==> r == i && v == j
  {
    forall r: nat, v: nat | r < n && Id(n, v, r) == Id(n, j, i)
      ensures r == i && v == j
    {
      IdSplits(n, v, r);
      IdSplits(n, j, i);
    }
  }

  // ----- edges of a round

  function Parent(n: nat, x: Read): int
  {
    if x.version == 0 then -1 else Id(n, x.version - 1, x.register)
  }

  function Child(n: nat, c: Chunk, x: Read): nat
  {
    Id(n, c.round, x.reader)
  }

  predicate Fits(n: nat, rounds: nat, c: Chunk)
  {
    && c.records != [] && c.round <= rounds
    && forall k :: 0 <= k < |c.records| ==>
         c.records[k].reader < n && c.records[k].register < n && c.records[k].version <= rounds + 1
  }

  predicate Resolved(n: nat, c: Chunk)
  {
    forall k :: 0 <= k < |c.records| ==> Parent(n, c.records[k]) >= 0
  }

  predicate NotOwn(n: nat, c: Chunk)
  {
    forall k :: 0 <= k < |c.records| ==> Parent(n, c.records[k]) != Child(n, c, c.records[k])
  }

  predicate Chronological(n: nat, c: Chunk)
  {
    forall k :: 0 <= k < |c.records| ==> Parent(n, c.records[k]) < Child(n, c, c.records[k])
  }

  ghost predicate ParentsAre(n: nat, c: Chunk, parents: seq<int>)
  {
    |parents| == |c.records| && forall k :: 0 <= k < |parents| ==> parents[k] == Parent(n, c.records[k])
  }

  lemma TableIsParent(n: nat, rounds: nat, table: array2<int>, x: Read)
    requires IsWriterTable(n, rounds, table, Id(n, rounds + 1, 0)) && x.register < n && x.version <= rounds + 1
    ensures table[x.register, x.version] == Parent(n, x)
  {
    if x.version > 0 {
      Earlier(n, x.version - 1, x.register, rounds + 1, 0);
    }
  }

  method ParentsOfChunk(n: nat, rounds: nat, table: array2<int>, c: Chunk) returns (parents: seq<int>)
    requires IsWriterTable(n, rounds, table, Id(n, rounds + 1, 0)) && Fits(n, rounds, c)
    ensures ParentsAre(n, c, parents)
  {
    hide IsWriterTable, Parent;
    parents := [];
    for k := 0 to |c.records|
      invariant |parents| == k && forall i :: 0 <= i < k ==> parents[i] == Parent(n, c.records[i])
    {
      var x := c.records[k];
      TableIsParent(n, rounds, table, x);
      TableSize(n, rounds, table);
      parents := parents + [table[x.register, x.version]];
    }
  }

  lemma TableSize(n: nat, rounds: nat, table: array2<int>)
    requires IsWriterTable(n, rounds, table, Id(n, rounds + 1, 0))
    ensures table.Length0 == n && table.Length1 == rounds + 2
  {
  }

  /** The three tests of a round: all resolved, none its own, all chronological. */
  method TestChunk(n: nat, c: Chunk, parents: seq<int>) returns (resolved: bool, notOwn: bool, chronological: bool)
    requires ParentsAre(n, c, parents)
    ensures resolved == Resolved(n, c) && notOwn == NotOwn(n, c) && chronological == Chronological(n, c)
  {
    hide Parent, Child;
    resolved, notOwn, chronological := true, true, true;
    for k := 0 to |parents|
      invariant resolved <==> forall i :: 0 <= i < k ==> Parent(n, c.records[i]) >= 0
      invariant notOwn <==> forall i :: 0 <= i < k ==> Parent(n, c.records[i]) != Child(n, c, c.records[i])
      invariant chronological <==> forall i :: 0 <= i < k ==> Parent(n, c.records[i]) < Child(n, c, c.records[i])
    {
      var child := Child(n, c, c.records[k]);
      if parents[k] < 0 { resolved := false; }
      if parents[k] == child { notOwn := false; }
      if parents[k] >= child { chronological := false; }
    }
  }

  // ----- ranks

  /** Records are grouped by reader, readers ascending. */
  predicate Grouped(c: Chunk)
  {
    forall i, k :: 0 <= i < k < |c.records| ==> c.records[i].reader <= c.records[k].reader
  }

  /** One more than the largest parent rank of a reader, over its records below `k`. */
  ghost predicate Longest(c: Chunk, parents: seq<int>, rank: seq<nat>, reader: nat, k: nat, best: nat)
    requires |parents| == |c.records| && k <= |parents| && forall i :: 0 <= i < k ==> 0 <= parents[i] < |rank|
  {
    && (forall i :: 0 <= i < k && c.records[i].reader == reader ==> rank[parents[i]] + 1 <= best)
    && exists i :: 0 <= i < k && c.records[i].reader == reader && rank[parents[i]] + 1 == best
  }

  ghost predicate Reader(c: Chunk, k: nat, reader: nat)
    requires k <= |c.records|
  {
    exists i :: 0 <= i < k && c.records[i].reader == reader
  }

  /** The ranks after the records below `k`: readers have their longest path, all other events keep theirs. */
  ghost predicate Ranked(n: nat, c: Chunk, parents: seq<int>, before: seq<nat>, after: seq<nat>, k: nat)
    requires |parents| == |c.records| && k <= |parents| && forall i :: 0 <= i < k ==> 0 <= parents[i] < |before|
  {
    && |after| == |before|
    && (forall r: nat :: r < n && Reader(c, k, r) ==>
          Id(n, c.round, r) < |after| && Longest(c, parents, before, r, k, after[Id(n, c.round, r)]))
    && forall e: nat :: e < |after| && (forall r: nat :: r < n && Reader(c, k, r) ==> e != Id(n, c.round, r)) ==>
         after[e] == before[e]
  }

  /** Every reader's event gets one more than the largest rank among its parents. */
  method UpdateRanks(n: nat, c: Chunk, parents: seq<int>, rank: seq<nat>) returns (after: seq<nat>)
    requires Grouped(c) && |parents| == |c.records| && forall i :: 0 <= i < |parents| ==> 0 <= parents[i] < |rank|
    requires forall i :: 0 <= i < |c.records| ==>
      c.records[i].reader < n && Id(n, c.round, c.records[i].reader) < |rank|
    ensures Ranked(n, c, parents, rank, after, |c.records|)
  {
    hide Id, Ranked, Longest;
    after := rank;
    var best := 0;
    RankedNone(n, c, parents, rank);
    for k := 0 to |c.records|
      invariant |after| == |rank| && Ranked(n, c, parents, rank, after, k)
      invariant k > 0 ==> Longest(c, parents, rank, c.records[k - 1].reader, k, best)
    {
      var r := c.records[k].reader;
      ghost var before := best;
      best := if k == 0 || c.records[k - 1].reader != r || rank[parents[k]] + 1 > best
        then rank[parents[k]] + 1 else best;
      GroupGrows(c, parents, rank, k, before, best);
      RankedNext(n, c, parents, rank, after, k, best);
      after := after[Id(n, c.round, r) := best];
    }
  }

  lemma RankedNone(n: nat, c: Chunk, parents: seq<int>, rank: seq<nat>)
    requires |parents| == |c.records|
    ensures Ranked(n, c, parents, rank, rank, 0)
  {
  }

  lemma GroupGrows(c: Chunk, parents: seq<int>, rank: seq<nat>, k: nat, before: nat, best: nat)
    requires Grouped(c) && |parents| == |c.records| && k < |parents|
    requires forall i :: 0 <= i < |parents| ==> 0 <= parents[i] < |rank|
    requires k > 0 ==> Longest(c, parents, rank, c.records[k - 1].reader, k, before)
    requires best == if k == 0 || c.records[k - 1].reader != c.records[k].reader || rank[parents[k]] + 1 > before
                     then rank[parents[k]] + 1 else before
    ensures Longest(c, parents, rank, c.records[k].reader, k + 1, best)
  {
    if k > 0 && c.records[k - 1].reader == c.records[k].reader {
      var i :| 0 <= i < k && c.records[i].reader == c.records[k].reader && rank[parents[i]] + 1 == before;
    } else {
      assert forall i :: 0 <= i < k ==> c.records[i].reader <= c.records[k - 1].reader;
    }
  }

  lemma RankedNext(n: nat, c: Chunk, parents: seq<int>, before: seq<nat>, after: seq<nat>, k: nat, best: nat)
    requires |parents| == |c.records| && k < |parents| && forall i :: 0 <= i < |parents| ==> 0 <= parents[i] < |before|
    requires Ranked(n, c, parents, before, after, k)
    requires c.records[k].reader < n && Id(n, c.round, c.records[k].reader) < |before|
    requires Longest(c, parents, before, c.records[k].reader, k + 1, best)
    ensures Ranked(n, c, parents, before, after[Id(n, c.round, c.records[k].reader) := best], k + 1)
  {
    hide Id;
    var r := c.records[k].reader;
    var next := after[Id(n, c.round, r) := best];
    forall s: nat
      ensures Reader(c, k + 1, s) <==> Reader(c, k, s) || s == r
    {
      if s == r {
        assert c.records[k].reader == s;
      }
    }
    forall s: nat | s < n && Reader(c, k + 1, s)
      ensures Id(n, c.round, s) < |next| && Longest(c, parents, before, s, k + 1, next[Id(n, c.round, s)])
    {
      if s != r {
        IdDiffers(n, c.round, s, r);
        LongestStays(c, parents, before, s, k, after[Id(n, c.round, s)]);
      }
    }
  }

  lemma LongestStays(c: Chunk, parents: seq<int>, rank: seq<nat>, reader: nat, k: nat, best: nat)
    requires |parents| == |c.records| && k < |parents| && forall i :: 0 <= i < |parents| ==> 0 <= parents[i] < |rank|
    requires Longest(c, parents, rank, reader, k, best) && c.records[k].reader != reader
    ensures Longest(c, parents, rank, reader, k + 1, best)
  {
    var i :| 0 <= i < k && c.records[i].reader == reader && rank[parents[i]] + 1 == best;
  }

  lemma IdDiffers(n: nat, j: nat, r: nat, s: nat)
    requires r != s
    ensures Id(n, j, r) != Id(n, j, s)
  {
  }

  // ----- the common relation

  /** How many records have a reader below `i`. */
  function RecordsFor(records: seq<Read>, i: nat): (r: nat)
    ensures r <= |records|
  {
    if records == [] then 0 else
      RecordsFor(records[..|records| - 1], i) + if records[|records| - 1].reader < i then 1 else 0
  }

  /** Row starts by counting readers, and the registers in record order. */
  method Relation(n: nat, c: Chunk) returns (indptr: seq<nat>, indices: seq<nat>)
    ensures |indptr| == n + 1 && forall i :: 0 <= i <= n ==> indptr[i] == RecordsFor(c.records, i)
    ensures |indices| == |c.records| && forall k :: 0 <= k < |indices| ==> indices[k] == c.records[k].register
  {
    indptr := seq(n + 1, _ => 0);
    indices := [];
    for k := 0 to |c.records|
      invariant |indptr| == n + 1 && forall i :: 0 <= i <= n ==> indptr[i] == RecordsFor(c.records[..k], i)
      invariant |indices| == k && forall i :: 0 <= i < k ==> indices[i] == c.records[i].register
    {
      var x := c.records[k];
      assert c.records[..k + 1][..k] == c.records[..k];
      indptr := seq(n + 1, i requires 0 <= i <= n && |indptr| == n + 1 => indptr[i] + if x.reader < i then 1 else 0);
      indices := indices + [x.register];
    }
    assert c.records[..|c.records|] == c.records;
  }

  // ----- all rounds

  datatype Edges = Edges(edgeCount: nat, chronological: bool, rankIsRound: bool, sameRelation: bool,
                         rank: seq<nat>, indptr: seq<nat>, indices: seq<nat>)

  ghost predicate Faultless(n: nat, c: Chunk)
  {
    Resolved(n, c) && NotOwn(n, c)
  }

  /** The first round with a fault, and which. */
  ghost predicate FirstChunkFault(n: nat, log: seq<Chunk>, fault: Fault)
  {
    exists c :: 0 <= c < |log| && (forall d :: 0 <= d < c ==> Faultless(n, log[d])) && !Faultless(n, log[c])
                && fault == if Resolved(n, log[c]) then OwnVersion else Unwritten
  }

  ghost function TotalRecords(log: seq<Chunk>): nat
  {
    if log == [] then 0 else TotalRecords(log[..|log| - 1]) + |log[|log| - 1].records|
  }

  predicate SamePair(x: Read, y: Read)
  {
    x.reader == y.reader && x.register == y.register
  }

  predicate SamePairs(c: Chunk, d: Chunk)
  {
    |c.records| == |d.records| && forall k :: 0 <= k < |c.records| ==> SamePair(c.records[k], d.records[k])
  }

  method ComparePairs(c: Chunk, d: Chunk) returns (same: bool)
    ensures same == SamePairs(c, d)
  {
    if |c.records| != |d.records| {
      return false;
    }
    same := true;
    for k := 0 to |c.records|
      invariant same <==> forall i :: 0 <= i < k ==> SamePair(c.records[i], d.records[i])
    {
      if !SamePair(c.records[k], d.records[k]) { same := false; }
    }
  }

  /** Every reader's event has the rank of its round. */
  predicate AtRound(n: nat, c: Chunk, rank: seq<nat>)
  {
    forall k :: 0 <= k < |c.records| ==>
      Child(n, c, c.records[k]) < |rank| && rank[Child(n, c, c.records[k])] == c.round
  }

  method CompareRanks(n: nat, c: Chunk, rank: seq<nat>) returns (same: bool)
    requires forall k :: 0 <= k < |c.records| ==> Child(n, c, c.records[k]) < |rank|
    ensures same == AtRound(n, c, rank)
  {
    hide Child;
    same := true;
    for k := 0 to |c.records|
      invariant same <==> forall i :: 0 <= i < k ==> rank[Child(n, c, c.records[i])] == c.round
    {
      if rank[Child(n, c, c.records[k])] != c.round { same := false; }
    }
  }

  ghost predicate LogFits(n: nat, rounds: nat, log: seq<Chunk>)
  {
    forall c :: 0 <= c < |log| ==> Fits(n, rounds, log[c]) && Grouped(log[c])
  }

  lemma ParentsInside(n: nat, rounds: nat, c: Chunk, parents: seq<int>)
    requires Fits(n, rounds, c) && ParentsAre(n, c, parents) && Resolved(n, c)
    ensures forall k :: 0 <= k < |parents| ==> 0 <= parents[k] < (rounds + 1) * n
    ensures forall k :: 0 <= k < |c.records| ==> Child(n, c, c.records[k]) < (rounds + 1) * n
  {
    hide Id;
    forall k | 0 <= k < |parents|
      ensures 0 <= parents[k] < (rounds + 1) * n && Child(n, c, c.records[k]) < (rounds + 1) * n
    {
      var x := c.records[k];
      IdRange(n, rounds, x.version - 1, x.register);
      IdRange(n, rounds, c.round, x.reader);
    }
  }

  /** In a layered run the ranks of the rounds up to `c` are final. */
  ghost predicate RanksUpto(n: nat, rounds: nat, rank: seq<nat>, c: nat)
  {
    |rank| == (rounds + 1) * n && forall j: nat, i: nat :: j <= rounds && i < n ==>
      Id(n, j, i) < |rank| && rank[Id(n, j, i)] == if j <= c then j else 0
  }

  lemma NoRanks(n: nat, rounds: nat, rank: seq<nat>)
    requires |rank| == (rounds + 1) * n && forall e :: 0 <= e < |rank| ==> rank[e] == 0
    ensures RanksUpto(n, rounds, rank, 0)
  {
    hide Id;
    forall j: nat, i: nat | j <= rounds && i < n
      ensures Id(n, j, i) < |rank|
    {
      IdRange(n, rounds, j, i);
    }
  }

  lemma RoundRecords(rows: Rows, j: nat)
    requires WellFormed(rows) && j > 0
    ensures Resolved(|rows|, RoundChunk(rows, j)) && NotOwn(|rows|, RoundChunk(rows, j))
    ensures Chronological(|rows|, RoundChunk(rows, j))
    ensures forall k :: 0 <= k < |RoundChunk(rows, j).records| ==>
      var x := RoundChunk(rows, j).records[k];
      x.reader < |rows| && x.register < |rows| && Parent(|rows|, x) == Id(|rows|, j - 1, x.register)
    ensures forall r: nat :: r < |rows| ==>
      (Reader(RoundChunk(rows, j), |RoundChunk(rows, j).records|, r) <==> rows[r] != [])
  {
    hide Id;
    var c, n, pairs := RoundChunk(rows, j), |rows|, RecordsBelow(rows, |rows|);
    forall k | 0 <= k < |c.records|
      ensures var x := c.records[k];
        x.reader < n && x.register < n && 0 <= Parent(n, x) == Id(n, j - 1, x.register) < Child(n, c, x)
    {
      var x := c.records[k];
      assert pairs[k] in pairs && pairs[k] == (x.reader, x.register);
      assert x.register in rows[x.reader];
      var m :| 0 <= m < |rows[x.reader]| && rows[x.reader][m] == x.register;
      Earlier(n, j - 1, x.register, j, x.reader);
    }
    forall r: nat | r < n
      ensures Reader(c, |c.records|, r) <==> rows[r] != []
    {
      if rows[r] != [] {
        assert rows[r][0] in rows[r];
        assert (r, rows[r][0]) in pairs;
        var k :| 0 <= k < |pairs| && pairs[k] == (r, rows[r][0]);
        assert c.records[k].reader == r;
      }
    }
  }

  /** One round raises its events to the rank of the round. */
  lemma RanksNext(rows: Rows, rounds: nat, j: nat, parents: seq<int>, before: seq<nat>, after: seq<nat>)
    requires WellFormed(rows) && NonemptyRows(rows) && 0 < j <= rounds
    requires ParentsAre(|rows|, RoundChunk(rows, j), parents)
    requires RanksUpto(|rows|, rounds, before, j - 1)
    requires forall k :: 0 <= k < |parents| ==> 0 <= parents[k] < |before|
    requires Ranked(|rows|, RoundChunk(rows, j), parents, before, after, |parents|)
    ensures RanksUpto(|rows|, rounds, after, j) && AtRound(|rows|, RoundChunk(rows, j), after)
  {
    hide Id, RoundChunk, Parent;
    var n, c := |rows|, RoundChunk(rows, j);
    RoundRecords(rows, j);
    ChunkRound(rows, j);
    forall i: nat | i < n
      ensures Id(n, j, i) < |after| && after[Id(n, j, i)] == j
    {
      assert Reader(c, |parents|, i);
      var k :| 0 <= k < |parents| && c.records[k].reader == i
               && before[parents[k]] + 1 == after[Id(n, j, i)];
      assert parents[k] == Id(n, j - 1, c.records[k].register);
    }
    forall l: nat, i: nat | l <= rounds && i < n
      ensures Id(n, l, i) < |after| && after[Id(n, l, i)] == if l <= j then l else 0
    {
      if l != j {
        forall r: nat | r < n
          ensures Id(n, l, i) != Id(n, j, r)
        {
          IdSplits(n, l, i);
          IdSplits(n, j, r);
        }
        assert after[Id(n, l, i)] == before[Id(n, l, i)];
      }
    }
  }

  lemma ChunkRound(rows: Rows, j: nat)
    ensures RoundChunk(rows, j).round == j
  {
  }

  /** What the rounds so far establish. */
  ghost predicate SoFar(n: nat, log: seq<Chunk>, c: nat, edgeCount: nat, chronological: bool, sameRelation: bool)
    requires c <= |log|
  {
    && edgeCount == TotalRecords(log[..c])
    && (chronological <==> forall d :: 0 <= d < c ==> Chronological(n, log[d]))
    && (sameRelation <==> forall d :: 0 <= d < c ==> SamePairs(log[0], log[d]))
    && forall d :: 0 <= d < c ==> Faultless(n, log[d])
  }

  lemma SoFarNext(n: nat, log: seq<Chunk>, c: nat, edgeCount: nat, chronological: bool, sameRelation: bool)
    requires c < |log| && SoFar(n, log, c, edgeCount, chronological, sameRelation) && Faultless(n, log[c])
    ensures SoFar(n, log, c + 1, edgeCount + |log[c].records|, chronological && Chronological(n, log[c]),
                  sameRelation && SamePairs(log[0], log[c]))
  {
    hide Chronological, SamePairs, Faultless;
    assert log[..c + 1][..c] == log[..c];
  }

  /** One round lifts its readers above their parents and leaves every other rank. */
  ghost predicate RankStep(n: nat, c: Chunk, parents: seq<int>, before: seq<nat>, after: seq<nat>)
  {
    && ParentsAre(n, c, parents) && (forall i :: 0 <= i < |parents| ==> 0 <= parents[i] < |before|)
    && Ranked(n, c, parents, before, after, |parents|)
  }

  ghost predicate Lifted(n: nat, c: Chunk, before: seq<nat>, after: seq<nat>)
  {
    exists parents :: RankStep(n, c, parents, before, after)
  }

  /** The ranks after every round, from all zero, and whether each round's readers got the round. */
  ghost predicate Trail(n: nat, rounds: nat, log: seq<Chunk>, c: nat, trail: seq<seq<nat>>, atRound: bool)
    requires c <= |log|
  {
    && |trail| == c + 1 && trail[0] == seq((rounds + 1) * n, _ => 0)
    && (forall d :: 0 <= d < c ==> Lifted(n, log[d], trail[d], trail[d + 1]))
    && (atRound <==> forall d :: 0 <= d < c ==> AtRound(n, log[d], trail[d + 1]))
  }

  lemma TrailNext(n: nat, rounds: nat, log: seq<Chunk>, c: nat, trail: seq<seq<nat>>, atRound: bool,
                  parents: seq<int>, after: seq<nat>)
    requires c < |log| && Trail(n, rounds, log, c, trail, atRound) && RankStep(n, log[c], parents, trail[c], after)
    ensures Trail(n, rounds, log, c + 1, trail + [after], atRound && AtRound(n, log[c], after))
  {
    hide RankStep, AtRound;
    assert Lifted(n, log[c], trail[c], after);
    var next := trail + [after];
    assert forall d :: 0 <= d < c ==> Lifted(n, log[d], next[d], next[d + 1]);
    assert forall d :: 0 <= d < c ==> (AtRound(n, log[d], next[d + 1]) <==> AtRound(n, log[d], trail[d + 1]));
    assert next[c + 1] == after;
  }

  lemma ParentsSize(n: nat, c: Chunk, parents: seq<int>)
    requires ParentsAre(n, c, parents)
    ensures |parents| == |c.records|
  {
  }

  lemma TrailStarts(n: nat, rounds: nat, log: seq<Chunk>)
    ensures Trail(n, rounds, log, 0, [seq((rounds + 1) * n, _ => 0)], true)
  {
  }

  /** The log is that of a layered run in which every site reads. */
  ghost predicate Layered(n: nat, rounds: nat, log: seq<Chunk>, rows: Rows)
  {
    WellFormed(rows) && NonemptyRows(rows) && |rows| == n && log == Forward(rows, rounds)
  }

  lemma LayeredChunk(n: nat, rounds: nat, log: seq<Chunk>, rows: Rows, c: nat)
    requires Layered(n, rounds, log, rows) && c < |log|
    ensures |log| == rounds && log[c] == RoundChunk(rows, c + 1)
  {
  }

  /**
   * Generate the edges from the log: a fault is reported for the first round that has one;
   * on the log of a layered run every event's rank is its round.
   */
  method ProvenanceEdges(n: nat, rounds: nat, values: seq<seq<int>>, log: seq<Chunk>, ghost rows: Rows)
    returns (r: Outcome<Edges>, ghost trail: seq<seq<nat>>)
    requires |values| == rounds + 1 && forall j :: 0 <= j <= rounds ==> |values[j]| == n
    requires log != [] && LogFits(n, rounds, log)
    ensures r != TwoWriters
    ensures r.Ok? <==> forall c :: 0 <= c < |log| ==> Faultless(n, log[c])
    ensures r.Faulty? ==> FirstChunkFault(n, log, r.fault)
    ensures r.Ok? ==> r.value.edgeCount == TotalRecords(log)
    ensures r.Ok? ==> (r.value.chronological <==> forall c :: 0 <= c < |log| ==> Chronological(n, log[c]))
    ensures r.Ok? ==> (r.value.sameRelation <==> forall c :: 0 <= c < |log| ==> SamePairs(log[0], log[c]))
    ensures r.Ok? ==> |r.value.indptr| == n + 1
    ensures r.Ok? ==> forall i :: 0 <= i <= n ==> r.value.indptr[i] == RecordsFor(log[0].records, i)
    ensures r.Ok? ==> |r.value.indices| == |log[0].records|
    ensures r.Ok? ==> forall k :: 0 <= k < |r.value.indices| ==> r.value.indices[k] == log[0].records[k].register
    ensures r.Ok? ==> Trail(n, rounds, log, |log|, trail, r.value.rankIsRound) && trail[|log|] == r.value.rank
    ensures r.Ok? && Layered(n, rounds, log, rows) ==> r.value.rankIsRound && RanksUpto(n, rounds, r.value.rank, rounds)
  {
    hide Fits, Grouped, IsWriterTable, Resolved, NotOwn, Chronological, SamePairs, RanksUpto, AtRound, Ranked, SoFar;
    hide Layered, RecordsFor, Child;
    hide Trail, ParentsAre;
    var table := WriterOf(n, rounds, values);
    var rank: seq<nat> := seq((rounds + 1) * n, _ => 0);
    var edgeCount: nat := 0;
    var chronological, rankIsRound, sameRelation := true, true, true;
    NoRanks(n, rounds, rank);
    Nothing(n, log);
    trail := [rank];
    TrailStarts(n, rounds, log);
    for c := 0 to |log|
      invariant |rank| == (rounds + 1) * n && SoFar(n, log, c, edgeCount, chronological, sameRelation)
      invariant Layered(n, rounds, log, rows) ==> rankIsRound && RanksUpto(n, rounds, rank, c)
      invariant Trail(n, rounds, log, c, trail, rankIsRound) && |trail| == c + 1 && trail[c] == rank
      invariant IsWriterTable(n, rounds, table, Id(n, rounds + 1, 0))
    {
      var chunk := log[c];
      SoFarFaultless(n, log, c, edgeCount, chronological, sameRelation);
      var parents := ParentsOfChunk(n, rounds, table, chunk);
      var resolved, notOwn, inOrder := TestChunk(n, chunk, parents);
      if !resolved {
        r := Faulty(Unwritten);
        return;
      }
      if !notOwn {
        r := Faulty(OwnVersion);
        return;
      }
      SoFarNext(n, log, c, edgeCount, chronological, sameRelation);
      ParentsSize(n, chunk, parents);
      ParentsInside(n, rounds, chunk, parents);
      ReadersInside(n, rounds, chunk);
      var after := UpdateRanks(n, chunk, parents, rank);
      RankedSize(n, chunk, parents, rank, after);
      var atRound := CompareRanks(n, chunk, after);
      TrailNext(n, rounds, log, c, trail, rankIsRound, parents, after);
      trail := trail + [after];
      if Layered(n, rounds, log, rows) {
        LayeredRound(n, rounds, log, rows, c, parents, rank, after);
      }
      var same := ComparePairs(log[0], chunk);
      chronological, edgeCount := chronological && inOrder, edgeCount + |chunk.records|;
      rank, rankIsRound, sameRelation := after, rankIsRound && atRound, sameRelation && same;
    }
    var indptr, indices := Relation(n, log[0]);
    if Layered(n, rounds, log, rows) {
      LayeredChunk(n, rounds, log, rows, 0);
    }
    SoFarEnds(n, log, edgeCount, chronological, sameRelation);
    r := Ok(Edges(edgeCount, chronological, rankIsRound, sameRelation, rank, indptr, indices));
  }

  lemma Nothing(n: nat, log: seq<Chunk>)
    ensures SoFar(n, log, 0, 0, true, true)
  {
  }

  lemma SoFarFaultless(n: nat, log: seq<Chunk>, c: nat, edgeCount: nat, chronological: bool, sameRelation: bool)
    requires c <= |log| && SoFar(n, log, c, edgeCount, chronological, sameRelation)
    ensures forall d :: 0 <= d < c ==> Faultless(n, log[d])
  {
  }

  lemma SoFarEnds(n: nat, log: seq<Chunk>, edgeCount: nat, chronological: bool, sameRelation: bool)
    requires SoFar(n, log, |log|, edgeCount, chronological, sameRelation)
    ensures edgeCount == TotalRecords(log)
    ensures chronological <==> forall d :: 0 <= d < |log| ==> Chronological(n, log[d])
    ensures sameRelation <==> forall d :: 0 <= d < |log| ==> SamePairs(log[0], log[d])
    ensures forall d :: 0 <= d < |log| ==> Faultless(n, log[d])
  {
    assert log[..|log|] == log;
  }

  lemma ReadersInside(n: nat, rounds: nat, c: Chunk)
    requires Fits(n, rounds, c)
    ensures forall i :: 0 <= i < |c.records| ==> c.records[i].reader < n
    ensures forall i :: 0 <= i < |c.records| ==> Id(n, c.round, c.records[i].reader) == Child(n, c, c.records[i])
  {
  }

  lemma RankedSize(n: nat, c: Chunk, parents: seq<int>, before: seq<nat>, after: seq<nat>)
    requires |parents| == |c.records| && forall i :: 0 <= i < |parents| ==> 0 <= parents[i] < |before|
    requires Ranked(n, c, parents, before, after, |c.records|)
    ensures |after| == |before|
  {
  }

  lemma LayeredRound(n: nat, rounds: nat, log: seq<Chunk>, rows: Rows, c: nat, parents: seq<int>, before: seq<nat>,
                     after: seq<nat>)
    requires Layered(n, rounds, log, rows) && c < |log| && ParentsAre(n, log[c], parents)
    requires RanksUpto(n, rounds, before, c) && forall k :: 0 <= k < |parents| ==> 0 <= parents[k] < |before|
    requires Ranked(n, log[c], parents, before, after, |log[c].records|)
    ensures RanksUpto(n, rounds, after, c + 1) && AtRound(n, log[c], after)
  {
    hide RanksUpto, AtRound, Ranked, RoundChunk;
    LayeredChunk(n, rounds, log, rows, c);
    RanksNext(rows, rounds, c + 1, parents, before, after);
  }

  // ----- the log of a layered run

  /** The log of a layered run has no fault, is chronological, and repeats one relation. */
  lemma LayeredIsSound(n: nat, rounds: nat, log: seq<Chunk>, rows: Rows, c: nat)
    requires Layered(n, rounds, log, rows) && c < |log|
    ensures Faultless(n, log[c]) && Chronological(n, log[c]) && SamePairs(log[0], log[c])
  {
    hide Resolved, NotOwn, Chronological;
    LayeredChunk(n, rounds, log, rows, 0);
    LayeredChunk(n, rounds, log, rows, c);
    RoundRecords(rows, c + 1);
  }

  lemma BelowSnoc(rows: Rows, m: nat)
    requires 0 < m <= |rows|
    ensures |RecordsBelow(rows, m - 1)| <= |RecordsBelow(rows, m)|
    ensures RecordsBelow(rows, m)[..|RecordsBelow(rows, m - 1)|] == RecordsBelow(rows, m - 1)
    ensures forall k :: |RecordsBelow(rows, m - 1)| <= k < |RecordsBelow(rows, m)| ==>
      RecordsBelow(rows, m)[k].0 == m - 1
  {
  }

  lemma NoRecords(rows: Rows, records: seq<Read>, i: nat)
    requires |records| == |RecordsBelow(rows, 0)|
    ensures RecordsFor(records, i) == 0 == |RecordsBelow(rows, 0)|
  {
  }

  lemma {:induction false} CountBelow(rows: Rows, j: nat, m: nat, i: nat, records: seq<Read>)
    requires m <= |rows| && i <= |rows| && |records| == |RecordsBelow(rows, m)|
    requires forall k :: 0 <= k < |records| ==> records[k].reader == RecordsBelow(rows, m)[k].0
    ensures RecordsFor(records, i) == |RecordsBelow(rows, if i < m then i else m)|
    decreases m
  {
    hide RecordsBelow, RecordsFor;
    if m == 0 {
      NoRecords(rows, records, i);
    } else {
      BelowSnoc(rows, m);
      var all, before := RecordsBelow(rows, m), RecordsBelow(rows, m - 1);
      forall k | 0 <= k < |before|
        ensures records[..|before|][k].reader == before[k].0
      {
        assert all[..|before|][k] == before[k];
      }
      CountBelow(rows, j, m - 1, i, records[..|before|]);
      CountTail(records, |before|, |records|, i, m - 1);
    }
  }

  /** Records of one reader count all or nothing. */
  lemma {:induction false} CountTail(records: seq<Read>, lo: nat, hi: nat, i: nat, reader: nat)
    requires lo <= hi <= |records| && forall k :: lo <= k < hi ==> records[k].reader == reader
    ensures RecordsFor(records[..hi], i) == RecordsFor(records[..lo], i) + if reader < i then hi - lo else 0
    ensures records[..|records|] == records
    decreases hi
  {
    if lo < hi {
      CountTail(records, lo, hi - 1, i, reader);
      assert records[..hi][..hi - 1] == records[..hi - 1];
    }
  }

  lemma {:induction false} RecordsPrefix(rows: Rows, i: nat, m: nat)
    requires i <= m <= |rows|
    ensures |RecordsBelow(rows, i)| <= |RecordsBelow(rows, m)|
    ensures RecordsBelow(rows, m)[..|RecordsBelow(rows, i)|] == RecordsBelow(rows, i)
    decreases m
  {
    if i < m {
      RecordsPrefix(rows, i, m - 1);
    }
  }

  lemma RecordsRow(rows: Rows, i: nat)
    requires i < |rows|
    ensures |RecordsBelow(rows, i + 1)| == |RecordsBelow(rows, i)| + |rows[i]|
    ensures forall k :: 0 <= k < |rows[i]| ==> RecordsBelow(rows, i + 1)[|RecordsBelow(rows, i)| + k] == (i, rows[i][k])
  {
  }

  lemma RoundRegisters(rows: Rows, j: nat)
    ensures |RoundChunk(rows, j).records| == |RecordsBelow(rows, |rows|)|
    ensures forall k :: 0 <= k < |RecordsBelow(rows, |rows|)| ==>
      RoundChunk(rows, j).records[k] == Read(RecordsBelow(rows, |rows|)[k].0, RecordsBelow(rows, |rows|)[k].1, j)
  {
    hide RecordsBelow;
  }

  /** The recovered relation is the read relation: row `i` lies between its two row starts. */
  lemma RelationIsRows(rows: Rows, j: nat, indptr: seq<nat>, indices: seq<nat>, i: nat)
    requires i < |rows|
    requires |indptr| == |rows| + 1 && forall k :: 0 <= k <= |rows| ==>
      indptr[k] == RecordsFor(RoundChunk(rows, j).records, k)
    requires |indices| == |RoundChunk(rows, j).records|
    requires forall k :: 0 <= k < |indices| ==> indices[k] == RoundChunk(rows, j).records[k].register
    ensures indptr[i] <= indptr[i + 1] <= |indices| && indices[indptr[i]..indptr[i + 1]] == rows[i]
  {
    hide RecordsFor, RecordsBelow, RoundChunk;
    var n, records, all := |rows|, RoundChunk(rows, j).records, RecordsBelow(rows, |rows|);
    RoundRegisters(rows, j);
    CountBelow(rows, j, n, i, records);
    CountBelow(rows, j, n, i + 1, records);
    RecordsPrefix(rows, i + 1, n);
    RecordsRow(rows, i);
    var lo, next := |RecordsBelow(rows, i)|, RecordsBelow(rows, i + 1);
    forall k | 0 <= k < |rows[i]|
      ensures indices[lo + k] == rows[i][k]
    {
      assert all[..|next|][lo + k] == next[lo + k];
    }
  }

  /** Record `k` of round `c` makes an edge from `p` to `e`. */
  ghost predicate RecordEdge(n: nat, log: seq<Chunk>, c: int, k: int, p: nat, e: nat)
  {
    && 0 <= c < |log| && 0 <= k < |log[c].records|
    && Parent(n, log[c].records[k]) == p && Child(n, log[c], log[c].records[k]) == e
  }

  /** The edges of the rounds are the edges of the event list. */
  lemma EdgesAgree(rows: Rows, rounds: nat, p: nat, e: nat)
    requires WellFormed(rows)
    ensures (exists c, k :: RecordEdge(|rows|, Forward(rows, rounds), c, k, p, e)) <==> Edge(Trace(rows, rounds), p, e)
  {
    hide Trace, Id, RoundChunk, Edge, RecordsBelow, Parent;
    var n, log := |rows|, Forward(rows, rounds);
    if c, k :| RecordEdge(n, log, c, k, p, e) {
      RecordMakesEdge(rows, rounds, c, k);
    }
    if Edge(Trace(rows, rounds), p, e) {
      EdgeInside(Trace(rows, rounds), p, e);
      var j, s := InTrace(rows, rounds, p);
      var j', t := InTrace(rows, rounds, e);
      TraceEdge(rows, rounds, j, s, j', t);
      var k := EdgeHasRecord(rows, j, s, t);
      assert RecordEdge(n, log, j, k, p, e);
    }
  }

  lemma EdgeInside(log: Log, p: nat, e: nat)
    requires Edge(log, p, e)
    ensures p < |log| && e < |log|
  {
  }

  lemma RecordMakesEdge(rows: Rows, rounds: nat, c: nat, k: nat)
    requires WellFormed(rows) && c < rounds && k < |RoundChunk(rows, c + 1).records|
    ensures var x := RoundChunk(rows, c + 1).records[k];
      && Parent(|rows|, x) >= 0
      && Edge(Trace(rows, rounds), Parent(|rows|, x), Child(|rows|, RoundChunk(rows, c + 1), x))
  {
    hide Trace, Id, Edge, RecordsBelow;
    RoundRecords(rows, c + 1);
    RoundRegisters(rows, c + 1);
    var x, pairs := RoundChunk(rows, c + 1).records[k], RecordsBelow(rows, |rows|);
    assert pairs[k] in pairs && pairs[k] == (x.reader, x.register);
    TraceEdge(rows, rounds, c, x.register, c + 1, x.reader);
  }

  lemma EdgeHasRecord(rows: Rows, j: nat, s: nat, t: nat) returns (k: nat)
    requires WellFormed(rows) && t < |rows| && s in rows[t]
    ensures var c := RoundChunk(rows, j + 1);
      && k < |c.records| && Parent(|rows|, c.records[k]) == Id(|rows|, j, s)
      && Child(|rows|, c, c.records[k]) == Id(|rows|, j + 1, t)
  {
    hide Id, RecordsBelow;
    var pairs := RecordsBelow(rows, |rows|);
    RoundRegisters(rows, j + 1);
    assert (t, s) in pairs;
    k :| 0 <= k < |pairs| && pairs[k] == (t, s);
  }
}
