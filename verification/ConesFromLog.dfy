/** Future and past cones of the centre, read off the records of the log. */
module ConesFromLog {
  import opened ReadNet
  import opened Search
  import opened PairWeights
  import opened PairHistogram

  /** The read records of every round: readers ascending, registers in neighbour order. */
  datatype EventLog = EventLog(rounds: nat, records: seq<(nat, nat)>)

  function RecordsBelow(rows: Rows, i: nat): (r: seq<(nat, nat)>)
    requires i <= |rows|
    ensures forall reader: nat, register: nat :: (reader, register) in r <==> reader < i && register in rows[reader]
  {
    if i == 0 then [] else
      var row := seq(|rows[i - 1]|, k requires 0 <= k < |rows[i - 1]| => (i - 1, rows[i - 1][k]));
      RowListed(rows[i - 1], i - 1, row);
      RecordsBelow(rows, i - 1) + row
  }

  lemma RowListed(row: seq<nat>, i: nat, list: seq<(nat, nat)>)
    requires |list| == |row| && forall k :: 0 <= k < |row| ==> list[k] == (i, row[k])
    ensures forall register :: register in row ==> (i, register) in list
  {
    forall register | register in row
      ensures (i, register) in list
    {
      var k :| 0 <= k < |row| && row[k] == register;
      assert list[k] == (i, register);
    }
  }

  function MakeLog(rows: Rows, rounds: nat): EventLog
  {
    EventLog(rounds, RecordsBelow(rows, |rows|))
  }

  ghost predicate RecordsOf(rows: Rows, records: seq<(nat, nat)>)
  {
    forall reader: nat, register: nat ::
      (reader, register) in records <==> reader < |rows| && register in rows[reader]
  }

  /** Event sites reached in the next round: those that read a marked register. */
  method Readers(n: nat, records: seq<(nat, nat)>, current: seq<bool>) returns (next: seq<bool>)
    requires |current| == n && forall x :: x in records ==> x.0 < n && x.1 < n
    ensures |next| == n
    ensures forall t: nat :: t < n ==> (next[t] <==> exists u: nat :: u < n && current[u] && (t, u) in records)
  {
    next := seq(n, _ => false);
    for k := 0 to |records|
      invariant |next| == n
      invariant forall t: nat :: t < n ==> (next[t] <==> exists u: nat :: u < n && current[u] && (t, u) in records[..k])
    {
      var x := records[k];
      assert x in records;
      assert records[..k + 1] == records[..k] + [x];
      if current[x.1] {
        next := next[x.0 := true];
        assert (x.0, x.1) in records[..k + 1];
      }
    }
    assert records[..|records|] == records;
  }

  /** Event sites of the previous round: those whose register a marked site reads. */
  method Registers(n: nat, records: seq<(nat, nat)>, current: seq<bool>) returns (prev: seq<bool>)
    requires |current| == n && forall x :: x in records ==> x.0 < n && x.1 < n
    ensures |prev| == n
    ensures forall t: nat :: t < n ==> (prev[t] <==> exists u: nat :: u < n && current[u] && (u, t) in records)
  {
    prev := seq(n, _ => false);
    for k := 0 to |records|
      invariant |prev| == n
      invariant forall t: nat :: t < n ==> (prev[t] <==> exists u: nat :: u < n && current[u] && (u, t) in records[..k])
    {
      var x := records[k];
      assert x in records;
      assert records[..k + 1] == records[..k] + [x];
      if current[x.0] {
        prev := prev[x.1 := true];
        assert (x.0, x.1) in records[..k + 1];
      }
    }
    assert records[..|records|] == records;
  }

  /** The marked sites, ascending. */
  method FlatNonzero(mask: seq<bool>) returns (r: seq<nat>)
    ensures forall t: nat :: t in r <==> t < |mask| && mask[t]
    ensures forall i, k :: 0 <= i < k < |r| ==> r[i] < r[k]
  {
    r := [];
    for t := 0 to |mask|
      invariant forall i: nat :: i in r <==> i < t && mask[i]
      invariant forall i, k :: 0 <= i < k < |r| ==> r[i] < r[k]
    {
      if mask[t] {
        assert forall i :: 0 <= i < |r| ==> r[i] in r;
        r := r + [t];
      }
    }
  }

  ghost predicate MarksFuture(rows: Rows, centre: nat, j: nat, mask: seq<bool>)
    requires WellFormed(rows)
  {
    |mask| == |rows| && forall t: nat :: t < |rows| ==> (mask[t] <==> InCone(rows, centre, j, t))
  }

  ghost predicate MarksPast(rows: Rows, centre: nat, k: nat, mask: seq<bool>)
    requires WellFormed(rows) && centre < |rows|
  {
    |mask| == |rows| && forall t: nat :: t < |rows| ==> (mask[t] <==> InCone(rows, t, k, centre))
  }

  lemma FutureSteps(rows: Rows, records: seq<(nat, nat)>, centre: nat, j: nat, current: seq<bool>, next: seq<bool>)
    requires WellFormed(rows) && RecordsOf(rows, records) && MarksFuture(rows, centre, j, current)
    requires |next| == |rows|
    requires forall t: nat :: t < |rows| ==> (next[t] <==>
      exists u: nat :: u < |rows| && current[u] && (t, u) in records)
    ensures MarksFuture(rows, centre, j + 1, next)
  {
    hide InCone, WellFormed;
    forall t: nat | t < |rows|
      ensures next[t] <==> InCone(rows, centre, j + 1, t)
    {
      if next[t] {
        var u: nat :| u < |rows| && current[u] && (t, u) in records;
        ConeStep(rows, centre, j, u, t);
      }
      if InCone(rows, centre, j + 1, t) {
        var u := ConeBack(rows, centre, j + 1, t);
        assert (t, u) in records;
      }
    }
  }

  lemma PastSteps(rows: Rows, records: seq<(nat, nat)>, centre: nat, k: nat, current: seq<bool>, prev: seq<bool>)
    requires WellFormed(rows) && RecordsOf(rows, records) && centre < |rows| && MarksPast(rows, centre, k, current)
    requires |prev| == |rows|
    requires forall t: nat :: t < |rows| ==> (prev[t] <==>
      exists u: nat :: u < |rows| && current[u] && (u, t) in records)
    ensures MarksPast(rows, centre, k + 1, prev)
  {
    hide InCone, WellFormed;
    forall t: nat | t < |rows|
      ensures prev[t] <==> InCone(rows, t, k + 1, centre)
    {
      if prev[t] {
        var u: nat :| u < |rows| && current[u] && (u, t) in records;
        ConeFar(rows, centre, k, u, t);
      }
      if InCone(rows, t, k + 1, centre) {
        var u := ConeFarBack(rows, centre, k + 1, t);
        assert (u, t) in records;
      }
    }
  }

  lemma RecordsInside(rows: Rows, records: seq<(nat, nat)>)
    requires WellFormed(rows) && RecordsOf(rows, records)
    ensures forall x :: x in records ==> x.0 < |rows| && x.1 < |rows|
  {
    forall x | x in records
      ensures x.0 < |rows| && x.1 < |rows|
    {
      assert (x.0, x.1) in records;
      var k :| 0 <= k < |rows[x.0]| && rows[x.0][k] == x.1;
    }
  }

  method Start(n: nat, centre: nat) returns (mask: seq<bool>)
    requires centre < n
    ensures |mask| == n && forall t: nat :: t < n ==> (mask[t] <==> t == centre)
  {
    mask := seq(n, _ => false);
    mask := mask[centre := true];
  }

  /** The future cone of the centre's seed event, round by round. */
  method FutureCone(n: nat, centre: nat, log: EventLog, ghost rows: Rows) returns (future: seq<seq<nat>>)
    requires WellFormed(rows) && n == |rows| && centre < n && RecordsOf(rows, log.records)
    ensures |future| == log.rounds + 1
    ensures forall j: nat, t: nat :: j <= log.rounds ==> (t in future[j] <==> t < n && InCone(rows, centre, j, t))
  {
    hide InCone, RecordsOf;
    RecordsInside(rows, log.records);
    var current := Start(n, centre);
    StartMarks(rows, centre, current);
    var sites := FlatNonzero(current);
    future := [sites];
    for j := 1 to log.rounds + 1
      invariant |future| == j && MarksFuture(rows, centre, j - 1, current)
      invariant forall i: nat, t: nat :: i < j ==> (t in future[i] <==> t < n && InCone(rows, centre, i, t))
    {
      var next := Readers(n, log.records, current);
      FutureSteps(rows, log.records, centre, j - 1, current, next);
      current := next;
      sites := FlatNonzero(current);
      future := future + [sites];
    }
  }

  /** The past cone of the centre's last event, from the last round back. */
  method PastCone(n: nat, centre: nat, log: EventLog, ghost rows: Rows) returns (past: seq<seq<nat>>)
    requires WellFormed(rows) && n == |rows| && centre < n && RecordsOf(rows, log.records)
    ensures |past| == log.rounds + 1
    ensures forall j: nat, t: nat :: j <= log.rounds ==>
      (t in past[j] <==> t < n && InCone(rows, t, log.rounds - j, centre))
  {
    hide InCone, RecordsOf;
    RecordsInside(rows, log.records);
    var current := Start(n, centre);
    StartMarks(rows, centre, current);
    var sites := FlatNonzero(current);
    past := [sites];
    for k := 1 to log.rounds + 1
      invariant |past| == k && MarksPast(rows, centre, k - 1, current)
      invariant forall i: nat, t: nat :: i < k ==> (t in past[i] <==> t < n && InCone(rows, t, k - 1 - i, centre))
    {
      var prev := Registers(n, log.records, current);
      PastSteps(rows, log.records, centre, k - 1, current, prev);
      current := prev;
      sites := FlatNonzero(current);
      past := [sites] + past;
    }
  }

  lemma StartMarks(rows: Rows, centre: nat, mask: seq<bool>)
    requires WellFormed(rows) && centre < |rows| && |mask| == |rows|
    requires forall t: nat :: t < |rows| ==> (mask[t] <==> t == centre)
    ensures MarksFuture(rows, centre, 0, mask) && MarksPast(rows, centre, 0, mask)
  {
  }

  /** Both cones, from the records of a layered run. */
  method Cones(n: nat, rounds: nat, centre: nat, log: EventLog, ghost rows: Rows)
    returns (future: seq<seq<nat>>, past: seq<seq<nat>>)
    requires WellFormed(rows) && n == |rows| && centre < n && log == MakeLog(rows, rounds)
    ensures |future| == |past| == rounds + 1
    ensures forall j: nat, t: nat :: j <= rounds ==> (t in future[j] <==> t < n && InCone(rows, centre, j, t))
    ensures forall j: nat, t: nat :: j <= rounds ==> (t in past[j] <==> t < n && InCone(rows, t, rounds - j, centre))
  {
    hide InCone;
    future := FutureCone(n, centre, log, rows);
    past := PastCone(n, centre, log, rows);
  }

  /** Where the cones meet: the sites with `alpha <= min(j, rounds - j)`. */
  lemma ConesMeet(rows: Rows, centre: nat, alpha: seq<int>, rounds: nat, j: nat, t: nat)
    requires Net(rows, centre, alpha) && j <= rounds && t < |rows|
    ensures InCone(rows, centre, j, t) && InCone(rows, t, rounds - j, centre) <==> alpha[t] <= Min(j, rounds - j)
  {
    hide InCone, WellFormed, SelfReads, Symmetric;
    ConeOfCentre(rows, centre, alpha, t, j);
    ConeOfCentre(rows, centre, alpha, t, rounds - j);
  }
}
