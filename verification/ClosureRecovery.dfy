/** Stage B of the closure loop: seams, rule and descent read off the event log alone. */
module ClosureRecovery {
  import opened Basics
  import opened ClosureSource
  import opened UnionFind

  /** One event: ports `a < b`, and their readings before and after. */
  datatype Row = Row(a: nat, b: nat, bi: real, ai: real, bj: real, aj: real)

  // ----- the table

  ghost predicate RowOf(log: Log, k: nat, row: Row)
    requires k < |log.events|
  {
    && row.a < row.b < log.ports
    && log.events[k].changed == map[row.a := (row.bi, row.ai), row.b := (row.bj, row.aj)]
  }

  /** Event `k` touches two ports of the log. */
  ghost predicate Readable(log: Log, k: nat)
    requires k < |log.events|
  {
    exists row :: RowOf(log, k, row)
  }

  method EventsTable(log: Log) returns (r: Option<seq<Row>>)
    ensures r.Some? <==> forall k :: 0 <= k < |log.events| ==> Readable(log, k)
    ensures r.Some? ==> |r.value| == |log.events|
    ensures r.Some? ==> forall k :: 0 <= k < |log.events| ==> RowOf(log, k, r.value[k])
  {
    var table: seq<Row> := [];
    for k := 0 to |log.events|
      invariant |table| == k && forall i :: 0 <= i < k ==> RowOf(log, i, table[i]) && Readable(log, i)
    {
      var row := ReadRow(log, k);
      if row.None? {
        return None;
      }
      table := table + [row.value];
    }
    r := Some(table);
  }

  method ReadRow(log: Log, k: nat) returns (r: Option<Row>)
    requires k < |log.events|
    ensures r.Some? ==> RowOf(log, k, r.value)
    ensures r.None? ==> !Readable(log, k)
  {
    var changed := log.events[k].changed;
    if |changed.Keys| != 2 {
      forall row | RowOf(log, k, row)
        ensures |changed.Keys| == 2
      {
        RowKeys(log, k, row);
      }
      return None;
    }
    var p: nat :| p in changed;
    var rest := changed.Keys - {p};
    assert |rest| == 1;
    var q: nat :| q in rest;
    TwoKeys(changed.Keys, p, q);
    var a: nat, b: nat := if p < q then p else q, if p < q then q else p;
    if b >= log.ports {
      return None;
    }
    r := Some(Row(a, b, changed[a].0, changed[a].1, changed[b].0, changed[b].1));
    assert changed == map[a := changed[a], b := changed[b]];
  }

  lemma RowKeys(log: Log, k: nat, row: Row)
    requires k < |log.events| && RowOf(log, k, row)
    ensures |log.events[k].changed.Keys| == 2
  {
    assert log.events[k].changed.Keys == {row.a, row.b};
  }

  lemma TwoKeys(s: set<nat>, p: nat, q: nat)
    requires |s| == 2 && p in s && q in s && p != q
    ensures s == {p, q}
  {
    if x :| x in s && x != p && x != q {
      assert {p, q, x} <= s;
      assert s == {p, q, x} + (s - {p, q, x});
    }
  }

  /** A row is fixed by its event. */
  lemma RowUnique(log: Log, k: nat, row: Row, row': Row)
    requires k < |log.events| && RowOf(log, k, row) && RowOf(log, k, row')
    ensures row == row'
  {
    var changed := log.events[k].changed;
    assert row.a in changed && row.b in changed;
    assert row'.a in changed && row'.b in changed;
  }

  // ----- seams

  predicate Before(s: Seam, t: Seam)
  {
    s.0 < t.0 || (s.0 == t.0 && s.1 < t.1)
  }

  ghost predicate Sorted(seams: seq<Seam>)
  {
    forall i, j :: 0 <= i < j < |seams| ==> Before(seams[i], seams[j])
  }

  /** First ports never fall, and of equal first ports the second ones rise. */
  ghost predicate Lexicographic(seams: seq<Seam>)
  {
    forall i, j :: 0 <= i < j < |seams| ==>
      seams[i].0 <= seams[j].0 && (seams[i].0 == seams[j].0 ==> seams[i].1 < seams[j].1)
  }

  lemma SortedIsLexicographic(seams: seq<Seam>)
    ensures Sorted(seams) <==> Lexicographic(seams)
  {
    forall i, j | 0 <= i < j < |seams|
      ensures Before(seams[i], seams[j]) <==>
        seams[i].0 <= seams[j].0 && (seams[i].0 == seams[j].0 ==> seams[i].1 < seams[j].1)
    {
    }
  }

  method Insert(seams: seq<Seam>, s: Seam) returns (r: seq<Seam>)
    requires Sorted(seams)
    ensures Sorted(r) && forall t :: t in r <==> t in seams || t == s
  {
    var at := 0;
    while at < |seams| && Before(seams[at], s)
      invariant 0 <= at <= |seams| && forall i :: 0 <= i < at ==> Before(seams[i], s)
    {
      at := at + 1;
    }
    if at < |seams| && seams[at] == s {
      return seams;
    }
    r := seams[..at] + [s] + seams[at..];
    assert seams == seams[..at] + seams[at..];
    assert forall i :: at <= i < |seams| ==> Before(s, seams[i]);
  }

  predicate Touches(row: Row, s: Seam)
  {
    (row.a, row.b) == s
  }

  ghost predicate Touched(table: seq<Row>, s: Seam)
  {
    exists row :: row in table && Touches(row, s)
  }

  /** The seams are the pairs of ports that some event touched, sorted. */
  method RecoverSeams(table: seq<Row>) returns (seams: seq<Seam>)
    ensures Sorted(seams) && Lexicographic(seams)
    ensures forall s :: s in seams <==> Touched(table, s)
  {
    hide Lexicographic;
    seams := [];
    for k := 0 to |table|
      invariant Sorted(seams)
      invariant forall s :: s in seams <==> Touched(table[..k], s)
    {
      assert table[..k + 1] == table[..k] + [table[k]];
      assert forall s :: Touched(table[..k + 1], s) <==> Touched(table[..k], s) || Touches(table[k], s);
      seams := Insert(seams, (table[k].a, table[k].b));
    }
    assert table[..|table|] == table;
    SortedIsLexicographic(seams);
  }

  /** Two sorted lists of the same seams are one list. */
  lemma {:induction false} SortedUnique(s: seq<Seam>, t: seq<Seam>)
    requires Sorted(s) && Sorted(t) && forall x :: x in s <==> x in t
    ensures s == t
    decreases |s|
  {
    assert |t| > 0 ==> t[0] in t;
    if s != [] {
      var m := |s| - 1;
      assert s[m] in s;
      var j :| 0 <= j < |t| && t[j] == s[m];
      var n := |t| - 1;
      assert t[n] in t;
      var i :| 0 <= i < |s| && s[i] == t[n];
      assert j == n;
      Unlast(s, t);
      SortedUnique(Most(s), Most(t));
      assert s == Most(s) + [s[m]] && t == Most(t) + [t[n]];
    }
  }

  ghost function Most(s: seq<Seam>): seq<Seam>
    requires s != []
  {
    s[..|s| - 1]
  }

  lemma Unlast(s: seq<Seam>, t: seq<Seam>)
    requires Sorted(s) && Sorted(t) && |s| > 0 && |t| > 0 && s[|s| - 1] == t[|t| - 1] && forall x :: x in s <==> x in t
    ensures Sorted(s[..|s| - 1]) && Sorted(t[..|t| - 1])
    ensures forall x :: x in Most(s) <==> x in Most(t)
  {
    var m, n, y := |s| - 1, |t| - 1, s[|s| - 1];
    assert s == s[..m] + [y] && t == t[..n] + [y];
    forall i | 0 <= i < m
      ensures s[..m][i] != y
    {
      assert Before(s[i], s[m]);
    }
    forall i | 0 <= i < n
      ensures t[..n][i] != y
    {
      assert Before(t[i], t[n]);
    }
    assert forall x :: x in s <==> x in Most(s) || x == y;
    assert forall x :: x in t <==> x in Most(t) || x == y;
  }

  // ----- the rule

  predicate Conservative(r: Row) { r.ai + r.aj == r.bi + r.bj }

  predicate Discriminating(r: Row) { r.bi != r.bj }

  predicate IntegerRow(r: Row) { IsInt(r.bi) && IsInt(r.ai) && IsInt(r.bj) && IsInt(r.aj) }

  predicate MeanForm(r: Row) { Discriminating(r) && r.ai == r.aj == (r.bi + r.bj) / 2.0 }

  /** The readings land in the nearest agreement shell of an integer total. */
  predicate ShellForm(r: Row)
  {
    && Discriminating(r) && IntegerRow(r)
    && var s, ai, aj := (r.bi + r.bj).Floor, r.ai.Floor, r.aj.Floor;
       var low, high := s / 2, -((-s) / 2);
       {ai, aj} == {low, high} && ai + aj == s
  }

  predicate OverwriteForm(r: Row)
  {
    Discriminating(r) && ((r.ai == r.bi && r.aj == r.bi) || (r.aj == r.bj && r.ai == r.bj))
  }

  function CountRows(table: seq<Row>, f: Row -> bool): (n: nat)
    ensures n <= |table|
  {
    if table == [] then 0 else
      CountRows(table[..|table| - 1], f) + if f(table[|table| - 1]) then 1 else 0
  }

  /** Two counts agree, the first predicate implying the second, exactly when the second implies the first. */
  lemma {:induction false} CountsAgree(table: seq<Row>, f: Row -> bool, g: Row -> bool)
    requires forall r :: f(r) ==> g(r)
    ensures CountRows(table, f) <= CountRows(table, g)
    ensures CountRows(table, f) == CountRows(table, g) <==> forall r :: r in table && g(r) ==> f(r)
  {
    if table != [] {
      CountsAgree(table[..|table| - 1], f, g);
      assert table == table[..|table| - 1] + [table[|table| - 1]];
    }
  }

  lemma {:induction false} CountsNone(table: seq<Row>, f: Row -> bool)
    ensures CountRows(table, f) == 0 <==> forall r :: r in table ==> !f(r)
  {
    if table != [] {
      CountsNone(table[..|table| - 1], f);
      assert table == table[..|table| - 1] + [table[|table| - 1]];
    }
  }

  lemma {:induction false} CountsAll(table: seq<Row>, f: Row -> bool)
    ensures CountRows(table, f) == |table| <==> forall r :: r in table ==> f(r)
  {
    if table != [] {
      CountsAll(table[..|table| - 1], f);
      assert table == table[..|table| - 1] + [table[|table| - 1]];
    }
  }

  ghost predicate Every(table: seq<Row>, f: Row -> bool)
  {
    forall r :: r in table ==> f(r)
  }

  /** Every row that discriminates has the form `f`. */
  ghost predicate EveryDiscriminating(table: seq<Row>, f: Row -> bool)
  {
    forall r :: r in table && Discriminating(r) ==> f(r)
  }

  /** The classification, in terms of the rows. */
  ghost function Classify(table: seq<Row>): Rule
  {
    if Every(table, r => !Discriminating(r)) then Unclassified
    else if Every(table, Conservative) && EveryDiscriminating(table, MeanForm) then SeamMean
    else if Every(table, Conservative) && Every(table, IntegerRow) && EveryDiscriminating(table, ShellForm)
      then NearestAgreement
    else if EveryDiscriminating(table, OverwriteForm) then Overwrite
    else Unclassified
  }

  method RecoverRule(table: seq<Row>) returns (rule: Rule)
    ensures rule == Classify(table)
  {
    hide Conservative, Discriminating, IntegerRow, MeanForm, ShellForm, OverwriteForm;
    var conservative, discriminating, mean, shell, overwrite, integers := 0, 0, 0, 0, 0, true;
    for k := 0 to |table|
      invariant conservative == CountRows(table[..k], Conservative)
      invariant discriminating == CountRows(table[..k], Discriminating)
      invariant mean == CountRows(table[..k], MeanForm)
      invariant shell == CountRows(table[..k], ShellForm)
      invariant overwrite == CountRows(table[..k], OverwriteForm)
      invariant integers <==> Every(table[..k], IntegerRow)
    {
      var r := table[k];
      assert table[..k + 1][..k] == table[..k];
      assert table[..k + 1] == table[..k] + [r];
      if Conservative(r) { conservative := conservative + 1; }
      if !IntegerRow(r) { integers := false; }
      if Discriminating(r) { discriminating := discriminating + 1; }
      if MeanForm(r) { mean := mean + 1; }
      if ShellForm(r) { shell := shell + 1; }
      if OverwriteForm(r) { overwrite := overwrite + 1; }
    }
    assert table[..|table|] == table;
    var nonconservative := |table| - conservative;
    CountsDecide(table);
    if discriminating == 0 {
      rule := Unclassified;
    } else if nonconservative == 0 && mean == discriminating {
      rule := SeamMean;
    } else if nonconservative == 0 && integers && shell == discriminating {
      rule := NearestAgreement;
    } else if overwrite == discriminating {
      rule := Overwrite;
    } else {
      rule := Unclassified;
    }
  }

  lemma CountsDecide(table: seq<Row>)
    ensures CountRows(table, Discriminating) == 0 <==> Every(table, r => !Discriminating(r))
    ensures CountRows(table, Conservative) == |table| <==> Every(table, Conservative)
    ensures CountRows(table, MeanForm) == CountRows(table, Discriminating) <==> EveryDiscriminating(table, MeanForm)
    ensures CountRows(table, ShellForm) == CountRows(table, Discriminating) <==> EveryDiscriminating(table, ShellForm)
    ensures CountRows(table, OverwriteForm) == CountRows(table, Discriminating) <==>
      EveryDiscriminating(table, OverwriteForm)
  {
    CountsNone(table, Discriminating);
    CountsAll(table, Conservative);
    CountsAgree(table, MeanForm, Discriminating);
    CountsAgree(table, ShellForm, Discriminating);
    CountsAgree(table, OverwriteForm, Discriminating);
  }

  // ----- the rule of a source

  /** The row is one event of the rule. */
  ghost predicate RowByRule(rule: Rule, r: Row)
    requires rule != Unclassified
  {
    && (exists direction: nat :: (r.ai, r.aj) == ApplyRule(rule, r.bi, r.bj, direction))
    && (rule == NearestAgreement ==> IsInt(r.bi) && IsInt(r.bj))
  }

  ghost predicate TableByRule(rule: Rule, table: seq<Row>)
    requires rule != Unclassified
  {
    forall r :: r in table ==> RowByRule(rule, r)
  }

  predicate OddTotal(r: Row) { IsInt(r.bi) && IsInt(r.bj) && (r.bi.Floor + r.bj.Floor) % 2 == 1 }

  lemma MeanRow(r: Row)
    requires RowByRule(SeamMean, r)
    ensures Conservative(r) && (Discriminating(r) ==> MeanForm(r))
  {
  }

  lemma OverwriteRow(r: Row)
    requires RowByRule(Overwrite, r) && Discriminating(r)
    ensures OverwriteForm(r) && !Conservative(r)
  {
  }

  lemma AgreementRow(r: Row)
    requires RowByRule(NearestAgreement, r)
    ensures Conservative(r) && IntegerRow(r)
    ensures Discriminating(r) ==> ShellForm(r)
    ensures OddTotal(r) ==> Discriminating(r)
    ensures Discriminating(r) ==> (MeanForm(r) <==> !OddTotal(r))
  {
    var x, y := r.bi.Floor, r.bj.Floor;
    TruncateInt(x);
    TruncateInt(y);
    assert (r.bi + r.bj).Floor == x + y;
    TruncateInt(r.ai.Floor);
    TruncateInt(r.aj.Floor);
  }

  /** The forms are the events of the rules. */
  lemma FormsAreEvents(r: Row)
    requires Discriminating(r)
    ensures MeanForm(r) <==> RowByRule(SeamMean, r)
    ensures ShellForm(r) <==> RowByRule(NearestAgreement, r)
    ensures OverwriteForm(r) <==> RowByRule(Overwrite, r)
  {
    if MeanForm(r) {
      assert (r.ai, r.aj) == ApplyRule(SeamMean, r.bi, r.bj, 0);
    }
    if OverwriteForm(r) {
      assert (r.ai, r.aj) == ApplyRule(Overwrite, r.bi, r.bj, if r.ai == r.bi then 0 else 1);
    }
    if ShellForm(r) {
      ShellIsEvent(r);
    }
    if RowByRule(NearestAgreement, r) {
      AgreementRow(r);
    }
  }

  lemma ShellIsEvent(r: Row)
    requires ShellForm(r)
    ensures RowByRule(NearestAgreement, r)
  {
    var x, y := r.bi.Floor, r.bj.Floor;
    TruncateInt(x);
    TruncateInt(y);
    assert (r.bi + r.bj).Floor == x + y;
    var low, high := (x + y) / 2, -((-(x + y)) / 2);
    assert r.ai.Floor in {low, high} && r.aj.Floor in {low, high};
    assert r.ai.Floor == high ==> r.aj.Floor == low;
    assert r.ai.Floor == low ==> r.aj.Floor == high;
    var direction: nat := if r.ai.Floor == high then 0 else 1;
    assert (r.ai, r.aj) == ApplyRule(NearestAgreement, r.bi, r.bj, direction);
  }

  ghost predicate Telltale(table: seq<Row>)
  {
    exists r :: r in table && Discriminating(r)
  }

  /** Every row that discriminates is an event of the rule. */
  ghost predicate EventsOf(rule: Rule, table: seq<Row>)
    requires rule != Unclassified
  {
    forall r :: r in table && Discriminating(r) ==> RowByRule(rule, r)
  }

  /** The total is kept in every row. */
  ghost predicate KeepsTotals(table: seq<Row>)
  {
    forall r :: r in table ==> r.ai + r.aj == r.bi + r.bj
  }

  ghost predicate AllIntegers(table: seq<Row>)
  {
    forall r :: r in table ==> IsInt(r.bi) && IsInt(r.ai) && IsInt(r.bj) && IsInt(r.aj)
  }

  /** On any table, the class is the first rule in the order mean, agreement, overwrite whose events the
      discriminating rows are, where the first two must keep all totals and the second all integers. */
  lemma ClassifyMeans(table: seq<Row>)
    ensures Classify(table) == SeamMean <==> Telltale(table) && KeepsTotals(table) && EventsOf(SeamMean, table)
    ensures Classify(table) == NearestAgreement <==>
      && Telltale(table) && KeepsTotals(table) && AllIntegers(table) && EventsOf(NearestAgreement, table)
      && !EventsOf(SeamMean, table)
    ensures Classify(table) == Overwrite <==>
      && Telltale(table) && EventsOf(Overwrite, table)
      && !(KeepsTotals(table) && (EventsOf(SeamMean, table)
                                  || (AllIntegers(table) && EventsOf(NearestAgreement, table))))
  {
    hide Discriminating, MeanForm, ShellForm, OverwriteForm, RowByRule;
    forall r | r in table && Discriminating(r)
      ensures MeanForm(r) <==> RowByRule(SeamMean, r)
      ensures ShellForm(r) <==> RowByRule(NearestAgreement, r)
      ensures OverwriteForm(r) <==> RowByRule(Overwrite, r)
    {
      FormsAreEvents(r);
    }
    assert KeepsTotals(table) <==> Every(table, Conservative);
    assert AllIntegers(table) <==> Every(table, IntegerRow);
    assert EventsOf(SeamMean, table) <==> EveryDiscriminating(table, MeanForm);
    assert EventsOf(NearestAgreement, table) <==> EveryDiscriminating(table, ShellForm);
    assert EventsOf(Overwrite, table) <==> EveryDiscriminating(table, OverwriteForm);
  }

  /** Recovery finds the rule exactly when some event tells it from the others. */
  lemma RuleRecovered(rule: Rule, table: seq<Row>)
    requires rule != Unclassified && TableByRule(rule, table)
    ensures rule != NearestAgreement ==> (Classify(table) == rule <==> exists r :: r in table && Discriminating(r))
    ensures rule == NearestAgreement ==> (Classify(table) == rule <==> exists r :: r in table && OddTotal(r))
    ensures Classify(table) != rule ==>
      Classify(table) == if exists r :: r in table && Discriminating(r) then SeamMean else Unclassified
  {
    hide Conservative, Discriminating, IntegerRow, MeanForm, ShellForm, OverwriteForm, RowByRule, OddTotal;
    match rule
    case SeamMean =>
      forall r | r in table
        ensures Conservative(r) && (Discriminating(r) ==> MeanForm(r))
      {
        MeanRow(r);
      }
    case Overwrite =>
      forall r | r in table && Discriminating(r)
        ensures OverwriteForm(r) && !Conservative(r)
      {
        OverwriteRow(r);
      }
    case NearestAgreement =>
      forall r | r in table
        ensures Conservative(r) && IntegerRow(r) && (Discriminating(r) ==> ShellForm(r))
        ensures (OddTotal(r) ==> Discriminating(r)) && (Discriminating(r) ==> (MeanForm(r) <==> !OddTotal(r)))
      {
        AgreementRow(r);
      }
  }
}
