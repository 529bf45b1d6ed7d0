/**
 The reporting part of the code emitted by analyzeOneTable: one row of sqlite_stat1 for a non-empty
 index, none for an empty one.
 */
module AnalyzeReport {
  import opened Vdbe
  import opened Analyze

  /** Row count and distinct counts of an index. */
  datatype Totals = Totals(k: nat, ds: seq<nat>)

  ghost function TotalsOf(rows: seq<Row>, n: nat): (t: Totals)
    requires Wide(rows, n)
    ensures t.k == |rows| && |t.ds| == n
    ensures forall c :: 0 <= c < n ==> t.ds[c] == Starts(rows, n, |rows|, c)
  {
    Totals(|rows|, seq(n, c requires 0 <= c < n => Starts(rows, n, |rows|, c)))
  }

  function Estimate(k: nat, d: nat): nat
    requires d > 0
  {
    (k + d - 1) / d
  }

  ghost predicate Positive(t: Totals) {
    forall c :: 0 <= c < |t.ds| ==> t.ds[c] > 0
  }

  /** The statistics string for the first c columns. */
  ghost function StatText(t: Totals, c: nat): string
    requires Positive(t) && c <= |t.ds|
  {
    if c == 0 then Decimal(t.k)
    else StatText(t, c - 1) + " " + Decimal(Estimate(t.k, t.ds[c - 1]))
  }

  ghost predicate TotalsIn(j: Job, mem: seq<Value>, t: Totals) {
    && j.Rec() < |mem| && |t.ds| == j.n
    && mem[j.m] == Int(t.k)
    && (forall c :: 0 <= c < j.n ==> mem[j.m + 1 + c] == Int(t.ds[c]))
  }

  lemma CountedTotals(j: Job, rows: seq<Row>, mem: seq<Value>)
    requires Wide(rows, j.n) && Counted(j, rows, mem, |rows|)
    ensures TotalsIn(j, mem, TotalsOf(rows, j.n))
  {
    hide Starts, Prev;
    forall c | 0 <= c < j.n
      ensures mem[j.m + 1 + c] == Int(TotalsOf(rows, j.n).ds[c])
    {
      assert Cells(j, rows, mem, |rows|, c);
    }
  }

  /** In a non-empty index every counter is positive: the first row is always fresh. */
  lemma {:induction false} StartsPositive(rows: seq<Row>, n: nat, r: nat, c: nat)
    requires Wide(rows, n) && 0 < r <= |rows| && c < n
    ensures 0 < Starts(rows, n, r, c) <= r
  {
    if r == 1 {
      assert New(rows, n, 0, c);
    } else {
      StartsPositive(rows, n, r - 1, c);
    }
  }

  lemma TotalsPositive(rows: seq<Row>, n: nat)
    requires Wide(rows, n) && rows != []
    ensures Positive(TotalsOf(rows, n))
  {
    forall c | 0 <= c < n
      ensures TotalsOf(rows, n).ds[c] > 0
    {
      StartsPositive(rows, n, |rows|, c);
    }
  }

  lemma PrintCode(prog: seq<Op>, j: Job, c: nat)
    requires Layout(prog, j) && c < j.n
    ensures PrintAt(prog, j, c)
  {
  }

  /** The text built so far. */
  ghost predicate Printed(j: Job, mem: seq<Value>, t: Totals, text: string) {
    TotalsIn(j, mem, t) && Printable(mem[j.F() + 2]) && AsText(mem[j.F() + 2]) == text
  }

  /** The first two fields of the record are as they were. */
  ghost predicate SameNames(j: Job, a: seq<Value>, b: seq<Value>) {
    |a| == |b| > j.Rec() && a[j.F()] == b[j.F()] && a[j.F() + 1] == b[j.F() + 1]
  }

  lemma KeepsTotals(j: Job, mem: seq<Value>, t: Totals, to: nat, v: Value)
    requires TotalsIn(j, mem, t) && j.m + j.n < to < |mem|
    ensures TotalsIn(j, mem[to := v], t)
  {
  }

  /** The first half: append a blank. */
  lemma PrintBlank(prog: seq<Op>, db: seq<seq<Row>>, j: Job, s: State, t: Totals, c: nat, text: string) returns (s': State)
    requires PrintAt(prog, j, c) && c < j.n && s.pc == j.Report() + 4 + 7 * c && Printed(j, s.mem, t, text)
    ensures Reaches(prog, db, s, s') && SamePlace(s, s')
    ensures s'.pc == s.pc + 2 && Printed(j, s'.mem, t, text + " ") && SameNames(j, s.mem, s'.mem)
  {
    hide Reaches, TotalsIn;
    assert j.Rec() < |s.mem| by { Size(j, s.mem, t); }
    DoString(prog, db, s, j.Temp(), " ");
    var s1 := Wrote(s, j.Temp(), Text(" "));
    DoConcat(prog, db, s1, j.Temp(), j.F() + 2, j.F() + 2);
    s' := Wrote(s1, j.F() + 2, Text(text + " "));
    ReachesOn(prog, db, s, s1, s');
    KeepsTotals(j, s.mem, t, j.Temp(), Text(" "));
    KeepsTotals(j, s1.mem, t, j.F() + 2, Text(text + " "));
  }

  lemma Size(j: Job, mem: seq<Value>, t: Totals)
    requires TotalsIn(j, mem, t)
    ensures j.Rec() < |mem|
  {
  }

  /** The second half computes the estimate in the scratch register. */
  lemma Compute(prog: seq<Op>, db: seq<seq<Row>>, j: Job, s: State, t: Totals, c: nat) returns (s': State)
    requires PrintAt(prog, j, c) && c < j.n && s.pc == j.Report() + 6 + 7 * c && TotalsIn(j, s.mem, t) && t.ds[c] > 0
    ensures Reaches(prog, db, s, s') && SamePlace(s, s')
    ensures s'.pc == s.pc + 4 && s'.mem == s.mem[j.Temp() := Int(Estimate(t.k, t.ds[c]))]
  {
    hide Reaches, Estimate;
    var r, k, d := j.Temp(), t.k, t.ds[c];
    assert s.mem[j.D(c)] == Int(d);
    hide TotalsIn;
    DoAdd(prog, db, s, j.m, j.D(c), r);
    var s1 := Wrote(s, r, Int(k + d));
    DoAddImm(prog, db, s1, r, -1);
    var s2 := Wrote(s1, r, Int(k + d - 1));
    ReachesOn(prog, db, s, s1, s2);
    DoDivide(prog, db, s2, j.D(c), r, r);
    var s3 := Wrote(s2, r, Int((k + d - 1) / d));
    ReachesOn(prog, db, s, s2, s3);
    assert Estimate(k, d) == (k + d - 1) / d by { EstimateIs(k, d); }
    s' := Wrote(s3, r, s3.mem[r]);
    One(prog, db, s3, s');
    ReachesOn(prog, db, s, s3, s');
  }

  lemma EstimateIs(k: nat, d: nat)
    requires d > 0
    ensures Estimate(k, d) == (k + d - 1) / d
  {
  }

  lemma PrintOne(prog: seq<Op>, db: seq<seq<Row>>, j: Job, s: State, t: Totals, c: nat) returns (s': State)
    requires PrintAt(prog, j, c) && Positive(t) && c < j.n == |t.ds|
    requires s.pc == j.Report() + 4 + 7 * c && Printed(j, s.mem, t, StatText(t, c))
    ensures Reaches(prog, db, s, s') && SamePlace(s, s') && s'.pc == s.pc + 7
    ensures Printed(j, s'.mem, t, StatText(t, c + 1)) && s'.mem[j.F() + 2].Text?
    ensures SameNames(j, s.mem, s'.mem)
  {
    hide Reaches, Decimal, Estimate, TotalsIn, Positive, PrintAt;
    LastOp(prog, j, c);
    assert t.ds[c] > 0 by { PositiveAt(t, c); }
    var e := Estimate(t.k, t.ds[c]);
    Size(j, s.mem, t);
    var text := StatText(t, c) + " ";
    var s1 := PrintBlank(prog, db, j, s, t, c, StatText(t, c));
    var s2 := Compute(prog, db, j, s1, t, c);
    KeepsTotals(j, s1.mem, t, j.Temp(), Int(e));
    ReachesOn(prog, db, s, s1, s2);
    s' := Append(prog, db, j, s2, t, text, e);
    ReachesOn(prog, db, s, s2, s');
  }

  lemma Append(prog: seq<Op>, db: seq<seq<Row>>, j: Job, s: State, t: Totals, text: string, e: nat) returns (s': State)
    requires Fetches(prog, s, Concat(j.Temp(), j.F() + 2, j.F() + 2))
    requires Printed(j, s.mem, t, text) && s.mem[j.Temp()] == Int(e)
    ensures Reaches(prog, db, s, s') && SamePlace(s, s') && s'.pc == s.pc + 1
    ensures Printed(j, s'.mem, t, text + Decimal(e)) && s'.mem[j.F() + 2].Text? && SameNames(j, s.mem, s'.mem)
  {
    hide Reaches, Decimal, TotalsIn;
    Size(j, s.mem, t);
    DoConcat(prog, db, s, j.Temp(), j.F() + 2, j.F() + 2);
    s' := Wrote(s, j.F() + 2, Text(text + Decimal(e)));
    KeepsTotals(j, s.mem, t, j.F() + 2, Text(text + Decimal(e)));
  }

  lemma LastOp(prog: seq<Op>, j: Job, c: nat)
    requires PrintAt(prog, j, c)
    ensures var a := j.Report() + 4 + 7 * c + 6; a < |prog| && prog[a] == Concat(j.Temp(), j.F() + 2, j.F() + 2)
  {
  }

  lemma PositiveAt(t: Totals, c: nat)
    requires Positive(t) && c < |t.ds|
    ensures t.ds[c] > 0
  {
  }

  lemma {:induction false} PrintAll(prog: seq<Op>, db: seq<seq<Row>>, j: Job, s: State, t: Totals, c: nat) returns (s': State)
    requires Layout(prog, j) && Positive(t) && c <= j.n == |t.ds|
    requires s.pc == j.Report() + 4 + 7 * c && Printed(j, s.mem, t, StatText(t, c)) && (c > 0 ==> s.mem[j.F() + 2].Text?)
    ensures Reaches(prog, db, s, s') && SamePlace(s, s') && s'.pc == j.Finish()
    ensures Printed(j, s'.mem, t, StatText(t, j.n)) && (j.n > 0 ==> s'.mem[j.F() + 2].Text?)
    ensures SameNames(j, s.mem, s'.mem)
    decreases j.n - c
  {
    hide Reaches, Layout, Positive, StatText, TotalsIn;
    Size(j, s.mem, t);
    if c == j.n {
      s' := s;
      Stay(prog, db, s);
    } else {
      PrintCode(prog, j, c);
      var s1 := PrintOne(prog, db, j, s, t, c);
      s' := PrintAll(prog, db, j, s1, t, c + 1);
      ReachesOn(prog, db, s, s1, s');
    }
  }

  lemma ReportCode(prog: seq<Op>, j: Job)
    requires Layout(prog, j)
    ensures ReportAt(prog, j, j.Exit()) && FinishAt(prog, j)
  {
  }

  /** The names and the row count are put in place; the last "last observed" register is given up. */
  lemma Names(prog: seq<Op>, db: seq<seq<Row>>, j: Job, s: State, t: Totals) returns (s': State)
    requires ReportAt(prog, j, j.Exit()) && s.pc == j.Report() && TotalsIn(j, s.mem, t) && t.k > 0 && j.n > 0
    ensures Reaches(prog, db, s, s') && SamePlace(s, s') && s'.pc == s.pc + 4 && |s'.mem| == |s.mem|
    ensures TotalsIn(j, s'.mem, t) && s'.mem[j.F() + 2] == Int(t.k)
    ensures s'.mem[j.F()] == Text(j.table) && s'.mem[j.F() + 1] == Text(j.name)
  {
    hide Reaches;
    var s1 := s.(pc := s.pc + 1);
    One(prog, db, s, s1);
    hide Step;
    DoString(prog, db, s1, j.F(), j.table);
    var s2 := Wrote(s1, j.F(), Text(j.table));
    ReachesOn(prog, db, s, s1, s2);
    DoString(prog, db, s2, j.F() + 1, j.name);
    var s3 := Wrote(s2, j.F() + 1, Text(j.name));
    ReachesOn(prog, db, s, s2, s3);
    s' := Wrote(s3, j.F() + 2, Int(t.k));
    DoSCopy(prog, db, s3, j.m, j.F() + 2);
    ReachesOn(prog, db, s, s3, s');
  }

  /** The record is built and appended. */
  lemma Store(prog: seq<Op>, db: seq<seq<Row>>, j: Job, s: State, a: Value, b: Value, c: Value) returns (s': State)
    requires FinishAt(prog, j) && s.pc == j.Finish() && j.Rec() < |s.mem|
    requires s.mem[j.F()] == a && s.mem[j.F() + 1] == b && s.mem[j.F() + 2] == c
    ensures Reaches(prog, db, s, s') && s'.pc == j.Exit() && |s'.mem| == |s.mem|
    ensures s'.stat == s.stat + [Record([a, b, c])]
  {
    hide Reaches;
    assert s.mem[j.F()..j.F() + 3] == [a, b, c];
    var s1 := Wrote(s, j.Rec(), Record([a, b, c]));
    One(prog, db, s, s1);
    var s2 := Wrote(s1, j.Temp(), Int(|s.stat| + 1));
    One(prog, db, s1, s2);
    ReachesOn(prog, db, s, s1, s2);
    s' := s2.(pc := j.Exit(), stat := s.stat + [Record([a, b, c])]);
    One(prog, db, s2, s');
    ReachesOn(prog, db, s, s2, s');
  }

  /** The sqlite_stat1 rows of an index: one unless the index is empty. */
  ghost function StatRows(rows: seq<Row>, j: Job): seq<Value>
    requires Wide(rows, j.n)
  {
    if rows == [] then []
    else
      TotalsPositive(rows, j.n);
      [Record([Text(j.table), Text(j.name), Text(StatText(TotalsOf(rows, j.n), j.n))])]
  }

  /** A non-empty index is reported. */
  lemma ReportSome(prog: seq<Op>, db: seq<seq<Row>>, j: Job, s: State, t: Totals) returns (s': State)
    requires Layout(prog, j) && s.pc == j.Report() && j.n > 0 && TotalsIn(j, s.mem, t) && Positive(t) && t.k > 0
    ensures |t.ds| == j.n
    ensures Reaches(prog, db, s, s') && s'.pc == j.Exit() && |s'.mem| == |s.mem|
    ensures s'.stat == s.stat + [Record([Text(j.table), Text(j.name), Text(StatText(t, j.n))])]
  {
    hide Reaches, Layout, StatText, Positive, ReportAt, FinishAt, TotalsIn, Printable, AsText;
    CountOf(j, s.mem, t);
    ReportCode(prog, j);
    var s1 := Names(prog, db, j, s, t);
    StatStart(j, s1.mem, t);
    var s2 := PrintAll(prog, db, j, s1, t, 0);
    ReachesOn(prog, db, s, s1, s2);
    Size(j, s2.mem, t);
    TextIs(s2.mem[j.F() + 2]);
    s' := Store(prog, db, j, s2, Text(j.table), Text(j.name), Text(StatText(t, j.n)));
    ReachesOn(prog, db, s, s2, s');
  }

  lemma CountOf(j: Job, mem: seq<Value>, t: Totals)
    requires TotalsIn(j, mem, t)
    ensures |t.ds| == j.n
  {
  }

  lemma StatStart(j: Job, mem: seq<Value>, t: Totals)
    requires TotalsIn(j, mem, t) && mem[j.F() + 2] == Int(t.k) && Positive(t)
    ensures Printed(j, mem, t, StatText(t, 0))
  {
    hide Decimal;
  }

  lemma TextIs(v: Value)
    requires v.Text?
    ensures Printable(v) && v == Text(AsText(v))
  {
  }

  lemma Report(prog: seq<Op>, db: seq<seq<Row>>, j: Job, s: State) returns (s': State)
    requires Layout(prog, j) && Ready(db, j, s) && s.pc == j.Report() && j.n > 0
    requires TotalsIn(j, s.mem, TotalsOf(db[j.root], j.n))
    ensures Reaches(prog, db, s, s') && s'.pc == j.Exit() && |s'.mem| == |s.mem|
    ensures s'.stat == s.stat + StatRows(db[j.root], j)
  {
    hide Reaches, Layout, StatText, Positive;
    var rows := db[j.root];
    if rows == [] {
      ReportCode(prog, j);
      s' := s.(pc := j.Exit());
      One(prog, db, s, s');
    } else {
      hide Step, TotalsIn;
      TotalsPositive(rows, j.n);
      s' := ReportSome(prog, db, j, s, TotalsOf(rows, j.n));
    }
  }

  /** The code for one index, run on any registers, reports exactly the statistics of that index. */
  lemma AnalyzeIndex(prog: seq<Op>, db: seq<seq<Row>>, j: Job, s: State) returns (t: State)
    requires Layout(prog, j) && Ready(db, j, s) && s.pc == j.at && j.n > 0
    ensures Reaches(prog, db, s, t) && t.pc == j.Exit() && |t.mem| == |s.mem|
    ensures t.stat == s.stat + StatRows(db[j.root], j)
  {
    hide Reaches, Layout, Counted, TotalsIn, TotalsOf, StatRows;
    var s1 := Count(prog, db, j, s);
    CountedTotals(j, db[j.root], s1.mem);
    t := Report(prog, db, j, s1);
    ReachesOn(prog, db, s, s1, t);
  }

  // ----- all indices of a table

  ghost predicate Chained(prog: seq<Op>, jobs: seq<Job>) {
    && (forall i :: 0 <= i < |jobs| ==> Layout(prog, jobs[i]) && jobs[i].n > 0)
    && (forall i, k :: 0 <= i && k == i + 1 < |jobs| ==> jobs[k].at == jobs[i].Exit())
  }

  ghost predicate AllReady(db: seq<seq<Row>>, jobs: seq<Job>, size: nat) {
    forall i :: 0 <= i < |jobs| ==>
      jobs[i].root < |db| && Wide(db[jobs[i].root], jobs[i].n) && jobs[i].Rec() < size
  }

  ghost function AllStatRows(db: seq<seq<Row>>, jobs: seq<Job>, size: nat): seq<Value>
    requires AllReady(db, jobs, size)
  {
    if jobs == [] then [] else StatRows(db[jobs[0].root], jobs[0]) + AllStatRows(db, jobs[1..], size)
  }

  /** The code for a table's indices reports them one after another, although all share their registers. */
  lemma {:induction false} AnalyzeTable(prog: seq<Op>, db: seq<seq<Row>>, jobs: seq<Job>, s: State) returns (t: State)
    requires Chained(prog, jobs) && AllReady(db, jobs, |s.mem|)
    requires jobs != [] ==> s.pc == jobs[0].at
    ensures Reaches(prog, db, s, t) && t.pc == if jobs == [] then s.pc else jobs[|jobs| - 1].Exit()
    ensures t.stat == s.stat + AllStatRows(db, jobs, |s.mem|)
    decreases |jobs|
  {
    hide Reaches, Layout, StatRows, Chained, AllReady;
    if jobs == [] {
      t := s;
      Stay(prog, db, s);
    } else {
      ChainedRest(prog, jobs);
      ReadyRest(db, jobs, s);
      var s1 := AnalyzeIndex(prog, db, jobs[0], s);
      t := AnalyzeTable(prog, db, jobs[1..], s1);
      ReachesOn(prog, db, s, s1, t);
    }
  }

  lemma ReadyRest(db: seq<seq<Row>>, jobs: seq<Job>, s: State)
    requires AllReady(db, jobs, |s.mem|) && jobs != []
    ensures Ready(db, jobs[0], s) && AllReady(db, jobs[1..], |s.mem|)
  {
    hide Wide;
    var rest := jobs[1..];
    forall i | 0 <= i < |rest|
      ensures rest[i].root < |db| && Wide(db[rest[i].root], rest[i].n) && rest[i].Rec() < |s.mem|
    {
      assert rest[i] == jobs[i + 1];
    }
  }

  lemma ChainedRest(prog: seq<Op>, jobs: seq<Job>)
    requires Chained(prog, jobs) && jobs != []
    ensures Layout(prog, jobs[0]) && jobs[0].n > 0 && Chained(prog, jobs[1..])
    ensures |jobs| > 1 ==> jobs[1].at == jobs[0].Exit()
  {
    hide Layout;
    var rest := jobs[1..];
    forall i, k | 0 <= i && k == i + 1 < |rest|
      ensures rest[k].at == rest[i].Exit()
    {
      assert rest[i] == jobs[i + 1] && rest[k] == jobs[k + 1];
    }
    if |jobs| > 1 {
      var i, k := 0, 1;
      assert jobs[k].at == jobs[i].Exit();
    }
  }
}
