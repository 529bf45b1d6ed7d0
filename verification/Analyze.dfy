/**
 The code that analyzeOneTable of analyze.c emits for one index, and what running it computes.
 */
module Analyze {
  import opened Vdbe

  /** One index to analyze: first code address, first free register, columns, root and names. */
  datatype Job = Job(at: nat, m: nat, n: nat, root: nat, table: string, name: string)
  {
    // addresses
    function Top(): nat { at + 2 * n + 4 }
    function Upd(): nat { Top() + 2 * n + 2 }
    function End(): nat { Upd() + 2 * n }
    function Report(): nat { End() + 2 }
    function Finish(): nat { Report() + 4 + 7 * n }
    function Exit(): nat { Finish() + 3 }

    // registers; the last of the "last observed" ones is also the first field of the record
    function D(c: nat): nat { m + 1 + c }
    function L(c: nat): nat { m + n + 1 + c }
    function F(): nat { m + 2 * n }
    function Temp(): nat { F() + 3 }
    function Rec(): nat { F() + 4 }
  }

  // ----- the emitted code

  ghost predicate ZeroAt(prog: seq<Op>, j: Job, i: nat) {
    j.at + 2 + i < |prog| && prog[j.at + 2 + i] == Integer(0, j.m + i)
  }

  ghost predicate NullAt(prog: seq<Op>, j: Job, c: nat) {
    j.at + 3 + j.n + c < |prog| && prog[j.at + 3 + j.n + c] == SetNull(j.L(c))
  }

  ghost predicate CompareAt(prog: seq<Op>, j: Job, c: nat, target: int) {
    && j.Top() + 2 + 2 * c < |prog|
    && prog[j.Top() + 1 + 2 * c] == Column(c, j.Temp())
    && prog[j.Top() + 2 + 2 * c] == Ne(j.Temp(), target, j.L(c))
  }

  ghost predicate UpdateAt(prog: seq<Op>, j: Job, c: nat) {
    && j.Upd() + 1 + 2 * c < |prog|
    && prog[j.Upd() + 2 * c] == AddImm(j.D(c), 1)
    && prog[j.Upd() + 1 + 2 * c] == Column(c, j.L(c))
  }

  ghost predicate PrintAt(prog: seq<Op>, j: Job, c: nat) {
    var a := j.Report() + 4 + 7 * c;
    && a + 6 < |prog|
    && prog[a] == String8(j.Temp(), " ")
    && prog[a + 1] == Concat(j.Temp(), j.F() + 2, j.F() + 2)
    && prog[a + 2] == Add(j.m, j.D(c), j.Temp())
    && prog[a + 3] == AddImm(j.Temp(), -1)
    && prog[a + 4] == Divide(j.D(c), j.Temp(), j.Temp())
    && prog[a + 5] == ToInt(j.Temp())
    && prog[a + 6] == Concat(j.Temp(), j.F() + 2, j.F() + 2)
  }

  ghost predicate OpenAt(prog: seq<Op>, j: Job) {
    && j.at + 1 < |prog|
    && prog[j.at] == SetNumColumns(j.n + 1)
    && prog[j.at + 1] == OpenRead(j.root)
  }

  ghost predicate LoopAt(prog: seq<Op>, j: Job) {
    && j.End() + 1 < |prog|
    && prog[j.Top() - 1] == Rewind(j.End())
    && prog[j.Top()] == AddImm(j.m, 1)
    && prog[j.Upd() - 1] == Goto(j.End())
    && prog[j.End()] == Next(j.Top())
    && prog[j.End() + 1] == Close
  }

  ghost predicate ReportAt(prog: seq<Op>, j: Job, exit: int) {
    && j.Report() + 3 < |prog|
    && prog[j.Report()] == IfNot(j.m, exit)
    && prog[j.Report() + 1] == String8(j.F(), j.table)
    && prog[j.Report() + 2] == String8(j.F() + 1, j.name)
    && prog[j.Report() + 3] == SCopy(j.m, j.F() + 2)
  }

  ghost predicate FinishAt(prog: seq<Op>, j: Job) {
    && j.Finish() + 2 < |prog|
    && prog[j.Finish()] == MakeRecord(j.F(), 3, j.Rec())
    && prog[j.Finish() + 1] == NewRowid(j.Temp())
    && prog[j.Finish() + 2] == Insert(j.Rec(), j.Temp())
  }

  /** The whole of the code for one index. */
  ghost predicate Layout(prog: seq<Op>, j: Job) {
    && OpenAt(prog, j)
    && (forall i :: 0 <= i <= j.n ==> ZeroAt(prog, j, i))
    && (forall c :: 0 <= c < j.n ==> NullAt(prog, j, c))
    && (forall c :: 0 <= c < j.n ==> CompareAt(prog, j, c, j.Upd() + 2 * c))
    && (forall c :: 0 <= c < j.n ==> UpdateAt(prog, j, c))
    && LoopAt(prog, j)
    && ReportAt(prog, j, j.Exit())
    && (forall c :: 0 <= c < j.n ==> PrintAt(prog, j, c))
    && FinishAt(prog, j)
  }

  // ----- what is counted

  ghost predicate Wide(rows: seq<Row>, n: nat) {
    forall r :: 0 <= r < |rows| ==> |rows[r]| >= n
  }

  /** The last observed value of column c before row r. */
  ghost function Prev(rows: seq<Row>, n: nat, r: nat, c: nat): Value
    requires Wide(rows, n) && r <= |rows| && c < n
  {
    if r == 0 then Null else rows[r - 1][c]
  }

  ghost predicate New(rows: seq<Row>, n: nat, r: nat, c: nat)
    requires Wide(rows, n) && r < |rows| && c < n
  {
    Differ(Prev(rows, n, r, c), rows[r][c])
  }

  /** One of the columns up to c of row r is new. */
  ghost predicate Fresh(rows: seq<Row>, n: nat, r: nat, c: nat)
    requires Wide(rows, n) && r < |rows| && c < n
  {
    exists i :: 0 <= i <= c && New(rows, n, r, i)
  }

  /** How many of the first r rows are fresh in the columns up to c. */
  ghost function Starts(rows: seq<Row>, n: nat, r: nat, c: nat): nat
    requires Wide(rows, n) && r <= |rows| && c < n
  {
    if r == 0 then 0 else Starts(rows, n, r - 1, c) + if Fresh(rows, n, r - 1, c) then 1 else 0
  }

  /** The two registers of column c hold what r rows give. */
  ghost predicate Cells(j: Job, rows: seq<Row>, mem: seq<Value>, r: nat, c: nat)
    requires Wide(rows, j.n) && r <= |rows| && c < j.n
  {
    && j.L(c) < |mem|
    && mem[j.D(c)] == Int(Starts(rows, j.n, r, c))
    && mem[j.L(c)] == Prev(rows, j.n, r, c)
  }

  ghost predicate Partly(j: Job, rows: seq<Row>, mem: seq<Value>, r: nat, c: nat, i: nat)
    requires Wide(rows, j.n) && r < |rows| && i < j.n
  {
    Cells(j, rows, mem, if i < c then r + 1 else r, i)
  }

  /** Inside the loop, on row r: the columns before c are up to date, the others are not yet. */
  ghost predicate Between(j: Job, rows: seq<Row>, mem: seq<Value>, r: nat, c: nat)
    requires Wide(rows, j.n) && r < |rows|
  {
    && j.Rec() < |mem|
    && mem[j.m] == Int(r + 1)
    && (forall i :: 0 <= i < j.n ==> Partly(j, rows, mem, r, c, i))
  }

  /** The counts after r rows. */
  ghost predicate Counted(j: Job, rows: seq<Row>, mem: seq<Value>, r: nat)
    requires Wide(rows, j.n) && r <= |rows|
  {
    && j.Rec() < |mem|
    && mem[j.m] == Int(r)
    && (forall i :: 0 <= i < j.n ==> Cells(j, rows, mem, r, i))
  }

  ghost predicate OnRow(db: seq<seq<Row>>, j: Job, s: State, r: nat) {
    j.root < |db| && s.cursor == j.root && s.row == r < |db[j.root]| && Wide(db[j.root], j.n)
  }

  /** Everything but the registers and the program counter. */
  predicate SamePlace(s: State, t: State) {
    t.cursor == s.cursor && t.row == s.row && t.stat == s.stat
  }

  // ----- one pass of the loop

  /** A column that is not new needs no update. */
  lemma NotNew(j: Job, rows: seq<Row>, mem: seq<Value>, r: nat, c: nat)
    requires Wide(rows, j.n) && r < |rows| && c < j.n && Cells(j, rows, mem, r, c)
    requires !Fresh(rows, j.n, r, c)
    ensures Cells(j, rows, mem, r + 1, c)
  {
    assert !New(rows, j.n, r, c);
  }

  lemma CompareCode(prog: seq<Op>, j: Job, c: nat)
    requires Layout(prog, j) && c < j.n
    ensures CompareAt(prog, j, c, j.Upd() + 2 * c)
  {
  }

  lemma CompareOne(prog: seq<Op>, db: seq<seq<Row>>, j: Job, s: State, r: nat, c: nat) returns (t: State)
    requires Layout(prog, j) && OnRow(db, j, s, r) && c < j.n
    requires s.pc == j.Top() + 1 + 2 * c && Between(j, db[j.root], s.mem, r, c)
    ensures Reaches(prog, db, s, t) && SamePlace(s, t) && Between(j, db[j.root], t.mem, r, c) && |t.mem| == |s.mem|
    ensures t.pc == if New(db[j.root], j.n, r, c) then j.Upd() + 2 * c else j.Top() + 1 + 2 * (c + 1)
  {
    hide Reaches, Starts, Layout;
    var rows := db[j.root];
    CompareCode(prog, j, c);
    assert Partly(j, rows, s.mem, r, c, c);
    TempIsFree(j, rows, s.mem, r, c, rows[r][c]);
    hide Between;
    DoColumn(prog, db, s, c, j.Temp());
    var s1 := Wrote(s, j.Temp(), rows[r][c]);
    DoNe(prog, db, s1, j.Temp(), j.Upd() + 2 * c, j.L(c));
    t := s1.(pc := if New(rows, j.n, r, c) then j.Upd() + 2 * c else j.Top() + 1 + 2 * (c + 1));
    ReachesOn(prog, db, s, s1, t);
  }

  lemma TempIsFree(j: Job, rows: seq<Row>, mem: seq<Value>, r: nat, c: nat, v: Value)
    requires Wide(rows, j.n) && r < |rows| && Between(j, rows, mem, r, c)
    ensures Between(j, rows, mem[j.Temp() := v], r, c)
  {
    hide Starts, Prev;
    var mem' := mem[j.Temp() := v];
    forall i | 0 <= i < j.n
      ensures Partly(j, rows, mem', r, c, i)
    {
      assert Partly(j, rows, mem, r, c, i);
    }
  }

  /** The comparisons from column c on find the first new column, or leave the pass. */
  lemma {:induction false} Compare(prog: seq<Op>, db: seq<seq<Row>>, j: Job, s: State, r: nat, c: nat) returns (t: State)
    requires Layout(prog, j) && OnRow(db, j, s, r) && c <= j.n
    requires s.pc == j.Top() + 1 + 2 * c && Between(j, db[j.root], s.mem, r, c)
    requires forall i :: 0 <= i < c ==> !New(db[j.root], j.n, r, i)
    ensures Reaches(prog, db, s, t) && SamePlace(s, t) && Between(j, db[j.root], t.mem, r, j.n) && |t.mem| == |s.mem|
    ensures t.pc == j.End()
    decreases j.n - c
  {
    hide Reaches, Starts, Layout, Between, New;
    var rows := db[j.root];
    if c == j.n {
      LoopCode(prog, j);
      t := s.(pc := j.End());
      One(prog, db, s, t);
    } else {
      var s1 := CompareOne(prog, db, j, s, r, c);
      if New(rows, j.n, r, c) {
        assert Fresh(rows, j.n, r, c);
        t := Update(prog, db, j, s1, r, c);
      } else {
        Skip(j, rows, s1.mem, r, c);
        t := Compare(prog, db, j, s1, r, c + 1);
      }
      ReachesOn(prog, db, s, s1, t);
    }
  }

  lemma LoopCode(prog: seq<Op>, j: Job)
    requires Layout(prog, j)
    ensures LoopAt(prog, j)
  {
  }

  lemma Skip(j: Job, rows: seq<Row>, mem: seq<Value>, r: nat, c: nat)
    requires Wide(rows, j.n) && r < |rows| && c < j.n && Between(j, rows, mem, r, c)
    requires forall i :: 0 <= i <= c ==> !New(rows, j.n, r, i)
    ensures Between(j, rows, mem, r, c + 1)
  {
    hide New, Cells;
    assert Partly(j, rows, mem, r, c, c);
    NotNew(j, rows, mem, r, c);
    var c' := c + 1;
    forall i | 0 <= i < j.n
      ensures Partly(j, rows, mem, r, c', i)
    {
      assert Partly(j, rows, mem, r, c, i);
    }
  }

  lemma UpdateCode(prog: seq<Op>, j: Job, c: nat)
    requires Layout(prog, j) && c < j.n
    ensures UpdateAt(prog, j, c)
  {
  }

  lemma UpdateOne(prog: seq<Op>, db: seq<seq<Row>>, j: Job, s: State, r: nat, c: nat) returns (t: State)
    requires Layout(prog, j) && OnRow(db, j, s, r) && c < j.n && Fresh(db[j.root], j.n, r, c)
    requires s.pc == j.Upd() + 2 * c && Between(j, db[j.root], s.mem, r, c)
    ensures Reaches(prog, db, s, t) && SamePlace(s, t) && Between(j, db[j.root], t.mem, r, c + 1) && |t.mem| == |s.mem|
    ensures t.pc == j.Upd() + 2 * (c + 1)
  {
    hide Reaches, Starts, Layout, Fresh;
    var rows := db[j.root];
    UpdateCode(prog, j, c);
    assert Partly(j, rows, s.mem, r, c, c);
    Bump(j, rows, s.mem, r, c);
    hide Between;
    DoAddImm(prog, db, s, j.D(c), 1);
    var s1 := Wrote(s, j.D(c), Int(Starts(rows, j.n, r, c) + 1));
    DoColumn(prog, db, s1, c, j.L(c));
    t := Wrote(s1, j.L(c), rows[r][c]);
    ReachesOn(prog, db, s, s1, t);
  }

  lemma Bump(j: Job, rows: seq<Row>, mem: seq<Value>, r: nat, c: nat)
    requires Wide(rows, j.n) && r < |rows| && c < j.n && Between(j, rows, mem, r, c) && Fresh(rows, j.n, r, c)
    ensures Between(j, rows, mem[j.D(c) := Int(Starts(rows, j.n, r, c) + 1)][j.L(c) := rows[r][c]], r, c + 1)
  {
    hide Fresh;
    var mem' := mem[j.D(c) := Int(Starts(rows, j.n, r, c) + 1)][j.L(c) := rows[r][c]];
    assert Starts(rows, j.n, r + 1, c) == Starts(rows, j.n, r, c) + 1;
    hide Starts;
    var c' := c + 1;
    forall i | 0 <= i < j.n
      ensures Partly(j, rows, mem', r, c', i)
    {
      assert Partly(j, rows, mem, r, c, i);
    }
  }

  /** Once one column is new, that one and all later ones are updated. */
  lemma {:induction false} Update(prog: seq<Op>, db: seq<seq<Row>>, j: Job, s: State, r: nat, c: nat) returns (t: State)
    requires Layout(prog, j) && OnRow(db, j, s, r) && c <= j.n
    requires c < j.n ==> Fresh(db[j.root], j.n, r, c)
    requires s.pc == j.Upd() + 2 * c && Between(j, db[j.root], s.mem, r, c)
    ensures Reaches(prog, db, s, t) && SamePlace(s, t) && Between(j, db[j.root], t.mem, r, j.n) && |t.mem| == |s.mem|
    ensures t.pc == j.End()
    decreases j.n - c
  {
    hide Reaches, Starts, Layout, Between, New;
    if c == j.n {
      t := s;
      Stay(prog, db, s);
    } else {
      var s1 := UpdateOne(prog, db, j, s, r, c);
      t := Update(prog, db, j, s1, r, c + 1);
      ReachesOn(prog, db, s, s1, t);
    }
  }

  // ----- the whole loop

  /** One pass of the loop, up to the Next instruction, counts one row. */
  lemma Pass(prog: seq<Op>, db: seq<seq<Row>>, j: Job, s: State, r: nat) returns (t: State)
    requires Layout(prog, j) && OnRow(db, j, s, r) && s.pc == j.Top() && Counted(j, db[j.root], s.mem, r)
    ensures Reaches(prog, db, s, t) && SamePlace(s, t) && |t.mem| == |s.mem|
    ensures t.pc == j.End() && Counted(j, db[j.root], t.mem, r + 1)
  {
    hide Reaches, Starts, Layout, Prev;
    var rows := db[j.root];
    LoopCode(prog, j);
    DoAddImm(prog, db, s, j.m, 1);
    var s1 := Wrote(s, j.m, Int(r + 1));
    forall i | 0 <= i < j.n
      ensures Partly(j, rows, s1.mem, r, 0, i)
    {
      assert Cells(j, rows, s.mem, r, i);
    }
    t := Compare(prog, db, j, s1, r, 0);
    ReachesOn(prog, db, s, s1, t);
    var next := r + 1;
    forall i | 0 <= i < j.n
      ensures Cells(j, rows, t.mem, next, i)
    {
      assert Partly(j, rows, t.mem, r, j.n, i);
    }
  }

  lemma {:induction false} Loop(prog: seq<Op>, db: seq<seq<Row>>, j: Job, s: State, r: nat) returns (t: State)
    requires Layout(prog, j) && OnRow(db, j, s, r) && s.pc == j.Top() && Counted(j, db[j.root], s.mem, r)
    ensures Reaches(prog, db, s, t) && t.stat == s.stat && |t.mem| == |s.mem|
    ensures t.pc == j.Report() && Counted(j, db[j.root], t.mem, |db[j.root]|)
    decreases |db[j.root]| - r
  {
    hide Reaches, Layout, Counted;
    var rows := db[j.root];
    LoopCode(prog, j);
    var s1 := Pass(prog, db, j, s, r);
    if r + 1 < |rows| {
      var s2 := s1.(row := r + 1, pc := j.Top());
      One(prog, db, s1, s2);
      t := Loop(prog, db, j, s2, r + 1);
      ReachesOn(prog, db, s1, s2, t);
    } else {
      var s2 := s1.(pc := j.End() + 1);
      One(prog, db, s1, s2);
      t := s2.(pc := j.Report());
      One(prog, db, s2, t);
      ReachesOn(prog, db, s1, s2, t);
    }
    ReachesOn(prog, db, s, s1, t);
  }

  // ----- setting up

  ghost predicate Ready(db: seq<seq<Row>>, j: Job, s: State) {
    j.root < |db| && Wide(db[j.root], j.n) && j.Rec() < |s.mem|
  }

  lemma ZeroCode(prog: seq<Op>, j: Job, i: nat)
    requires Layout(prog, j) && i <= j.n
    ensures ZeroAt(prog, j, i)
  {
  }

  lemma NullCode(prog: seq<Op>, j: Job, c: nat)
    requires Layout(prog, j) && c < j.n
    ensures NullAt(prog, j, c)
  {
  }

  /** The counters from i on are set to zero. */
  lemma {:induction false} Zero(prog: seq<Op>, db: seq<seq<Row>>, j: Job, s: State, i: nat) returns (t: State)
    requires Layout(prog, j) && i <= j.n + 1 && s.pc == j.at + 2 + i && j.Rec() < |s.mem|
    requires forall k :: j.m <= k < j.m + i ==> s.mem[k] == Int(0)
    ensures Reaches(prog, db, s, t) && SamePlace(s, t) && |t.mem| == |s.mem| && t.pc == j.at + 3 + j.n
    ensures forall k :: j.m <= k <= j.m + j.n ==> t.mem[k] == Int(0)
    decreases j.n + 1 - i
  {
    hide Reaches, Layout;
    if i == j.n + 1 {
      t := s;
      Stay(prog, db, s);
    } else {
      ZeroCode(prog, j, i);
      DoInteger(prog, db, s, 0, j.m + i);
      var s1 := Wrote(s, j.m + i, Int(0));
      t := Zero(prog, db, j, s1, i + 1);
      ReachesOn(prog, db, s, s1, t);
    }
  }

  /** The last observed values from c on are set to NULL. */
  lemma {:induction false} Nulls(prog: seq<Op>, db: seq<seq<Row>>, j: Job, s: State, c: nat) returns (t: State)
    requires Layout(prog, j) && c <= j.n && s.pc == j.at + 3 + j.n + c && j.Rec() < |s.mem|
    requires forall k :: j.m <= k <= j.m + j.n ==> s.mem[k] == Int(0)
    requires forall k :: j.m + j.n < k <= j.m + j.n + c ==> s.mem[k] == Null
    ensures Reaches(prog, db, s, t) && SamePlace(s, t) && |t.mem| == |s.mem| && t.pc == j.Top() - 1
    ensures forall k :: j.m <= k <= j.m + j.n ==> t.mem[k] == Int(0)
    ensures forall k :: j.m + j.n < k <= j.m + j.n + j.n ==> t.mem[k] == Null
    decreases j.n - c
  {
    hide Reaches, Layout;
    if c == j.n {
      t := s;
      Stay(prog, db, s);
    } else {
      NullCode(prog, j, c);
      DoNull(prog, db, s, j.L(c));
      var s1 := Wrote(s, j.L(c), Null);
      t := Nulls(prog, db, j, s1, c + 1);
      ReachesOn(prog, db, s, s1, t);
    }
  }

  lemma OpenCode(prog: seq<Op>, j: Job)
    requires Layout(prog, j)
    ensures OpenAt(prog, j)
  {
  }

  /** The registers are set up whatever they held before. */
  lemma Setup(prog: seq<Op>, db: seq<seq<Row>>, j: Job, s: State) returns (t: State)
    requires Layout(prog, j) && Ready(db, j, s) && s.pc == j.at
    ensures Reaches(prog, db, s, t) && t.stat == s.stat && |t.mem| == |s.mem| && t.pc == j.Top() - 1
    ensures t.cursor == j.root && t.row == 0 && Counted(j, db[j.root], t.mem, 0)
  {
    hide Reaches, Layout;
    OpenCode(prog, j);
    var s1 := s.(pc := s.pc + 1);
    One(prog, db, s, s1);
    var s2 := s1.(pc := s1.pc + 1, cursor := j.root, row := 0);
    One(prog, db, s1, s2);
    ReachesOn(prog, db, s, s1, s2);
    var s3 := Zero(prog, db, j, s2, 0);
    ReachesOn(prog, db, s, s2, s3);
    t := Nulls(prog, db, j, s3, 0);
    ReachesOn(prog, db, s, s3, t);
  }

  /** The counting part of the program, on any rows. */
  lemma Count(prog: seq<Op>, db: seq<seq<Row>>, j: Job, s: State) returns (t: State)
    requires Layout(prog, j) && Ready(db, j, s) && s.pc == j.at
    ensures Reaches(prog, db, s, t) && t.stat == s.stat && |t.mem| == |s.mem|
    ensures t.pc == j.Report() && Counted(j, db[j.root], t.mem, |db[j.root]|)
  {
    hide Reaches, Layout, Counted;
    LoopCode(prog, j);
    var s1 := Setup(prog, db, j, s);
    if |db[j.root]| == 0 {
      var s2 := s1.(pc := j.End());
      One(prog, db, s1, s2);
      var s3 := s2.(pc := j.End() + 1);
      One(prog, db, s2, s3);
      t := s3.(pc := j.Report());
      One(prog, db, s3, t);
      ReachesOn(prog, db, s1, s2, s3);
      ReachesOn(prog, db, s1, s3, t);
    } else {
      var s2 := s1.(pc := j.Top());
      One(prog, db, s1, s2);
      t := Loop(prog, db, j, s2, 0);
      ReachesOn(prog, db, s1, s2, t);
    }
    ReachesOn(prog, db, s, s1, t);
  }
}
