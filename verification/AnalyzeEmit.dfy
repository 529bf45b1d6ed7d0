/**
 analyzeOneTable of analyze.c as it builds its program: instructions are appended, and forward jumps
 are filled in later. The result is the code whose runs are described in Analyze and AnalyzeReport.
 */
module AnalyzeEmit {
  import opened Vdbe
  import opened Analyze
  import opened AnalyzeReport

  function Retarget(op: Op, t: int): Op {
    match op
    case Rewind(_) => Rewind(t)
    case Ne(a, _, b) => Ne(a, t, b)
    case Goto(_) => Goto(t)
    case Next(_) => Next(t)
    case IfNot(r, _) => IfNot(r, t)
    case _ => op
  }

  /** The address an instruction may jump to; labels are negative. */
  function Target(op: Op): int {
    match op
    case Rewind(t) => t
    case Ne(_, t, _) => t
    case Goto(t) => t
    case Next(t) => t
    case IfNot(_, t) => t
    case _ => 0
  }

  function Settle(op: Op, mark: int, address: nat): Op {
    if Target(op) == mark then Retarget(op, address) else op
  }

  // ----- parts of the code

  /** The code before the comparisons, and the Goto after them, with the given target. */
  ghost predicate HeadAt(ops: seq<Op>, j: Job, target: int) {
    && OpenAt(ops, j)
    && (forall i :: 0 <= i <= j.n ==> ZeroAt(ops, j, i))
    && (forall c :: 0 <= c < j.n ==> NullAt(ops, j, c))
    && j.Upd() <= |ops|
    && ops[j.Top() - 1] == Rewind(target)
    && ops[j.Top()] == AddImm(j.m, 1)
    && ops[j.Upd() - 1] == Goto(target)
  }

  ghost predicate Comparisons(ops: seq<Op>, j: Job, patched: nat) {
    && (forall c :: 0 <= c < j.n && c < patched ==> CompareAt(ops, j, c, j.Upd() + 2 * c))
    && (forall c :: 0 <= c < j.n && c >= patched ==> CompareAt(ops, j, c, 0))
  }

  ghost predicate Updates(ops: seq<Op>, j: Job, n: nat) {
    forall c :: 0 <= c < n ==> UpdateAt(ops, j, c)
  }

  ghost predicate Body(ops: seq<Op>, j: Job, target: int) {
    HeadAt(ops, j, target) && Comparisons(ops, j, j.n) && Updates(ops, j, j.n)
  }

  ghost predicate Same(a: seq<Op>, b: seq<Op>, lo: nat, hi: nat) {
    hi <= |a| && hi <= |b| && forall k :: lo <= k < hi ==> a[k] == b[k]
  }

  lemma HeadKept(a: seq<Op>, b: seq<Op>, j: Job, target: int)
    requires HeadAt(a, j, target) && j.Upd() <= |b|
    requires Same(a, b, 0, j.Top() + 1) && b[j.Upd() - 1] == a[j.Upd() - 1]
    ensures HeadAt(b, j, target)
  {
    forall i | 0 <= i <= j.n
      ensures ZeroAt(b, j, i)
    {
      assert ZeroAt(a, j, i);
    }
    forall c | 0 <= c < j.n
      ensures NullAt(b, j, c)
    {
      assert NullAt(a, j, c);
    }
  }

  lemma UpdatesKept(a: seq<Op>, b: seq<Op>, j: Job, n: nat)
    requires Updates(a, j, n) && Same(a, b, j.Upd(), j.Upd() + 2 * n)
    ensures Updates(b, j, n)
  {
    forall c | 0 <= c < n
      ensures UpdateAt(b, j, c)
    {
      assert UpdateAt(a, j, c);
    }
  }

  lemma ComparisonsKept(a: seq<Op>, b: seq<Op>, j: Job, patched: nat)
    requires Comparisons(a, j, patched) && Same(a, b, j.Top(), j.Upd() - 1)
    ensures Comparisons(b, j, patched)
  {
    forall c | 0 <= c < j.n && c < patched
      ensures CompareAt(b, j, c, j.Upd() + 2 * c)
    {
      assert CompareAt(a, j, c, j.Upd() + 2 * c);
    }
    forall c | 0 <= c < j.n && c >= patched
      ensures CompareAt(b, j, c, 0)
    {
      assert CompareAt(a, j, c, 0);
    }
  }

  lemma BodyKept(a: seq<Op>, b: seq<Op>, j: Job, target: int)
    requires Body(a, j, target) && Same(a, b, 0, j.End())
    ensures Body(b, j, target)
  {
    HeadKept(a, b, j, target);
    ComparisonsKept(a, b, j, j.n);
    UpdatesKept(a, b, j, j.n);
  }

  /** Filling in one comparison's target. */
  lemma Patch(a: seq<Op>, j: Job, c: nat)
    requires Comparisons(a, j, c) && c < j.n && |a| == j.Upd() + 2 * c
    ensures var at := j.Top() + 2 * (c + 1);
      at < |a| && Comparisons(a[at := Retarget(a[at], |a|)], j, c + 1)
  {
    var at, c' := j.Top() + 2 * (c + 1), c + 1;
    assert CompareAt(a, j, c, 0);
    var b := a[at := Retarget(a[at], |a|)];
    forall d | 0 <= d < j.n && d < c'
      ensures CompareAt(b, j, d, j.Upd() + 2 * d)
    {
      if d < c { assert CompareAt(a, j, d, j.Upd() + 2 * d); }
    }
    forall d | 0 <= d < j.n && d >= c'
      ensures CompareAt(b, j, d, 0)
    {
      assert CompareAt(a, j, d, 0);
    }
  }

  /** Resolving the label of the end of the loop. */
  lemma Resolve(a: seq<Op>, b: seq<Op>, j: Job, mark: int)
    requires Body(a, j, mark) && mark < 0 && |b| == |a| == j.End()
    requires forall k :: 0 <= k < |a| ==> b[k] == Settle(a[k], mark, j.End())
    ensures Body(b, j, j.End())
  {
    forall i | 0 <= i <= j.n
      ensures ZeroAt(b, j, i)
    {
      assert ZeroAt(a, j, i);
    }
    forall c | 0 <= c < j.n
      ensures NullAt(b, j, c)
    {
      assert NullAt(a, j, c);
    }
    ResolveRest(a, b, j, mark);
  }

  lemma ResolveRest(a: seq<Op>, b: seq<Op>, j: Job, mark: int)
    requires Comparisons(a, j, j.n) && Updates(a, j, j.n) && mark < 0 && |b| == |a| == j.End()
    requires forall k :: 0 <= k < |a| ==> b[k] == Settle(a[k], mark, j.End())
    ensures Comparisons(b, j, j.n) && Updates(b, j, j.n)
  {
    forall c | 0 <= c < j.n && c < j.n
      ensures CompareAt(b, j, c, j.Upd() + 2 * c)
    {
      assert CompareAt(a, j, c, j.Upd() + 2 * c);
    }
    forall c | 0 <= c < j.n
      ensures UpdateAt(b, j, c)
    {
      assert UpdateAt(a, j, c);
    }
  }

  // ----- what is emitted after the loop

  ghost predicate Prints(ops: seq<Op>, j: Job, n: nat) {
    forall c :: 0 <= c < n ==> PrintAt(ops, j, c)
  }

  lemma PrintsKept(a: seq<Op>, b: seq<Op>, j: Job, n: nat)
    requires Prints(a, j, n) && Same(a, b, j.Report() + 4, j.Report() + 4 + 7 * n)
    ensures Prints(b, j, n)
  {
    forall c | 0 <= c < n
      ensures PrintAt(b, j, c)
    {
      assert PrintAt(a, j, c);
    }
  }

  lemma Whole(ops: seq<Op>, j: Job)
    requires Body(ops, j, j.End()) && LoopAt(ops, j) && ReportAt(ops, j, j.Exit()) && Prints(ops, j, j.n) && FinishAt(ops, j)
    ensures Layout(ops, j)
  {
    hide PrintAt, UpdateAt, CompareAt, ZeroAt, NullAt;
  }

  lemma LayoutKept(a: seq<Op>, b: seq<Op>, j: Job)
    requires Layout(a, j) && a <= b
    ensures Layout(b, j)
  {
    assert Body(a, j, j.End()) by { assert Comparisons(a, j, j.n); }
    BodyKept(a, b, j, j.End());
    assert Prints(a, j, j.n);
    FinishFits(a, j);
    PrintsKept(a, b, j, j.n);
    hide PrintAt, UpdateAt, CompareAt, ZeroAt, NullAt, OpenAt;
    Whole(b, j);
  }

  lemma FinishFits(a: seq<Op>, j: Job)
    requires FinishAt(a, j)
    ensures j.Finish() + 2 < |a|
  {
  }

  // ----- growing parts

  ghost predicate Zeros(ops: seq<Op>, j: Job, n: nat) {
    forall i :: 0 <= i < n ==> ZeroAt(ops, j, i)
  }

  ghost predicate Nullings(ops: seq<Op>, j: Job, n: nat) {
    forall c :: 0 <= c < n ==> NullAt(ops, j, c)
  }

  ghost predicate Unpatched(ops: seq<Op>, j: Job, n: nat) {
    forall c :: 0 <= c < n ==> CompareAt(ops, j, c, 0)
  }

  lemma ZerosKept(a: seq<Op>, b: seq<Op>, j: Job, n: nat)
    requires Zeros(a, j, n) && a <= b
    ensures Zeros(b, j, n)
  {
    forall i | 0 <= i < n
      ensures ZeroAt(b, j, i)
    {
      assert ZeroAt(a, j, i);
    }
  }

  lemma ZerosMore(a: seq<Op>, b: seq<Op>, j: Job, i: nat)
    requires Zeros(a, j, i) && |a| == j.at + 2 + i && b == a + [Integer(0, j.m + i)]
    ensures Zeros(b, j, i + 1)
  {
    ZerosKept(a, b, j, i);
    assert ZeroAt(b, j, i);
  }

  lemma NullingsKept(a: seq<Op>, b: seq<Op>, j: Job, n: nat)
    requires Nullings(a, j, n) && a <= b
    ensures Nullings(b, j, n)
  {
    forall c | 0 <= c < n
      ensures NullAt(b, j, c)
    {
      assert NullAt(a, j, c);
    }
  }

  lemma NullingsMore(a: seq<Op>, b: seq<Op>, j: Job, c: nat)
    requires Nullings(a, j, c) && |a| == j.at + 3 + j.n + c && b == a + [SetNull(j.L(c))]
    ensures Nullings(b, j, c + 1)
  {
    NullingsKept(a, b, j, c);
    assert NullAt(b, j, c);
  }

  lemma UnpatchedMore(a: seq<Op>, b: seq<Op>, j: Job, c: nat)
    requires Unpatched(a, j, c) && |a| == j.Top() + 1 + 2 * c
    requires b == a + [Column(c, j.Temp())] + [Ne(j.Temp(), 0, j.L(c))]
    ensures Unpatched(b, j, c + 1)
  {
    forall d | 0 <= d < c
      ensures CompareAt(b, j, d, 0)
    {
      assert CompareAt(a, j, d, 0);
    }
    assert CompareAt(b, j, c, 0);
  }

  lemma UnpatchedKept(a: seq<Op>, b: seq<Op>, j: Job)
    requires Unpatched(a, j, j.n) && a <= b
    ensures Comparisons(b, j, 0)
  {
    forall c | 0 <= c < j.n
      ensures CompareAt(b, j, c, 0)
    {
      assert CompareAt(a, j, c, 0);
    }
  }

  lemma HeadOf(a: seq<Op>, b: seq<Op>, j: Job, target: int)
    requires OpenAt(a, j) && Zeros(a, j, j.n + 1) && Nullings(a, j, j.n) && a <= b && |a| == j.Top() - 1 && |b| == j.Upd()
    requires b[j.Top() - 1] == Rewind(target) && b[j.Top()] == AddImm(j.m, 1) && b[j.Upd() - 1] == Goto(target)
    ensures HeadAt(b, j, target)
  {
    ZerosKept(a, b, j, j.n + 1);
    NullingsKept(a, b, j, j.n);
  }

  /** A program under construction; labels are -1, -2, ... */
  class Coder {
    var ops: seq<Op>
    var labels: nat

    ghost predicate Valid()
      reads this
    {
      forall k :: 0 <= k < |ops| ==> Target(ops[k]) >= -(labels as int)
    }

    constructor ()
      ensures Valid() && ops == [] && labels == 0
    {
      ops, labels := [], 0;
    }

    /** sqlite3VdbeAddOp */
    method Append(op: Op)
      requires Valid() && Target(op) >= -(labels as int)
      modifies this`ops
      ensures Valid() && ops == old(ops) + [op]
    {
      ops := ops + [op];
    }

    /** sqlite3VdbeJumpHere */
    method JumpHere(at: nat)
      requires at < |ops| && Valid()
      modifies this`ops
      ensures Valid() && ops == old(ops)[at := Retarget(old(ops)[at], |old(ops)|)]
    {
      ops := ops[at := Retarget(ops[at], |ops|)];
    }

    /** sqlite3VdbeMakeLabel */
    method MakeLabel() returns (mark: int)
      requires Valid()
      modifies this`labels
      ensures Valid() && labels == old(labels) + 1 && mark == -(labels as int)
    {
      labels := labels + 1;
      mark := -(labels as int);
    }

    /** sqlite3VdbeResolveLabel; the machine's own code fills the addresses in before a run. */
    method ResolveLabel(mark: int)
      requires Valid()
      modifies this`ops
      ensures Valid() && |ops| == old(|ops|)
      ensures forall k :: 0 <= k < |ops| ==> ops[k] == Settle(old(ops)[k], mark, |ops|)
    {
      ops := seq(|ops|, k requires 0 <= k < |ops| reads this => Settle(ops[k], mark, |ops|));
    }

    method Zero(j: Job)
      requires Valid() && |ops| == j.at + 2
      modifies this`ops
      ensures Valid() && old(ops) <= ops && |ops| == j.at + 3 + j.n && Zeros(ops, j, j.n + 1)
    {
      hide Valid;
      for i := 0 to j.n + 1
        invariant Valid() && old(ops) <= ops && |ops| == j.at + 2 + i && Zeros(ops, j, i)
      {
        ghost var before := ops;
        Append(Integer(0, j.m + i));
        ZerosMore(before, ops, j, i);
      }
    }

    method Nulls(j: Job)
      requires Valid() && |ops| == j.at + 3 + j.n
      modifies this`ops
      ensures Valid() && old(ops) <= ops && |ops| == j.Top() - 1 && Nullings(ops, j, j.n)
    {
      hide Valid;
      for c := 0 to j.n
        invariant Valid() && old(ops) <= ops && |ops| == j.at + 3 + j.n + c && Nullings(ops, j, c)
      {
        ghost var before := ops;
        Append(SetNull(j.L(c)));
        NullingsMore(before, ops, j, c);
      }
    }

    method Setup(j: Job)
      requires Valid() && j.at == |ops|
      modifies this`ops
      ensures Valid() && old(ops) <= ops && |ops| == j.Top() - 1
      ensures OpenAt(ops, j) && Zeros(ops, j, j.n + 1) && Nullings(ops, j, j.n)
    {
      hide Valid, Zeros, Nullings;
      Append(SetNumColumns(j.n + 1));
      Append(OpenRead(j.root));
      Zero(j);
      ghost var zeroed := ops;
      Nulls(j);
      ZerosKept(zeroed, ops, j, j.n + 1);
    }

    method Compare(j: Job)
      requires Valid() && |ops| == j.Top() + 1
      modifies this`ops
      ensures Valid() && old(ops) <= ops && |ops| == j.Upd() - 1 && Unpatched(ops, j, j.n)
    {
      hide Valid;
      for c := 0 to j.n
        invariant Valid() && old(ops) <= ops && |ops| == j.Top() + 1 + 2 * c && Unpatched(ops, j, c)
      {
        ghost var before := ops;
        Append(Column(c, j.Temp()));
        Append(Ne(j.Temp(), 0, j.L(c)));
        UnpatchedMore(before, ops, j, c);
      }
    }

    /** Everything up to and including the Goto that skips the updates. */
    method Head(j: Job) returns (endOfLoop: int, topOfLoop: nat)
      requires j.at == |ops| && Valid()
      modifies this
      ensures Valid() && old(ops) <= ops && |ops| == j.Upd() && endOfLoop < 0 && topOfLoop == j.Top()
      ensures HeadAt(ops, j, endOfLoop) && Comparisons(ops, j, 0)
      ensures endOfLoop == -(labels as int) && labels == old(labels) + 1
    {
      hide Valid, OpenAt, Zeros, Nullings, Unpatched;
      Setup(j);
      ghost var ready := ops;
      endOfLoop := MakeLabel();
      Append(Rewind(endOfLoop));
      topOfLoop := |ops|;
      Append(AddImm(j.m, 1));
      Compare(j);
      ghost var compared := ops;
      Append(Goto(endOfLoop));
      HeadOf(ready, ops, j, endOfLoop);
      UnpatchedKept(compared, ops, j);
    }

    method Update(j: Job, topOfLoop: nat, ghost mark: int)
      requires HeadAt(ops, j, mark) && Comparisons(ops, j, 0) && |ops| == j.Upd() && topOfLoop == j.Top()
      requires Valid()
      modifies this`ops
      ensures Valid() && |ops| == j.End() && Body(ops, j, mark)
      ensures Same(old(ops), ops, 0, j.Top() + 1) && ops[j.Upd() - 1] == old(ops)[j.Upd() - 1]
    {
      hide Valid, HeadAt, Comparisons, UpdateAt;
      UpdatesNone(ops, j);
      for c := 0 to j.n
        invariant |ops| == j.Upd() + 2 * c
        invariant Same(old(ops), ops, 0, j.Top() + 1) && ops[j.Upd() - 1] == old(ops)[j.Upd() - 1]
        invariant Comparisons(ops, j, c) && Updates(ops, j, c) && Valid()
      {
        ghost var before := ops;
        Patch(ops, j, c);
        JumpHere(topOfLoop + 2 * (c + 1));
        ghost var patched := ops;
        Append(AddImm(j.D(c), 1));
        Append(Column(c, j.L(c)));
        ComparisonsKept(patched, ops, j, c + 1);
        UpdatesMore(before, ops, j, c);
      }
      HeadKept(old(ops), ops, j, mark);
    }

    /** The counting loop. */
    method Loop(j: Job)
      requires j.at == |ops| && Valid()
      modifies this
      ensures Valid() && old(ops) <= ops && |ops| == j.Report() && Body(ops, j, j.End()) && LoopAt(ops, j)
    {
      hide HeadAt, Comparisons, Updates;
      var endOfLoop, topOfLoop := Head(j);
      Update(j, topOfLoop, endOfLoop);
      ghost var before := ops;
      ResolveLabel(endOfLoop);
      Resolve(before, ops, j, endOfLoop);
      ghost var resolved := ops;
      Append(Next(topOfLoop));
      Append(Close);
      BodyKept(resolved, ops, j, j.End());
      LoopOf(ops, j);
    }

    method Estimation(j: Job, c: nat)
      requires Valid()
      modifies this`ops
      ensures Valid() && old(ops) <= ops && |ops| == old(|ops|) + 4
      ensures var a := old(|ops|);
        && ops[a] == Add(j.m, j.D(c), j.Temp()) && ops[a + 1] == AddImm(j.Temp(), -1)
        && ops[a + 2] == Divide(j.D(c), j.Temp(), j.Temp()) && ops[a + 3] == ToInt(j.Temp())
    {
      hide Valid;
      Append(Add(j.m, j.D(c), j.Temp()));
      Append(AddImm(j.Temp(), -1));
      Append(Divide(j.D(c), j.Temp(), j.Temp()));
      Append(ToInt(j.Temp()));
    }

    method Names(j: Job)
      requires |ops| == j.Report() && Valid()
      modifies this`ops
      ensures Valid() && old(ops) <= ops && |ops| == j.Report() + 4 && ReportAt(ops, j, 0)
    {
      hide Valid;
      Append(IfNot(j.m, 0));
      Append(String8(j.F(), j.table));
      Append(String8(j.F() + 1, j.name));
      Append(SCopy(j.m, j.F() + 2));
    }

    method Store(j: Job)
      requires |ops| == j.Finish() && Valid()
      modifies this`ops
      ensures Valid() && old(ops) <= ops && |ops| == j.Exit() && FinishAt(ops, j)
    {
      hide Valid;
      Append(MakeRecord(j.F(), 3, j.Rec()));
      Append(NewRowid(j.Temp()));
      Append(Insert(j.Rec(), j.Temp()));
    }

    method Print(j: Job)
      requires |ops| == j.Report() + 4 && Valid()
      modifies this`ops
      ensures Valid() && old(ops) <= ops && |ops| == j.Finish() && Prints(ops, j, j.n)
    {
      hide Valid, PrintAt;
      PrintsNone(ops, j);
      for c := 0 to j.n
        invariant Valid() && old(ops) <= ops && |ops| == j.Report() + 4 + 7 * c && Prints(ops, j, c)
      {
        ghost var before := ops;
        Append(String8(j.Temp(), " "));
        Append(Concat(j.Temp(), j.F() + 2, j.F() + 2));
        Estimation(j, c);
        Append(Concat(j.Temp(), j.F() + 2, j.F() + 2));
        PrintsMore(before, ops, j, c);
      }
    }

    /** The report after the loop. */
    method Report(j: Job)
      requires |ops| == j.Report() && Valid()
      modifies this`ops
      ensures Valid() && old(ops) <= ops && |ops| == j.Exit()
      ensures ReportAt(ops, j, j.Exit()) && Prints(ops, j, j.n) && FinishAt(ops, j)
    {
      hide Valid, Prints;
      var addr := |ops|;
      Names(j);
      Print(j);
      ghost var printed := ops;
      Store(j);
      JumpHere(addr);
      PrintsKept(printed, ops, j, j.n);
    }

    /** The body of analyzeOneTable's loop over the indices: the code for one index. */
    method AnalyzeIndexCode(j: Job)
      requires j.at == |ops| && Valid()
      modifies this
      ensures Valid() && old(ops) <= ops && |ops| == j.Exit() && Layout(ops, j)
    {
      hide Valid, Body, LoopAt, ReportAt, Prints, FinishAt, Layout;
      Loop(j);
      ghost var looped := ops;
      Report(j);
      BodyKept(looped, ops, j, j.End());
      LoopKept(looped, ops, j);
      Whole(ops, j);
    }

    /**
     analyzeOneTable: the code for every index of a table. Each index is given by its root, its name
     and its number of columns, and they all use the registers from m on.
     */
    method AnalyzeOneTable(table: string, indices: seq<IndexInfo>, m: nat) returns (ghost jobs: seq<Job>)
      requires Valid() && forall i :: 0 <= i < |indices| ==> indices[i].columns > 0
      modifies this
      ensures Valid() && old(ops) <= ops && |jobs| == |indices| && Chained(ops, jobs)
      ensures forall i :: 0 <= i < |jobs| ==> Describes(jobs[i], table, indices[i], m)
      ensures jobs != [] ==> jobs[0].at == old(|ops|) && jobs[|jobs| - 1].Exit() == |ops|
      ensures Reports(ops, old(|ops|), |ops|, table, indices, m)
    {
      hide Valid, Layout, Reports, Chained;
      NoJobs(ops);
      jobs := [];
      for i := 0 to |indices|
        invariant Valid() && old(ops) <= ops && |jobs| == i && Chained(ops, jobs)
        invariant forall k :: 0 <= k < i ==> Describes(jobs[k], table, indices[k], m)
        invariant i == 0 ==> ops == old(ops)
        invariant i > 0 ==> jobs[0].at == old(|ops|) && jobs[i - 1].Exit() == |ops|
      {
        ghost var before := ops;
        var j := Job(|ops|, m, indices[i].columns, indices[i].root, table, indices[i].name);
        AnalyzeIndexCode(j);
        ChainedMore(before, ops, jobs, j);
        jobs := jobs + [j];
      }
      CodeReports(ops, jobs, old(|ops|), |ops|, table, indices, m);
    }
  }

  datatype IndexInfo = IndexInfo(root: nat, name: string, columns: nat)

  ghost predicate Describes(j: Job, table: string, index: IndexInfo, m: nat) {
    j.m == m && j.table == table && j.n == index.columns && j.root == index.root && j.name == index.name
  }

  // ----- what the emitted code does

  /** The indices are in the database, their rows have all columns, and there are registers enough. */
  ghost predicate Usable(db: seq<seq<Row>>, indices: seq<IndexInfo>, m: nat, size: nat) {
    forall i :: 0 <= i < |indices| ==>
      indices[i].root < |db| && Wide(db[indices[i].root], indices[i].columns) && m + 2 * indices[i].columns + 4 < size
  }

  /** The sqlite_stat1 rows of a table: for each index that is not empty its name and its statistics. */
  ghost function TableRows(db: seq<seq<Row>>, table: string, indices: seq<IndexInfo>, m: nat, size: nat): seq<Value>
    requires Usable(db, indices, m, size)
  {
    if indices == [] then []
    else
      var x := indices[0];
      StatRows(db[x.root], Job(0, m, x.columns, x.root, table, x.name)) + TableRows(db, table, indices[1..], m, size)
  }

  /** From `start`, whatever the registers hold, the code comes to `end` and has appended the table's rows. */
  ghost predicate Reports(prog: seq<Op>, start: nat, end: nat, table: string, indices: seq<IndexInfo>, m: nat) {
    forall db: seq<seq<Row>>, s: State :: s.pc == start && Usable(db, indices, m, |s.mem|) ==>
      ReportsFrom(prog, db, s, end, TableRows(db, table, indices, m, |s.mem|))
  }

  ghost predicate ReportsFrom(prog: seq<Op>, db: seq<seq<Row>>, s: State, end: nat, rows: seq<Value>) {
    exists t :: Reaches(prog, db, s, t) && t.pc == end && t.stat == s.stat + rows
  }

  lemma CodeReports(prog: seq<Op>, jobs: seq<Job>, start: nat, end: nat, table: string, indices: seq<IndexInfo>, m: nat)
    requires Chained(prog, jobs) && |jobs| == |indices|
    requires forall i :: 0 <= i < |jobs| ==> Describes(jobs[i], table, indices[i], m)
    requires if jobs == [] then start == end else jobs[0].at == start && jobs[|jobs| - 1].Exit() == end
    ensures Reports(prog, start, end, table, indices, m)
  {
    hide Chained, Describes, Reaches, Usable, TableRows;
    forall db: seq<seq<Row>>, s: State | s.pc == start && Usable(db, indices, m, |s.mem|)
      ensures ReportsFrom(prog, db, s, end, TableRows(db, table, indices, m, |s.mem|))
    {
      SameRows(db, jobs, table, indices, m, |s.mem|);
      var t := AnalyzeTable(prog, db, jobs, s);
    }
  }

  /** The rows by the indices are the rows by the jobs. */
  lemma {:induction false} SameRows(db: seq<seq<Row>>, jobs: seq<Job>, table: string, indices: seq<IndexInfo>, m: nat, size: nat)
    requires |jobs| == |indices| && Usable(db, indices, m, size)
    requires forall i :: 0 <= i < |jobs| ==> Describes(jobs[i], table, indices[i], m)
    ensures AllReady(db, jobs, size) && AllStatRows(db, jobs, size) == TableRows(db, table, indices, m, size)
    decreases |jobs|
  {
    hide StatText, TotalsOf, Wide;
    if jobs != [] {
      var rest, others := jobs[1..], indices[1..];
      forall i | 0 <= i < |rest|
        ensures Describes(rest[i], table, others[i], m)
      {
        assert rest[i] == jobs[i + 1] && others[i] == indices[i + 1];
      }
      SameRows(db, rest, table, others, m, size);
    }
  }

  lemma NoJobs(prog: seq<Op>)
    ensures Chained(prog, [])
  {
  }

  lemma ChainedMore(a: seq<Op>, b: seq<Op>, jobs: seq<Job>, j: Job)
    requires Chained(a, jobs) && a <= b && Layout(b, j) && j.n > 0
    requires jobs != [] ==> jobs[|jobs| - 1].Exit() == j.at
    ensures Chained(b, jobs + [j])
  {
    hide Layout;
    forall i | 0 <= i < |jobs|
      ensures Layout(b, jobs[i])
    {
      LayoutKept(a, b, jobs[i]);
    }
  }

  lemma LoopOf(b: seq<Op>, j: Job)
    requires Body(b, j, j.End()) && |b| == j.Report() && b[j.End()] == Next(j.Top()) && b[j.End() + 1] == Close
    ensures LoopAt(b, j)
  {
  }

  lemma LoopKept(a: seq<Op>, b: seq<Op>, j: Job)
    requires LoopAt(a, j) && a <= b
    ensures LoopAt(b, j)
  {
  }

  lemma PrintsNone(a: seq<Op>, j: Job)
    ensures Prints(a, j, 0)
  {
  }

  lemma PrintsMore(a: seq<Op>, b: seq<Op>, j: Job, c: nat)
    requires Prints(a, j, c) && |a| == j.Report() + 4 + 7 * c && a <= b && |b| == |a| + 7
    requires b[|a|] == String8(j.Temp(), " ") && b[|a| + 1] == Concat(j.Temp(), j.F() + 2, j.F() + 2)
    requires b[|a| + 2] == Add(j.m, j.D(c), j.Temp()) && b[|a| + 3] == AddImm(j.Temp(), -1)
    requires b[|a| + 4] == Divide(j.D(c), j.Temp(), j.Temp()) && b[|a| + 5] == ToInt(j.Temp())
    requires b[|a| + 6] == Concat(j.Temp(), j.F() + 2, j.F() + 2)
    ensures Prints(b, j, c + 1)
  {
    PrintsKept(a, b, j, c);
    assert PrintAt(b, j, c);
  }

  lemma UpdatesNone(a: seq<Op>, j: Job)
    ensures Updates(a, j, 0)
  {
  }

  lemma UpdatesMore(a: seq<Op>, b: seq<Op>, j: Job, c: nat)
    requires Updates(a, j, c) && |a| == j.Upd() + 2 * c && |b| == |a| + 2 && Same(a, b, j.Upd(), |a|)
    requires b[|a|] == AddImm(j.D(c), 1) && b[|a| + 1] == Column(c, j.L(c))
    ensures Updates(b, j, c + 1)
  {
    UpdatesKept(a, b, j, c);
    assert UpdateAt(b, j, c);
  }
}
