/**
 The part of the virtual machine that the code emitted by ANALYZE uses: registers, one index cursor
 and one table to append to. A malformed step has no result.
 */
module Vdbe {
  import opened Wrappers

  datatype Value =
    | Null
    | Int(n: int)
    | Text(s: string)
    | Blob(bytes: seq<bv8>)
    | Record(fields: seq<Value>)

  type Row = seq<Value>

  datatype Op =
    | SetNumColumns(columns: nat)
    | OpenRead(root: nat)
    | Integer(n: int, to: nat)
    | SetNull(to: nat)
    | Rewind(target: int)
    | AddImm(to: nat, n: int)
    | Column(col: nat, to: nat)
    | Ne(left: nat, target: int, right: nat)
    | Goto(target: int)
    | Next(target: int)
    | Close
    | IfNot(reg: nat, target: int)
    | String8(to: nat, s: string)
    | SCopy(from: nat, to: nat)
    | Concat(tail: nat, head: nat, to: nat)
    | Add(left: nat, right: nat, to: nat)
    | Divide(divisor: nat, from: nat, to: nat)
    | ToInt(reg: nat)
    | MakeRecord(first: nat, fields: nat, to: nat)
    | NewRowid(to: nat)
    | Insert(record: nat, rowid: nat)

  /** The cursor stands on row `row` of index `cursor`; `stat` is the table appended to. */
  datatype State = State(pc: int, mem: seq<Value>, cursor: nat, row: nat, stat: seq<Value>)

  /** Comparison with SQLITE_JUMPIFNULL: a NULL on either side jumps. */
  predicate Differ(a: Value, b: Value) {
    a == Null || b == Null || a != b
  }

  // ----- numbers as text

  function Digit(d: nat): (c: char)
    requires d < 10
    ensures '0' <= c <= '9' && c as int - '0' as int == d
  {
    (d + '0' as int) as char
  }

  function Decimal(n: nat): (s: string)
    ensures |s| > 0
  {
    if n < 10 then [Digit(n)] else Decimal(n / 10) + [Digit(n % 10)]
  }

  function Integral(n: int): string {
    if n < 0 then "-" + Decimal(-n) else Decimal(n)
  }

  predicate Printable(v: Value) {
    v.Int? || v.Text?
  }

  function AsText(v: Value): string
    requires Printable(v)
  {
    if v.Int? then Integral(v.n) else v.s
  }

  /** Integer division in C. */
  function Truncated(a: int, b: int): int
    requires b != 0
  {
    if (a >= 0) == (b > 0) then Abs(a) / Abs(b) else -(Abs(a) / Abs(b))
  }

  function Abs(a: int): nat {
    if a < 0 then -a else a
  }

  // ----- the machine

  function Write(s: State, to: nat, v: Value): Option<State> {
    if to < |s.mem| then Some(s.(pc := s.pc + 1, mem := s.mem[to := v])) else None
  }

  predicate IsInt(s: State, reg: nat) {
    reg < |s.mem| && s.mem[reg].Int?
  }

  predicate IsPrintable(s: State, reg: nat) {
    reg < |s.mem| && Printable(s.mem[reg])
  }

  /** One instruction; `db` holds the rows of every index. */
  function Step(op: Op, db: seq<seq<Row>>, s: State): Option<State> {
    match op
    case SetNumColumns(_) => Some(s.(pc := s.pc + 1))
    case OpenRead(root) => if root < |db| then Some(s.(pc := s.pc + 1, cursor := root, row := 0)) else None
    case Integer(n, to) => Write(s, to, Int(n))
    case SetNull(to) => Write(s, to, Null)
    case Rewind(t) =>
      if s.cursor < |db| then Some(s.(row := 0, pc := if |db[s.cursor]| == 0 then t else s.pc + 1)) else None
    case AddImm(to, n) => if IsInt(s, to) then Write(s, to, Int(s.mem[to].n + n)) else None
    case Column(c, to) =>
      if s.cursor < |db| && s.row < |db[s.cursor]| && c < |db[s.cursor][s.row]|
      then Write(s, to, db[s.cursor][s.row][c]) else None
    case Ne(a, t, b) =>
      if a < |s.mem| && b < |s.mem|
      then Some(s.(pc := if Differ(s.mem[b], s.mem[a]) then t else s.pc + 1)) else None
    case Goto(t) => Some(s.(pc := t))
    case Next(t) =>
      if s.cursor < |db|
      then
        if s.row + 1 < |db[s.cursor]| then Some(s.(row := s.row + 1, pc := t)) else Some(s.(pc := s.pc + 1))
      else None
    case Close => Some(s.(pc := s.pc + 1))
    case IfNot(r, t) => if IsInt(s, r) then Some(s.(pc := if s.mem[r].n == 0 then t else s.pc + 1)) else None
    case String8(to, text) => Write(s, to, Text(text))
    case SCopy(from, to) => if from < |s.mem| then Write(s, to, s.mem[from]) else None
    case Concat(a, b, to) =>
      if IsPrintable(s, a) && IsPrintable(s, b) then Write(s, to, Text(AsText(s.mem[b]) + AsText(s.mem[a]))) else None
    case Add(a, b, to) => if IsInt(s, a) && IsInt(s, b) then Write(s, to, Int(s.mem[a].n + s.mem[b].n)) else None
    case Divide(a, b, to) =>
      if IsInt(s, a) && IsInt(s, b)
      then Write(s, to, if s.mem[a].n == 0 then Null else Int(Truncated(s.mem[b].n, s.mem[a].n))) else None
    case ToInt(r) => if IsInt(s, r) then Write(s, r, s.mem[r]) else None
    case MakeRecord(r, n, to) =>
      if r + n <= |s.mem| then Write(s, to, Record(s.mem[r..r + n])) else None
    case NewRowid(to) => Write(s, to, Int(|s.stat| + 1))
    case Insert(r, _) => if r < |s.mem| then Some(s.(pc := s.pc + 1, stat := s.stat + [s.mem[r]])) else None
  }

  /** The machine gets from s to t in n instructions. */
  ghost predicate RunsTo(prog: seq<Op>, db: seq<seq<Row>>, s: State, t: State, n: nat)
    decreases n
  {
    if n == 0 then s == t
    else
      && 0 <= s.pc < |prog|
      && var next := Step(prog[s.pc], db, s);
         next.Some? && RunsTo(prog, db, next.value, t, n - 1)
  }

  ghost predicate Reaches(prog: seq<Op>, db: seq<seq<Row>>, s: State, t: State) {
    exists n: nat :: RunsTo(prog, db, s, t, n)
  }

  lemma {:induction false} RunsOn(prog: seq<Op>, db: seq<seq<Row>>, s: State, t: State, u: State, n: nat, k: nat)
    requires RunsTo(prog, db, s, t, n) && RunsTo(prog, db, t, u, k)
    ensures RunsTo(prog, db, s, u, n + k)
    decreases n
  {
    hide Step;
    if n > 0 {
      RunsOn(prog, db, Step(prog[s.pc], db, s).value, t, u, n - 1, k);
    }
  }

  lemma ReachesOn(prog: seq<Op>, db: seq<seq<Row>>, s: State, t: State, u: State)
    requires Reaches(prog, db, s, t) && Reaches(prog, db, t, u)
    ensures Reaches(prog, db, s, u)
  {
    hide RunsTo;
    var n: nat :| RunsTo(prog, db, s, t, n);
    var k: nat :| RunsTo(prog, db, t, u, k);
    RunsOn(prog, db, s, t, u, n, k);
  }

  lemma Stay(prog: seq<Op>, db: seq<seq<Row>>, s: State)
    ensures Reaches(prog, db, s, s)
  {
    assert RunsTo(prog, db, s, s, 0);
  }

  lemma One(prog: seq<Op>, db: seq<seq<Row>>, s: State, t: State)
    requires 0 <= s.pc < |prog| && Step(prog[s.pc], db, s) == Some(t)
    ensures Reaches(prog, db, s, t)
  {
    hide Step;
    assert RunsTo(prog, db, t, t, 0);
    assert RunsTo(prog, db, s, t, 1);
  }

  // ----- single instructions

  /** s with one register overwritten, at the next instruction. */
  function Wrote(s: State, to: nat, v: Value): State
    requires to < |s.mem|
  {
    s.(pc := s.pc + 1, mem := s.mem[to := v])
  }

  ghost predicate Fetches(prog: seq<Op>, s: State, op: Op) {
    0 <= s.pc < |prog| && prog[s.pc] == op
  }

  lemma DoInteger(prog: seq<Op>, db: seq<seq<Row>>, s: State, n: int, to: nat)
    requires Fetches(prog, s, Integer(n, to)) && to < |s.mem|
    ensures Reaches(prog, db, s, Wrote(s, to, Int(n)))
  {
    One(prog, db, s, Wrote(s, to, Int(n)));
  }

  lemma DoNull(prog: seq<Op>, db: seq<seq<Row>>, s: State, to: nat)
    requires Fetches(prog, s, SetNull(to)) && to < |s.mem|
    ensures Reaches(prog, db, s, Wrote(s, to, Null))
  {
    One(prog, db, s, Wrote(s, to, Null));
  }

  lemma DoString(prog: seq<Op>, db: seq<seq<Row>>, s: State, to: nat, text: string)
    requires Fetches(prog, s, String8(to, text)) && to < |s.mem|
    ensures Reaches(prog, db, s, Wrote(s, to, Text(text)))
  {
    One(prog, db, s, Wrote(s, to, Text(text)));
  }

  lemma DoAddImm(prog: seq<Op>, db: seq<seq<Row>>, s: State, to: nat, n: int)
    requires Fetches(prog, s, AddImm(to, n)) && IsInt(s, to)
    ensures Reaches(prog, db, s, Wrote(s, to, Int(s.mem[to].n + n)))
  {
    One(prog, db, s, Wrote(s, to, Int(s.mem[to].n + n)));
  }

  lemma DoColumn(prog: seq<Op>, db: seq<seq<Row>>, s: State, c: nat, to: nat)
    requires Fetches(prog, s, Column(c, to)) && to < |s.mem|
    requires s.cursor < |db| && s.row < |db[s.cursor]| && c < |db[s.cursor][s.row]|
    ensures Reaches(prog, db, s, Wrote(s, to, db[s.cursor][s.row][c]))
  {
    One(prog, db, s, Wrote(s, to, db[s.cursor][s.row][c]));
  }

  lemma DoNe(prog: seq<Op>, db: seq<seq<Row>>, s: State, a: nat, target: int, b: nat)
    requires Fetches(prog, s, Ne(a, target, b)) && a < |s.mem| && b < |s.mem|
    ensures Reaches(prog, db, s, s.(pc := if Differ(s.mem[b], s.mem[a]) then target else s.pc + 1))
  {
    One(prog, db, s, s.(pc := if Differ(s.mem[b], s.mem[a]) then target else s.pc + 1));
  }

  lemma DoSCopy(prog: seq<Op>, db: seq<seq<Row>>, s: State, from: nat, to: nat)
    requires Fetches(prog, s, SCopy(from, to)) && from < |s.mem| && to < |s.mem|
    ensures Reaches(prog, db, s, Wrote(s, to, s.mem[from]))
  {
    One(prog, db, s, Wrote(s, to, s.mem[from]));
  }

  lemma DoConcat(prog: seq<Op>, db: seq<seq<Row>>, s: State, a: nat, b: nat, to: nat)
    requires Fetches(prog, s, Concat(a, b, to)) && IsPrintable(s, a) && IsPrintable(s, b) && to < |s.mem|
    ensures Reaches(prog, db, s, Wrote(s, to, Text(AsText(s.mem[b]) + AsText(s.mem[a]))))
  {
    One(prog, db, s, Wrote(s, to, Text(AsText(s.mem[b]) + AsText(s.mem[a]))));
  }

  lemma DoAdd(prog: seq<Op>, db: seq<seq<Row>>, s: State, a: nat, b: nat, to: nat)
    requires Fetches(prog, s, Add(a, b, to)) && IsInt(s, a) && IsInt(s, b) && to < |s.mem|
    ensures Reaches(prog, db, s, Wrote(s, to, Int(s.mem[a].n + s.mem[b].n)))
  {
    One(prog, db, s, Wrote(s, to, Int(s.mem[a].n + s.mem[b].n)));
  }

  lemma DoDivide(prog: seq<Op>, db: seq<seq<Row>>, s: State, a: nat, b: nat, to: nat)
    requires Fetches(prog, s, Divide(a, b, to)) && IsInt(s, a) && IsInt(s, b) && to < |s.mem|
    requires s.mem[a].n > 0 && s.mem[b].n >= 0
    ensures Reaches(prog, db, s, Wrote(s, to, Int(s.mem[b].n / s.mem[a].n)))
  {
    assert Truncated(s.mem[b].n, s.mem[a].n) == s.mem[b].n / s.mem[a].n;
    hide Truncated;
    One(prog, db, s, Wrote(s, to, Int(s.mem[b].n / s.mem[a].n)));
  }
}
