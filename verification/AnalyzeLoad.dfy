/**
 analysisLoader of analyze.c reads the statistics string back.
 */
module AnalyzeLoad {
  import opened Vdbe
  import opened Analyze
  import opened AnalyzeReport
  import opened AnalyzeStats

  const W: nat := 0x1_0000_0000         // the range of unsigned int

  predicate IsDigit(c: char) {
    '0' <= c <= '9'
  }

  /** The digit loop: the value read, continuing from v, and what is left. */
  function Scan(v: nat, z: string): (nat, string)
    decreases |z|
  {
    if z != [] && IsDigit(z[0]) then Scan((v * 10 + (z[0] as int - '0' as int)) % W, z[1..]) else (v, z)
  }

  function SkipBlank(z: string): string {
    if z != [] && z[0] == ' ' then z[1..] else z
  }

  /** At most k numbers. */
  function Parse(z: string, k: nat): seq<nat>
    decreases k
  {
    if z == [] || k == 0 then []
    else
      var (v, rest) := Scan(0, z);
      [v] + Parse(SkipBlank(rest), k - 1)
  }

  lemma {:induction false} ParseCount(z: string, k: nat)
    ensures |Parse(z, k)| <= k
    decreases k
  {
    if z != [] && k > 0 {
      ParseCount(SkipBlank(Scan(0, z).1), k - 1);
    }
  }

  method ScanNumber(z: string) returns (v: nat, rest: string)
    ensures (v, rest) == Scan(0, z)
  {
    v, rest := 0, z;
    while rest != [] && IsDigit(rest[0])
      invariant Scan(v, rest) == Scan(0, z)
      decreases |rest|
    {
      v, rest := (v * 10 + (rest[0] as int - '0' as int)) % W, rest[1..];
    }
  }

  /** The loop of analysisLoader over aiRowEst, which has one element more than the index has columns. */
  method Load(text: string, aiRowEst: array<nat>)
    modifies aiRowEst
    ensures |Parse(text, aiRowEst.Length)| <= aiRowEst.Length
    ensures aiRowEst[..] == Parse(text, aiRowEst.Length) + old(aiRowEst[..])[|Parse(text, aiRowEst.Length)|..]
  {
    hide Scan, SkipBlank;
    ParseCount(text, aiRowEst.Length);
    var z, i := text, 0;
    while z != [] && i < aiRowEst.Length
      invariant 0 <= i <= aiRowEst.Length && i + |Parse(z, aiRowEst.Length - i)| <= aiRowEst.Length
      invariant Parse(text, aiRowEst.Length) == aiRowEst[..i] + Parse(z, aiRowEst.Length - i)
      invariant aiRowEst[i..] == old(aiRowEst[..])[i..]
      decreases aiRowEst.Length - i
    {
      ghost var before := aiRowEst[..];
      var v, rest := ScanNumber(z);
      aiRowEst[i] := v;
      assert aiRowEst[..i + 1] == before[..i] + [v];
      assert aiRowEst[i + 1..] == before[i..][1..];
      z := if rest != [] && rest[0] == ' ' then rest[1..] else rest;
      SkipBlankIs(rest);
      i := i + 1;
    }
  }

  lemma SkipBlankIs(z: string)
    ensures SkipBlank(z) == if z != [] && z[0] == ' ' then z[1..] else z
  {
  }

  // ----- reading what was printed

  lemma ModStep(q: nat, d: nat)
    ensures (q % W * 10 + d) % W == (q * 10 + d) % W
  {
    var a, b := q / W, q % W;
    assert q == a * W + b;
    assert q * 10 + d == b * 10 + d + (a * 10) * W;
    ModPlus(b * 10 + d, a * 10);
  }

  lemma {:induction false} ModPlus(x: nat, a: nat)
    ensures (x + a * W) % W == x % W
  {
    if a > 0 {
      ModPlus(x, a - 1);
      assert x + a * W == (x + (a - 1) * W) + W;
    }
  }

  /** Scanning a printed number continues behind it with its value. */
  lemma {:induction false} ScanDecimal(n: nat, rest: string)
    ensures Scan(0, Decimal(n) + rest) == Scan(n % W, rest)
  {
    if n < 10 {
      ScanDigit(0, n, rest);
      assert Decimal(n) == [Digit(n)];
    } else {
      var q, d := n / 10, n % 10;
      assert Decimal(n) + rest == Decimal(q) + ([Digit(d)] + rest);
      ScanDecimal(q, [Digit(d)] + rest);
      ScanDigit(q % W, d, rest);
      ModStep(q, d);
    }
  }

  lemma ScanDigit(v: nat, d: nat, rest: string)
    requires d < 10
    ensures Scan(v, [Digit(d)] + rest) == Scan((v * 10 + d) % W, rest)
  {
    var z := [Digit(d)] + rest;
    assert z[1..] == rest;
  }

  /** The estimates from column c on, as they are printed. */
  ghost function Tail(t: Totals, c: nat): string
    requires Positive(t) && c <= |t.ds|
    decreases |t.ds| - c
  {
    if c == |t.ds| then [] else " " + Decimal(Estimate(t.k, t.ds[c])) + Tail(t, c + 1)
  }

  lemma {:induction false} TailText(t: Totals, c: nat)
    requires Positive(t) && c <= |t.ds|
    ensures StatText(t, c) + Tail(t, c) == StatText(t, |t.ds|)
    decreases |t.ds| - c
  {
    hide Decimal, Estimate;
    if c < |t.ds| {
      TailText(t, c + 1);
      var e := Decimal(Estimate(t.k, t.ds[c]));
      assert StatText(t, c + 1) == StatText(t, c) + " " + e;
      assert StatText(t, c) + Tail(t, c) == StatText(t, c + 1) + Tail(t, c + 1);
    }
  }

  /** What the loader gets from column c on. */
  ghost function Estimates(t: Totals, c: nat): (r: seq<nat>)
    requires Positive(t) && c <= |t.ds|
    ensures |r| == |t.ds| - c
    ensures forall i :: 0 <= i < |r| ==> r[i] == Estimate(t.k, t.ds[c + i]) % W
    decreases |t.ds| - c
  {
    if c == |t.ds| then [] else [Estimate(t.k, t.ds[c]) % W] + Estimates(t, c + 1)
  }

  /** Reading one number and the rest of the string. */
  lemma {:induction false} ParseNumber(t: Totals, n: nat, c: nat)
    requires Positive(t) && c <= |t.ds|
    ensures Parse(Decimal(n) + Tail(t, c), |t.ds| - c + 1) == [n % W] + Estimates(t, c)
    decreases |t.ds| - c
  {
    hide Decimal, Estimate;
    var z := Decimal(n) + Tail(t, c);
    ScanDecimal(n, Tail(t, c));
    if c == |t.ds| {
      assert Scan(n % W, []) == (n % W, []);
    } else {
      var e := Estimate(t.k, t.ds[c]);
      var next := Decimal(e) + Tail(t, c + 1);
      assert Tail(t, c) == " " + next;
      assert Scan(n % W, Tail(t, c)) == (n % W, Tail(t, c));
      assert SkipBlank(Tail(t, c)) == next;
      ParseNumber(t, e, c + 1);
    }
  }

  /** Loading the printed statistics gives the row count and the estimates, as unsigned integers. */
  lemma LoadsBack(t: Totals)
    requires Positive(t)
    ensures Parse(StatText(t, |t.ds|), |t.ds| + 1) == [t.k % W] + Estimates(t, 0)
  {
    hide Parse, Decimal;
    assert StatText(t, 0) == Decimal(t.k);
    TailText(t, 0);
    ParseNumber(t, t.k, 0);
  }

  /** aiRowEst never increases and is at least one, as build.c demands. */
  ghost predicate GoodEstimates(est: seq<nat>) {
    && (forall i :: 0 <= i < |est| ==> est[i] >= 1)
    && (forall i, k :: 0 <= i && k == i + 1 < |est| ==> est[k] <= est[i])
  }

  lemma EstimateFits(k: nat, d: nat)
    requires 0 < d <= k < W
    ensures 1 <= Estimate(k, d) <= k && Estimate(k, d) % W == Estimate(k, d)
  {
    EstimateShrinks(k, 1, d);
    EstimateRoundsUp(k, d);
    assert Estimate(k, 1) == k;
    hide Estimate;
    if Estimate(k, d) == 0 {
      assert false;
    }
  }

  /** The statistics of any non-empty index with fewer than 2^32 rows load as good estimates. */
  lemma LoadedAreGood(rows: seq<Row>, n: nat)
    requires Wide(rows, n) && 0 < |rows| < W
    ensures Positive(TotalsOf(rows, n))
    ensures var t := TotalsOf(rows, n);
      var est := Parse(StatText(t, n), n + 1);
      && |est| == n + 1 && est[0] == |rows| && GoodEstimates(est)
      && forall c :: 0 <= c < n ==> est[c + 1] == Estimate(|rows|, t.ds[c])
  {
    hide Estimate, Parse, StatText, Starts, GoodEstimates;
    TotalsPositive(rows, n);
    var t := TotalsOf(rows, n);
    LoadsBack(t);
    forall c | 0 <= c < n
      ensures 0 < t.ds[c] <= |rows| && Estimate(|rows|, t.ds[c]) % W == Estimate(|rows|, t.ds[c])
    {
      StartsPositive(rows, n, |rows|, c);
      EstimateFits(|rows|, t.ds[c]);
    }
    forall c, d | 0 <= c && d == c + 1 < n
      ensures t.ds[c] <= t.ds[d]
    {
      StartsGrow(rows, n, |rows|, c);
    }
    GoodFrom(t, Parse(StatText(t, n), n + 1));
  }

  /** Numbers of fresh rows that grow from column to column give good estimates. */
  lemma GoodFrom(t: Totals, est: seq<nat>)
    requires 0 < t.k < W && |est| == |t.ds| + 1 && est[0] == t.k
    requires forall c :: 0 <= c < |t.ds| ==> 0 < t.ds[c] <= t.k && est[c + 1] == Estimate(t.k, t.ds[c])
    requires forall c, d :: 0 <= c && d == c + 1 < |t.ds| ==> t.ds[c] <= t.ds[d]
    ensures GoodEstimates(est)
  {
    hide Estimate;
    forall i | 0 < i < |est|
      ensures 1 <= est[i] <= t.k && (i > 1 ==> est[i] <= est[i - 1])
    {
      var c := i - 1;
      assert est[c + 1] == Estimate(t.k, t.ds[c]);
      EstimateFits(t.k, t.ds[c]);
      if c > 0 {
        var b := c - 1;
        assert est[b + 1] == Estimate(t.k, t.ds[b]);
        EstimateShrinks(t.k, t.ds[b], t.ds[c]);
      }
    }
  }

  /**
   From index to estimates: the emitted code, run on a sorted index without NULLs, appends one row
   whose text loads as the number of rows followed by the rows per distinct prefix, rounded up.
   */
  lemma AnalyzeThenLoad(le: (nat, Value, Value) -> bool, prog: seq<Op>, db: seq<seq<Row>>, j: Job, s: State)
      returns (t: State, text: string)
    requires Layout(prog, j) && Ready(db, j, s) && s.pc == j.at && j.n > 0
    requires Orders(le) && Sorted(le, db[j.root], j.n) && NoNulls(db[j.root], j.n) && 0 < |db[j.root]| < W
    ensures Reaches(prog, db, s, t) && t.pc == j.Exit()
    ensures t.stat == s.stat + [Record([Text(j.table), Text(j.name), Text(text)])]
    ensures var rows, est := db[j.root], Parse(text, j.n + 1);
      && |est| == j.n + 1 && est[0] == |rows| && GoodEstimates(est)
      && forall c :: 0 <= c < j.n ==>
           |Prefixes(rows, j.n, |rows|, c)| > 0 && est[c + 1] == Estimate(|rows|, |Prefixes(rows, j.n, |rows|, c)|)
  {
    hide Layout, Reaches, Orders, Sorted, NoNulls, Parse, StatText, Estimate, GoodEstimates, Prefixes, Starts, Positive;
    var rows := db[j.root];
    LoadedAreGood(rows, j.n);
    text := StatText(TotalsOf(rows, j.n), j.n);
    t := AnalyzeIndex(prog, db, j, s);
    forall c | 0 <= c < j.n
      ensures 0 < |Prefixes(rows, j.n, |rows|, c)| == TotalsOf(rows, j.n).ds[c]
    {
      TotalsAreDistinct(le, rows, j.n, c);
      StartsPositive(rows, j.n, |rows|, c);
    }
  }
}
