/**
 The first half of huft_build: counting the code lengths, completing the code and sorting the
 symbols by code.
 */
module CodeLengths {
  import opened Bits
  import opened Canonical
  import opened HuffmanTables

  method CountLengths(b: seq<nat>) returns (c: seq<nat>)
    requires |b| > 0 && Lengths(b)
    ensures c == Counts(b)
  {
    c := seq(BMAX + 1, _ => 0);
    var i := 0;
    while i < |b|
      invariant i <= |b|
      invariant c == CountsUpTo(b, i)
    {
      c := c[b[i] := c[b[i]] + 1];
      i := i + 1;
    }
  }

  /** The shortest and the longest code length in use. */
  method Extremes(c: seq<nat>) returns (j: nat, i: nat)
    requires |c| == BMAX + 1
    requires exists k :: 1 <= k <= BMAX && c[k] > 0
    ensures 1 <= j <= i <= BMAX && c[j] > 0 && c[i] > 0
    ensures forall k :: 1 <= k <= BMAX && (k < j || i < k) ==> c[k] == 0
  {
    j := 1;
    while j <= BMAX && c[j] == 0
      invariant 1 <= j <= BMAX + 1
      invariant forall k :: 1 <= k < j ==> c[k] == 0
    {
      j := j + 1;
    }
    i := BMAX;
    while i > 0 && c[i] == 0
      invariant 0 <= i <= BMAX
      invariant forall k :: i < k <= BMAX ==> c[k] == 0
    {
      i := i - 1;
    }
  }

  /**
   Fill up the last length so that the code is complete, or report that the lengths ask for
   more code space than there is.  `y` is the number of codes that were added.
   */
  method FillUp(c: seq<nat>, lo: nat, g: nat) returns (over: bool, y: nat, c': seq<nat>)
    requires |c| == BMAX + 1 && 1 <= lo <= g <= BMAX && c[g] > 0
    requires forall k :: 1 <= k < lo ==> c[k] == 0
    ensures over <==> exists k :: 1 <= k <= g && OverFull(c, k)
    ensures !over ==> c' == c[g := c[g] + y] && FirstCode(c, g) + c[g] + y == Pow2(g)
    ensures !over ==> forall k :: 1 <= k < g ==> RoomLeft(c, k)
  {
    var j := lo;
    var left: int := Pow2(j);
    EmptyStart(c, lo);
    over, y, c' := false, 0, c;
    while j < g
      invariant lo <= j <= g
      invariant left == Pow2(j) - FirstCode(c, j)
      invariant forall k :: 1 <= k < j ==> !OverFull(c, k)
    {
      left := left - c[j];
      if left < 0 {
        assert OverFull(c, j);
        over := true;
        return;
      }
      j := j + 1;
      left := 2 * left;
    }
    left := left - c[g];
    if left < 0 {
      assert OverFull(c, g);
      over := true;
      return;
    }
    y := left;
    c' := c[g := c[g] + y];
    forall k | 1 <= k < g
      ensures RoomLeft(c, k)
    {
      FullStaysFull(c, k, g);
    }
  }

  /** The codes of up to `k` bits need more than the whole code space. */
  ghost predicate OverFull(c: seq<nat>, k: nat)
    requires |c| == BMAX + 1 && k <= BMAX
  {
    FirstCode(c, k) + c[k] > Pow2(k)
  }

  lemma {:induction false} EmptyStart(c: seq<nat>, lo: nat)
    requires |c| == BMAX + 1 && 1 <= lo <= BMAX
    requires forall k :: 1 <= k < lo ==> c[k] == 0
    ensures FirstCode(c, lo) == 0
    ensures forall k :: 1 <= k < lo ==> !OverFull(c, k)
    decreases lo
  {
    if lo > 1 {
      EmptyStart(c, lo - 1);
    }
  }

  /** A code space used up by short codes has no room for longer ones. */
  lemma {:induction false} FullStaysFull(c: seq<nat>, k: nat, g: nat)
    requires |c| == BMAX + 1 && 1 <= k < g <= BMAX
    requires FirstCode(c, g) + c[g] <= Pow2(g) && c[g] > 0
    ensures RoomLeft(c, k)
    decreases g - k
  {
    if k + 1 < g {
      FullStaysFull(c, k + 1, g);
    }
  }

  /** Where the symbol goes when the symbols are sorted by length. */
  ghost function Slot(b: seq<nat>, sym: nat): nat
    requires Lengths(b) && sym < |b|
  {
    Offset(Counts(b), b[sym]) + CountUpTo(b, b[sym], sym)
  }

  ghost predicate SortedUpTo(b: seq<nat>, v: seq<nat>, m: nat)
    requires Lengths(b) && m <= |b|
  {
    forall sym :: 0 <= sym < m && b[sym] > 0 ==> Slot(b, sym) < |v| && v[Slot(b, sym)] == sym
  }

  /** Where the codes of each length start in the sorted list of symbols. */
  method StartingOffsets(b: seq<nat>, c: seq<nat>, g: nat) returns (x: seq<nat>)
    requires |c| == BMAX + 1 && 1 <= g <= BMAX
    requires forall k :: 1 <= k < g ==> c[k] == CountUpTo(b, k, |b|)
    ensures |x| == BMAX + 1
    ensures forall k :: 1 <= k <= g ==> x[k] == Offset(Counts(b), k)
  {
    x := seq(BMAX + 1, _ => 0);
    var j, k := 0, 1;
    while k < g
      invariant 1 <= k <= g && |x| == BMAX + 1
      invariant j == Offset(Counts(b), k)
      invariant forall n :: 1 <= n <= k ==> x[n] == Offset(Counts(b), n)
    {
      j := j + c[k];
      x := x[k + 1 := j];
      k := k + 1;
    }
  }

  /** No code is longer than `g`. */
  ghost predicate Longest(b: seq<nat>, g: nat) {
    forall i :: 0 <= i < |b| ==> b[i] <= g
  }

  /** The symbols that have a code, in the order of their codes. */
  method SortSymbols(b: seq<nat>, x0: seq<nat>, g: nat) returns (v: seq<nat>)
    requires |b| > 0 && 1 <= g <= BMAX && Lengths(b) && Longest(b, g)
    requires |x0| == BMAX + 1
    requires forall k :: 1 <= k <= g ==> x0[k] == Offset(Counts(b), k)
    ensures |v| == Offset(Counts(b), g) + Counts(b)[g]
    ensures SortedUpTo(b, v, |b|)
    ensures forall i :: 0 <= i < |v| ==> v[i] < |b|
  {
    hide Offset, Slot;
    var x := x0;
    v := seq(|b|, _ => 0);
    var i := 0;
    while i < |b|
      invariant i <= |b| && |x| == BMAX + 1 && |v| == |b|
      invariant forall n :: 1 <= n <= g ==> x[n] == Offset(Counts(b), n) + CountUpTo(b, n, i)
      invariant SortedUpTo(b, v, i)
      invariant forall n :: 0 <= n < |v| ==> v[n] < |b|
    {
      var j := b[i];
      if j != 0 {
        SlotFits(b, i);
        assert x[j] == Slot(b, i) by { SlotIs(b, i); }
        AddSymbol(b, v, i);
        v := v[x[j] := i];
        x := x[j := x[j] + 1];
      }
      i := i + 1;
    }
    assert x[g] <= |b| by { TotalFits(b, |b|, g + 1); FirstOffset(b, g); }
    v := v[..x[g]];
    forall sym | 0 <= sym < |b| && b[sym] > 0
      ensures Slot(b, sym) < |v|
    {
      SlotBelow(b, sym, g);
    }
  }

  lemma SlotIs(b: seq<nat>, sym: nat)
    requires Lengths(b) && sym < |b|
    ensures Slot(b, sym) == Offset(Counts(b), b[sym]) + CountUpTo(b, b[sym], sym)
  {
  }

  lemma AddSymbol(b: seq<nat>, v: seq<nat>, i: nat)
    requires Lengths(b) && i < |b| == |v| && b[i] > 0 && SortedUpTo(b, v, i) && Slot(b, i) < |v|
    ensures SortedUpTo(b, v[Slot(b, i) := i], i + 1)
  {
    hide Slot;
    forall sym | 0 <= sym < i && b[sym] > 0
      ensures Slot(b, sym) != Slot(b, i)
    {
      SlotsDiffer(b, sym, i);
    }
  }

  lemma {:induction false} TotalFits(b: seq<nat>, m: nat, k: nat)
    requires m <= |b| && k <= BMAX + 1
    ensures Offset(CountsUpTo(b, m), k) <= m
    decreases m
  {
    if m == 0 {
      NoOffset(CountsUpTo(b, 0), k);
    } else {
      TotalFits(b, m - 1, k);
      OneMore(b, m, k);
    }
  }

  lemma {:induction false} NoOffset(c: seq<nat>, k: nat)
    requires |c| == BMAX + 1 && k <= BMAX + 1 && forall j :: 0 <= j <= BMAX ==> c[j] == 0
    ensures Offset(c, k) == 0
    decreases k
  {
    if k > 1 { NoOffset(c, k - 1); }
  }

  lemma {:induction false} OneMore(b: seq<nat>, m: nat, k: nat)
    requires 0 < m <= |b| && k <= BMAX + 1
    ensures Offset(CountsUpTo(b, m), k)
         == Offset(CountsUpTo(b, m - 1), k) + if 1 <= b[m - 1] < k then 1 else 0
    decreases k
  {
    if k > 1 { OneMore(b, m, k - 1); }
  }

  lemma FirstOffset(b: seq<nat>, g: nat)
    requires 1 <= g <= BMAX
    ensures Offset(CountsUpTo(b, |b|), g + 1) == Offset(Counts(b), g) + Counts(b)[g]
  {
    assert CountsUpTo(b, |b|) == Counts(b);
  }

  lemma SlotBelow(b: seq<nat>, sym: nat, g: nat)
    requires Lengths(b) && sym < |b| && b[sym] > 0 && 1 <= g <= BMAX
    requires Longest(b, g)
    ensures Slot(b, sym) < Offset(Counts(b), g) + Counts(b)[g]
  {
    CountMono(b, b[sym], sym + 1, |b|);
    if b[sym] < g {
      OffsetMono(Counts(b), b[sym], g);
    }
  }

  lemma SlotFits(b: seq<nat>, sym: nat)
    requires Lengths(b) && sym < |b| && b[sym] > 0
    ensures Slot(b, sym) < |b|
  {
    CountMono(b, b[sym], sym + 1, |b|);
    TotalFits(b, |b|, b[sym] + 1);
    FirstOffset(b, b[sym]);
  }

  lemma SlotsDiffer(b: seq<nat>, s1: nat, s2: nat)
    requires Lengths(b) && s1 < s2 < |b| && b[s1] > 0 && b[s2] > 0
    ensures Slot(b, s1) != Slot(b, s2)
  {
    CountMono(b, b[s1], s1 + 1, s2);
    CountMono(b, b[s1], s1 + 1, |b|);
    CountMono(b, b[s2], s2 + 1, |b|);
    if b[s1] < b[s2] {
      OffsetMono(Counts(b), b[s1], b[s2]);
    } else if b[s2] < b[s1] {
      OffsetMono(Counts(b), b[s2], b[s1]);
    }
  }
}
