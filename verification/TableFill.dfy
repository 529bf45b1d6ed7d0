/**
 The second half of huft_build: generating the codes in order and filling the tables.
 */
module TableFill {
  import opened Bits
  import opened Canonical
  import opened HuffmanTables
  import opened CodeLengths
  import opened TableSpace

  /** How many table entries inflate allocates for its trees. */
  const MANY := 1440

  // ----- the size of a new table

  /** `f` patterns of `xp` bits are left in the table once the codes of up to `xp` bits are in. */
  ghost predicate PatternsLeft(p: Plan, w: nat, i: nat, xp: nat, f: nat)
    requires p.Valid() && w <= p.g && 1 <= xp <= p.g
  {
    Shl(f, p.g - xp) + p.Start(xp, p.c[xp]) == Rev(p.g, i) + Pow2(p.g - w)
  }

  lemma FirstPatterns(p: Plan, w: nat, k: nat, r: nat)
    requires p.Valid() && p.IsCode(k, r) && w < k
    ensures var n := p.c[k] - r;
      if Pow2(k - w) > n then PatternsLeft(p, w, p.Val(k, r), k, Pow2(k - w) - n)
      else p.Start(k, p.c[k]) >= Rev(p.g, p.Val(k, r)) + Pow2(p.g - w)
  {
    hide Pow2, Shl, Rev, FirstCode;
    var n, s := p.c[k] - r, p.g - k;
    p.CodeFits(k, r);
    ShlAdd(FirstCode(p.c, k) + r, n, s);
    ShlPow2(k - w, s);
    if Pow2(k - w) > n {
      ShlAdd(Pow2(k - w) - n, n, s);
    } else {
      ShlMono(Pow2(k - w), n, s);
    }
  }

  lemma FirstCodeNext(c: seq<nat>, k: nat)
    requires |c| == BMAX + 1 && 1 <= k < BMAX
    ensures FirstCode(c, k + 1) == 2 * (FirstCode(c, k) + c[k])
  {
  }

  lemma NextPatterns(p: Plan, w: nat, i: nat, xp: nat, f: nat)
    requires p.Valid() && w <= p.g && 1 <= xp < p.g && PatternsLeft(p, w, i, xp, f)
    ensures var n := p.c[xp + 1];
      if 2 * f > n then PatternsLeft(p, w, i, xp + 1, 2 * f - n)
      else p.Start(xp + 1, n) >= Rev(p.g, i) + Pow2(p.g - w)
  {
    hide Pow2, Shl, Rev, FirstCode;
    var n, s := p.c[xp + 1], p.g - xp - 1;
    ShlDouble(f, s);
    ShlDouble(FirstCode(p.c, xp) + p.c[xp], s);
    FirstCodeNext(p.c, xp);
    ShlAdd(FirstCode(p.c, xp + 1), n, s);
    if 2 * f > n {
      ShlAdd(2 * f - n, n, s);
    } else {
      ShlMono(2 * f, n, s);
    }
  }

  /** Patterns are left over exactly when the table is not used up. */
  lemma UsedUp(p: Plan, k: nat, r: nat, w: nat, j: nat, f: nat)
    requires p.Valid() && p.IsCode(k, r) && w + j <= p.g && 1 <= w + j
    requires if f > 0 then PatternsLeft(p, w, p.Val(k, r), w + j, f)
             else p.Start(w + j, p.c[w + j]) >= Rev(p.g, p.Val(k, r)) + Pow2(p.g - w)
    ensures UsesUp(p.c, p.g, k, r, w, j) <==> f == 0
  {
    hide Pow2, Shl, Rev, FirstCode;
    p.CodeFits(k, r);
    if f > 0 { ShlPositive(f, p.g - (w + j)); }
  }

  lemma {:induction false} ShlPositive(f: nat, n: nat)
    requires f > 0
    ensures Shl(f, n) > 0
    decreases n
  {
    if n > 0 { ShlPositive(f, n - 1); }
  }

  /** The width of a table that takes all remaining codes with these leading bits, if l bits do. */
  method TableBits(ghost p: Plan, c: seq<nat>, g: nat, l: nat, w: nat, k: nat, a: nat)
    returns (j: nat)
    requires p.Valid() && c == p.c && g == p.g && l == p.l
    requires k <= g && w < k && a < c[k]
    ensures 1 <= j <= g - w
    ensures j >= l || w + j == g
         || Rev(g, p.Val(k, c[k] - a - 1)) + Pow2(g - w) <= p.Start(w + j, c[w + j])
    ensures j > l <==> k - w > l
    ensures j == TableWidth(c, g, l, k, c[k] - a - 1, w, k - w)
  {
    hide Pow2, Shl, Rev, FirstCode, UsesUp;
    ghost var r := c[k] - a - 1;
    ghost var i := p.Val(k, r);
    FirstPatterns(p, w, k, r);
    var z := g - w;
    if z > l { z := l; }
    j := k - w;
    var f: nat := Pow2(j);
    UsedUp(p, k, r, w, j, if f > a + 1 then f - (a + 1) else 0);
    if f > a + 1 {
      f := f - (a + 1);
      var xp: nat := k;
      if j < z {
        j := j + 1;
        while j < z
          invariant k - w < j <= z && xp == w + j - 1
          invariant f > 0 && PatternsLeft(p, w, i, xp, f)
          invariant TableWidth(c, g, l, k, r, w, k - w) == TableWidth(c, g, l, k, r, w, j)
        {
          NextPatterns(p, w, i, xp, f);
          f := 2 * f;
          xp := xp + 1;
          UsedUp(p, k, r, w, j, if f > c[xp] then f - c[xp] else 0);
          if f <= c[xp] { break; }
          f := f - c[xp];
          j := j + 1;
        }
      }
    }
  }

  // ----- the entries of one code

  /** Entries with the same low `n` index bits are `1 << n` apart. */
  lemma SameLow(j: nat, j': nat, n: nat)
    requires j < j' && Low(j, n) == Low(j', n)
    ensures j + Pow2(n) <= j'
  {
    Split(j, n);
    Split(j', n);
    if Shr(j, n) < Shr(j', n) {
      ShlMono(Shr(j, n), Shr(j', n), n);
    } else {
      ShlMono(Shr(j', n), Shr(j, n), n);
    }
  }

  lemma NextSameLow(j: nat, n: nat)
    ensures Low(j + Pow2(n), n) == Low(j, n)
  {
    Split(j, n);
    ShlAdd(Shr(j, n), 1, n);
    ShlPow2(0, n);
    assert Pow2(0) == 1;
    Join(Low(j, n), Shr(j, n) + 1, n);
  }

  method FillEntries(hp: array<Huft>, ghost t: Table, w: nat, k: nat, i: nat, q: nat, z: nat, r: Huft)
    requires t.w == w && t.base == q && z == Pow2(t.bits) && q + z <= hp.Length
    requires t.w < k && i < Pow2(k)
    modifies hp
    ensures Replaced(old(hp[..]), hp[..], t, k, i, r)
  {
    hide Pow2, Low, Shr;
    var n := k - w;
    var f := Pow2(n);
    var j := Shr(i, w);
    ShrBound(i, t.w, n);
    forall m: nat | m <= j ensures Low(m, n) == m { LowSmall(m, n); }
    while j < z
      invariant Low(j, n) == Shr(i, t.w)
      invariant forall m :: 0 <= m < hp.Length ==>
        hp[m] == if q <= m < q + j && Written(t, k, i, m - q) then r else old(hp[m])
    {
      forall m: nat | j < m < j + f
        ensures Low(m, n) != Shr(i, t.w)
      {
        if Low(m, n) == Low(j, n) { SameLow(j, m, n); }
      }
      NextSameLow(j, n);
      hp[q + j] := r;
      j := j + f;
    }
  }

  // ----- the next code

  /** A carry has reached bit `n` of the code: the bits above it in stream order are done. */
  ghost predicate Carry(k: nat, i0: nat, n: nat, i: nat) {
    n <= k && i < Pow2(n) && Rev(k, i0) + 1 == Shl(Rev(n, i) + 1, k - n)
  }

  lemma TopBit(n: nat, x: nat)
    requires x < Pow2(n + 1)
    ensures Shr(x, n) % 2 == 1 <==> Pow2(n) <= x
    ensures x == Low(x, n) + if Pow2(n) <= x then Pow2(n) else 0
    ensures Rev(n + 1, x) == 2 * Rev(n, Low(x, n)) + if Pow2(n) <= x then 1 else 0
  {
    hide Low, Shr, Rev;
    RevTop(n, x);
    Split(x, n);
    ShlPow2(0, n);
    assert Pow2(0) == 1;
    hide Pow2, Shl;
    ShlAdd(0, 0, n);
    assert Shr(x, n) == 0 || Shr(x, n) == 1;
  }

  lemma CarryStarts(k: nat, i0: nat)
    requires i0 < Pow2(k)
    ensures Carry(k, i0, k, i0)
  {
    hide Pow2, Rev;
  }

  lemma CarryOn(k: nat, i0: nat, n: nat, i: nat)
    requires Carry(k, i0, n + 1, i) && Shr(i, n) % 2 == 1
    ensures Pow2(n) <= i && Carry(k, i0, n, i - Pow2(n))
  {
    TopBit(n, i);
    ShlDouble(Rev(n, i - Pow2(n)) + 1, k - n - 1);
  }

  lemma CarryEnds(k: nat, i0: nat, n: nat, i: nat)
    requires Carry(k, i0, n + 1, i) && Shr(i, n) % 2 == 0
    ensures i + Pow2(n) < Pow2(k) && Rev(k, i + Pow2(n)) == Rev(k, i0) + 1
  {
    hide Pow2, Shl, Shr, Rev, Low;
    var i' := i + Pow2(n);
    Pow2Double(n);
    TopBit(n, i);
    TopBit(n, i');
    assert Rev(n + 1, i') == Rev(n + 1, i) + 1;
    RevScale(n + 1, k, i');
    Pow2Mono(n + 1, k);
  }

  lemma CarryOut(k: nat, i0: nat, i: nat)
    requires Carry(k, i0, 0, i)
    ensures i == 0 && Rev(k, i0) + 1 == Pow2(k)
  {
    ShlPow2(0, k);
  }

  /** Add one to a code of `k` bits that is held in stream order. */
  method NextCode(k: nat, i0: nat) returns (i: nat)
    requires i0 < Pow2(k)
    ensures i < Pow2(k)
    ensures Rev(k, i0) + 1 < Pow2(k) ==> Rev(k, i) == Rev(k, i0) + 1
    ensures Rev(k, i0) + 1 == Pow2(k) ==> i == 0
  {
    hide Pow2, Shl, Shr, Rev, Carry;
    CarryStarts(k, i0);
    i := i0;
    var n: nat := k;           // the bit under test is 1 << (n - 1), or 0 when n is 0
    while n > 0 && Shr(i, n - 1) % 2 == 1
      invariant n <= k && Carry(k, i0, n, i)
      decreases n
    {
      CarryOn(k, i0, n - 1, i);
      i := i - Pow2(n - 1);
      n := n - 1;
    }
    if n > 0 {
      CarryEnds(k, i0, n - 1, i);
      i := i + Pow2(n - 1);
    } else {
      CarryOut(k, i0, i);
    }
  }

  // ----- the tables a code needs

  /** The local variables of huft_build that say where it is in the tables. */
  datatype Cursor = Cursor(
    h: int,             // table level
    w: int,             // bits before this table
    u: seq<nat>,        // table stack
    x: seq<nat>,        // code stack
    q: nat,             // current table
    z: nat,             // number of entries in current table
    hn: nat)            // table space used

  ghost predicate CursorOk(p: Plan, cur: Cursor, ts: seq<Table>, st: seq<nat>) {
    && |cur.u| == BMAX && |cur.x| == BMAX + 1
    && cur.h == |st| - 1 < BMAX
    && (forall n :: 0 <= n < |st| ==>
          st[n] < |ts| && cur.u[n] == ts[st[n]].base && cur.x[n] == ts[st[n]].x)
    && (|st| == 0 ==> cur.w == -(p.l as int))
    && (|st| > 0 ==> cur.w == ts[st[|st| - 1]].w)
  }

  /** The current table is the last one of the path. */
  ghost predicate Current(cur: Cursor, ts: seq<Table>, st: seq<nat>)
    requires |st| > 0 && st[|st| - 1] < |ts|
  {
    var t := ts[st[|st| - 1]];
    cur.q == t.base && cur.z == Pow2(t.bits)
  }

  /** A table was made for the first code with its leading bits; it is oversized if that code is long. */
  ghost predicate Origin(p: Plan, t: Table, k: nat, r: nat)
    requires p.Valid()
  {
    && p.IsCode(k, r) && p.Val(k, r) == t.x && t.w < k
    && (t.bits > p.l <==> t.w + p.l < k)
    && Multiple(p.l, t.w)
  }

  ghost predicate HasOrigin(p: Plan, t: Table)
    requires p.Valid()
  {
    exists k, r :: Origin(p, t, k, r)
  }

  /** The entries of a table beyond `1 << l` are as they were. */
  ghost predicate Untouched(p: Plan, hp0: seq<Huft>, hp: seq<Huft>, t: Table) {
    && |hp0| == |hp| && t.base + Pow2(t.bits) <= |hp|
    && forall q :: t.base + Pow2(p.l) <= q < t.base + Pow2(t.bits) ==> hp[q] == hp0[q]
  }

  ghost predicate AllTables(p: Plan, hp0: seq<Huft>, hp: seq<Huft>, ts: seq<Table>, lo: nat, hn: nat)
    requires p.Valid()
  {
    && |hp0| == |hp| && lo <= hn <= |hp|
    && TablesOk(p, ts, lo, hn)
    && (forall a :: 0 <= a < |ts| ==> HasOrigin(p, ts[a]) && Untouched(p, hp0, hp, ts[a]))
    && (forall q :: 0 <= q < lo || hn <= q < |hp| ==> hp[q] == hp0[q])
  }

  /** Every table begins before `pos` in the code space. */
  ghost predicate Earlier(p: Plan, ts: seq<Table>, pos: nat) {
    forall a :: 0 <= a < |ts| ==> Rev(p.g, ts[a].x) < pos
  }

  /** The state before the code (k, r) is placed. */
  ghost predicate Ready(p: Plan, hp0: seq<Huft>, hp: seq<Huft>, ts: seq<Table>, st: seq<nat>, cur: Cursor,
                        lo: nat, i: nat, pos: nat)
  {
    && p.Valid()
    && AllTables(p, hp0, hp, ts, lo, cur.hn)
    && Inv(p, hp, ts, st, i, pos)
    && CursorOk(p, cur, ts, st)
    && (|st| == 0 ==> |ts| == 0 && i == 0 && pos == 0)
    && (|st| > 0 ==> st[0] == 0 && |ts| > 0 && ts[0].base == lo)
    && (|ts| == 0 ==> cur.hn == lo)
  }

  /** Make the root table. */
  method FirstTable(ghost p: Plan, c: seq<nat>, g: nat, l: nat, k: nat, a: nat, cur: Cursor,
                    hp: array<Huft>, ghost hp0: seq<Huft>, ghost lo: nat)
    returns (ok: bool, cur': Cursor, ghost ts': seq<Table>)
    requires p.Valid() && c == p.c && g == p.g && l == p.l && hp.Length == MANY
    requires 1 <= k <= g && a < c[k] && k <= l && p.Val(k, c[k] - a - 1) == 0
    requires Ready(p, hp0, hp[..], [], [], cur, lo, 0, 0)
    ensures ok ==> Ready(p, hp0, hp[..], ts', [0], cur', lo, 0, 0)
    ensures ok ==> Current(cur', ts', [0])
    ensures cur'.w == 0
    ensures ok ==> |ts'| == 1 && ts'[0].x == 0
    ensures var z := Pow2(TableWidth(c, g, l, k, c[k] - a - 1, 0, k));
      ok == (cur.hn + z <= MANY) && (ok ==> cur'.hn == cur.hn + z)
  {
    hide Shl, Shr, Low, Rev, FirstCode, Pow2, Offset;
    var j := TableBits(p, c, g, l, 0, k, a);
    var z := Pow2(j);
    cur' := cur.(h := 0, w := 0);
    ts' := [];
    ok := false;
    if cur.hn + z > MANY { return; }
    ok := true;
    cur' := cur'.(u := cur.u[0 := cur.hn], x := cur.x[0 := 0], q := cur.hn, z := z, hn := cur.hn + z);
    ghost var t := Table(cur.hn, j, 0, 0);
    ts' := [t];
    assert Origin(p, t, k, c[k] - a - 1);
    RootReady(p, hp[..], t);
  }

  lemma RootReady(p: Plan, hp: seq<Huft>, t: Table)
    requires p.Valid() && TableOk(p, t, 0, |hp|) && t.w == 0 && t.x == 0
    ensures Inv(p, hp, [t], [0], 0, 0)
  {
    hide Pow2, Rev, FirstCode;
    assert Low(0, 0) == 0;
  }

  /** What a new table below the last one of the path has to satisfy. */
  ghost predicate Growing(p: Plan, hp0: seq<Huft>, hp: seq<Huft>, hp': seq<Huft>, ts: seq<Table>, st: seq<nat>,
                          cur: Cursor, lo: nat, k: nat, r: nat, t': Table)
  {
    && p.Valid() && p.IsCode(k, r)
    && Ready(p, hp0, hp, ts, st, cur, lo, p.Val(k, r), p.Start(k, r))
    && |st| > 0 && st[|st| - 1] < |ts|
    && Origin(p, t', k, r)
    && TableOk(p, t', cur.hn, |hp|) && t'.base == cur.hn
    && var t := ts[st[|st| - 1]];
       var j := Shr(t'.x, t.w);
       && t'.w == t.w + p.l < k
       && t.bits >= p.l && j < Pow2(p.l) && t.base + Pow2(p.l) <= cur.hn
       && hp' == hp[t.base + j := Huft(t'.bits, p.l, cur.hn - t.base - j)]
  }

  lemma GrowTables(p: Plan, hp0: seq<Huft>, hp: seq<Huft>, hp': seq<Huft>, ts: seq<Table>, st: seq<nat>,
                   cur: Cursor, lo: nat, k: nat, r: nat, t': Table)
    requires Growing(p, hp0, hp, hp', ts, st, cur, lo, k, r, t')
    ensures AllTables(p, hp0, hp', ts + [t'], lo, cur.hn + Pow2(t'.bits))
  {
    hide Shl, Shr, Low, Rev, FirstCode, Pow2, Offset, LeadsOn, IsLeaf;
    var ts', top := ts + [t'], st[|st| - 1];
    var q := ts[top].base + Shr(t'.x, ts[top].w);
    assert TableOk(p, ts[top], lo, cur.hn);
    forall b | 0 <= b < |ts'|
      ensures TableOk(p, ts'[b], lo, cur.hn + Pow2(t'.bits))
      ensures HasOrigin(p, ts'[b]) && Untouched(p, hp0, hp', ts'[b])
    {
      if b < |ts| {
        assert TableOk(p, ts[b], lo, cur.hn);
        assert Untouched(p, hp0, hp, ts[b]);
        if b != top {
          Pow2Mono(p.l, ts[top].bits);
          Apart(p, ts, top, b, cur.hn, q);
        }
      }
    }
  }

  lemma GrowReady(p: Plan, hp0: seq<Huft>, hp: seq<Huft>, hp': seq<Huft>, ts: seq<Table>, st: seq<nat>,
                  cur: Cursor, cur': Cursor, lo: nat, k: nat, r: nat, t': Table)
    requires Growing(p, hp0, hp, hp', ts, st, cur, lo, k, r, t')
    requires cur.h + 1 < BMAX
    requires cur' == cur.(h := cur.h + 1, w := t'.w, u := cur.u[cur.h + 1 := t'.base],
                          x := cur.x[cur.h + 1 := t'.x], q := t'.base, z := Pow2(t'.bits),
                          hn := cur.hn + Pow2(t'.bits))
    ensures Ready(p, hp0, hp', ts + [t'], st + [|ts|], cur', lo, p.Val(k, r), p.Start(k, r))
  {
    hide Shl, Shr, Low, Rev, FirstCode, Pow2, Offset, Filled, Closed, Linked, Untouched, HasOrigin, Short;
    assert OnPath(ts, st, |st| - 1, p.Val(k, r));
    Grow(p, hp, hp', ts, st, cur.hn, k, r, t');
    GrowTables(p, hp0, hp, hp', ts, st, cur, lo, k, r, t');
    assert CursorOk(p, cur', ts + [t'], st + [|ts|]);
  }

  lemma NextTableFits(p: Plan, hp0: seq<Huft>, hp: seq<Huft>, ts: seq<Table>, st: seq<nat>, cur: Cursor,
                      lo: nat, k: nat, r: nat)
    requires p.Valid() && p.IsCode(k, r)
    requires Ready(p, hp0, hp, ts, st, cur, lo, p.Val(k, r), p.Start(k, r))
    requires |st| > 0 && k > cur.w + p.l
    ensures st[|st| - 1] < |ts| && cur.h + 1 < BMAX && cur.w >= 0
    ensures var t := ts[st[|st| - 1]];
      && cur.u[cur.h] == t.base && cur.w == t.w
      && t.bits >= p.l && t.base + Pow2(p.l) <= cur.hn
      && Shr(p.Val(k, r), t.w) < Pow2(p.l)
      && p.Val(k, r) < Pow2(t.w + p.l)
      && Multiple(p.l, t.w + p.l)
  {
    hide Shl, Shr, Low, Rev, FirstCode, Pow2, Offset, Filled, Closed, Linked, Untouched, HasOrigin, Short;
    assert OnPath(ts, st, |st| - 1, p.Val(k, r));
    FirstInPrefix(p, hp, ts, st, k, r);
    var t := ts[st[|st| - 1]];
    assert TableOk(p, t, lo, cur.hn);
    Pow2Mono(p.l, t.bits);
    assert HasOrigin(p, t);
    OriginMultiple(p, t);
  }

  lemma OriginMultiple(p: Plan, t: Table)
    requires p.Valid() && HasOrigin(p, t)
    ensures Multiple(p.l, t.w + p.l)
  {
  }

  /** Make a table below the last one of the path and link it in. */
  method NextTable(ghost p: Plan, c: seq<nat>, g: nat, l: nat, k: nat, a: nat, i: nat, cur: Cursor,
                   hp: array<Huft>, ghost hp0: seq<Huft>, ghost lo: nat, ghost ts: seq<Table>, ghost st: seq<nat>)
    returns (ok: bool, cur': Cursor, ghost ts': seq<Table>, ghost st': seq<nat>)
    requires p.Valid() && c == p.c && g == p.g && l == p.l && hp.Length == MANY
    requires 1 <= k <= g && a < c[k] && i == p.Val(k, c[k] - a - 1)
    requires Ready(p, hp0, hp[..], ts, st, cur, lo, i, p.Start(k, c[k] - a - 1))
    requires |st| > 0 && k > cur.w + l
    modifies hp
    ensures forall q :: 0 <= q < lo ==> hp[q] == old(hp[q])
    ensures ok ==> Ready(p, hp0, hp[..], ts', st', cur', lo, i, p.Start(k, c[k] - a - 1))
    ensures ok ==> |st'| > 0 && Current(cur', ts', st') && cur'.w == cur.w + l
    ensures 0 <= cur.w && i < Pow2(cur.w + l)
    ensures ok ==> |ts'| == |ts| + 1 && ts'[..|ts|] == ts && ts'[|ts|].x == i
    ensures var z := Pow2(TableWidth(c, g, l, k, c[k] - a - 1, cur.w + l, k - cur.w - l));
      ok == (cur.hn + z <= MANY) && (ok ==> cur'.hn == cur.hn + z)
  {
    hide Shl, Shr, Low, Rev, FirstCode, Pow2, Offset, Filled, Closed, Linked, Untouched, HasOrigin, TableWidth,
         StackOk, AllTables;
    ghost var r := c[k] - a - 1;
    ReadyFacts(p, hp0, hp[..], ts, st, cur, lo, i, p.Start(k, r));
    NextTableFits(p, hp0, hp[..], ts, st, cur, lo, k, r);
    var w: nat := cur.w + l;
    var j := TableBits(p, c, g, l, w, k, a);
    var z := Pow2(j);
    cur' := cur.(h := cur.h + 1, w := w);
    ts', st' := ts, st;
    ok := false;
    if cur.hn + z > MANY { return; }
    ok := true;
    ghost var t' := Table(cur.hn, j, w, i);
    cur' := cur'.(u := cur.u[cur.h + 1 := cur.hn], x := cur.x[cur.h + 1 := i],
                  q := cur.hn, z := z, hn := cur.hn + z);
    var n := Shr(i, w - l);
    ghost var was := hp[..];
    hp[cur.u[cur.h] + n] := Huft(j, l, cur.hn - cur.u[cur.h] - n);
    ts', st' := ts + [t'], st + [|ts|];
    assert Origin(p, t', k, r);
    assert TableOk(p, t', cur.hn, MANY);
    assert hp[..] == was[cur.u[cur.h] + n := Huft(j, l, cur.hn - cur.u[cur.h] - n)];
    GrowReady(p, hp0, was, hp[..], ts, st, cur, cur', lo, k, r, t');
  }

  /** A code opens no table at or above the level of the last table of the path. */
  lemma NextLevel(p: Plan, hp0: seq<Huft>, hp: seq<Huft>, ts: seq<Table>, st: seq<nat>, cur: Cursor,
                  lo: nat, k: nat, r: nat)
    requires p.Valid() && p.IsCode(k, r) && cur.w < k
    requires Ready(p, hp0, hp, ts, st, cur, lo, p.Val(k, r), p.Start(k, r)) && Earlier(p, ts, p.Start(k, r))
    ensures cur.w + p.l >= 0
    ensures OpenedBy(p.c, p.g, p.l, k, r, 0) == OpenedBy(p.c, p.g, p.l, k, r, cur.w + p.l)
  {
    hide Shl, Shr, Low, Rev, FirstCode, Pow2, Offset, Filled, Closed, Linked, Untouched, Short, OpenedBy;
    if |st| > 0 {
      assert OnPath(ts, st, |st| - 1, p.Val(k, r));
      var t := ts[st[|st| - 1]];
      assert HasOrigin(p, t);
      NotFirst(p, t, k, r);
      SkipLevels(p.c, p.g, p.l, k, r, t.w);
    }
  }

  /** A code with the leading bits of a table that begins before it is not the first such code. */
  lemma NotFirst(p: Plan, t: Table, k: nat, r: nat)
    requires p.Valid() && p.IsCode(k, r) && t.x == Low(p.Val(k, r), t.w) && Rev(p.g, t.x) < p.Start(k, r)
    requires HasOrigin(p, t)
    ensures !Opens(p.c, k, r, t.w) && Multiple(p.l, t.w)
  {
    hide Shl, Shr, Low, Rev, FirstCode, Pow2, Offset;
    p.CodeFits(k, r);
    if p.Val(k, r) < Pow2(t.w) { LowSmall(p.Val(k, r), t.w); }
  }

  lemma OpensHere(p: Plan, k: nat, r: nat, w: nat)
    requires p.Valid() && p.IsCode(k, r) && w < k && p.Val(k, r) < Pow2(w)
    ensures OpenedBy(p.c, p.g, p.l, k, r, w) ==
            Pow2(TableWidth(p.c, p.g, p.l, k, r, w, k - w)) + OpenedBy(p.c, p.g, p.l, k, r, w + p.l)
  {
    hide Rev, FirstCode, Pow2, TableWidth;
  }

  /** Make the next table that the code needs. */
  method OneTable(ghost p: Plan, c: seq<nat>, g: nat, l: nat, k: nat, a: nat, i: nat, cur: Cursor,
                  hp: array<Huft>, ghost hp0: seq<Huft>, ghost lo: nat, ghost ts: seq<Table>, ghost st: seq<nat>)
    returns (ok: bool, cur': Cursor, ghost ts': seq<Table>, ghost st': seq<nat>)
    requires p.Valid() && c == p.c && g == p.g && l == p.l && hp.Length == MANY
    requires 1 <= k <= g && a < c[k] && i == p.Val(k, c[k] - a - 1)
    requires Ready(p, hp0, hp[..], ts, st, cur, lo, i, p.Start(k, c[k] - a - 1))
    requires Earlier(p, ts, p.Start(k, c[k] - a - 1) + 1)
    requires |st| == 0 ==> k <= l
    requires k > cur.w + l >= 0
    modifies hp
    ensures forall q :: 0 <= q < lo ==> hp[q] == old(hp[q])
    ensures ok ==> Ready(p, hp0, hp[..], ts', st', cur', lo, i, p.Start(k, c[k] - a - 1))
    ensures ok ==> |st'| > 0 && st'[|st'| - 1] < |ts'| && Current(cur', ts', st') && cur'.w == cur.w + l
    ensures ok ==> Earlier(p, ts', p.Start(k, c[k] - a - 1) + 1)
    ensures var r := c[k] - a - 1;
      if ok then cur'.hn + OpenedBy(c, g, l, k, r, cur'.w + l) == cur.hn + OpenedBy(c, g, l, k, r, cur.w + l)
      else cur.hn + OpenedBy(c, g, l, k, r, cur.w + l) > MANY
  {
    hide Shl, Shr, Low, Rev, FirstCode, Pow2, Offset, AllTables, Inv, TableWidth, OpenedBy;
    ghost var r := c[k] - a - 1;
    p.CodeFits(k, r);
    if cur.h < 0 {
      RootWanted(p);
      OpensHere(p, k, r, 0);
      ok, cur', ts' := FirstTable(p, c, g, l, k, a, cur, hp, hp0, lo);
      st' := [0];
    } else {
      ok, cur', ts', st' := NextTable(p, c, g, l, k, a, i, cur, hp, hp0, lo, ts, st);
      OpensHere(p, k, r, cur.w + l);
    }
  }

  lemma RootWanted(p: Plan)
    ensures Pow2(0) == 1
  {
  }

  /** Make tables up to the level that the code needs. */
  method MakeTables(ghost p: Plan, c: seq<nat>, g: nat, l: nat, k: nat, a: nat, i: nat, cur0: Cursor,
                    hp: array<Huft>, ghost hp0: seq<Huft>, ghost lo: nat, ghost ts0: seq<Table>, ghost st0: seq<nat>)
    returns (ok: bool, cur: Cursor, ghost ts: seq<Table>, ghost st: seq<nat>)
    requires p.Valid() && c == p.c && g == p.g && l == p.l && hp.Length == MANY
    requires 1 <= k <= g && a < c[k] && i == p.Val(k, c[k] - a - 1)
    requires Ready(p, hp0, hp[..], ts0, st0, cur0, lo, i, p.Start(k, c[k] - a - 1))
    requires |st0| == 0 ==> k <= l
    requires cur0.w < k
    requires |st0| > 0 && k <= cur0.w + l ==> st0[|st0| - 1] < |ts0| && Current(cur0, ts0, st0)
    requires Earlier(p, ts0, p.Start(k, c[k] - a - 1))
    modifies hp
    ensures forall q :: 0 <= q < lo ==> hp[q] == old(hp[q])
    ensures ok ==> Ready(p, hp0, hp[..], ts, st, cur, lo, i, p.Start(k, c[k] - a - 1))
    ensures ok ==> |st| > 0 && st[|st| - 1] < |ts| && Current(cur, ts, st) && cur.w < k <= cur.w + l
    ensures ok ==> Earlier(p, ts, p.Start(k, c[k] - a - 1) + 1)
    ensures var n := OpenedBy(c, g, l, k, c[k] - a - 1, 0);
      if ok then cur.hn == cur0.hn + n else cur0.hn + n > MANY
  {
    hide Shl, Shr, Low, Rev, FirstCode, Pow2, Offset, Filled, Closed, Linked, Untouched, HasOrigin, Short;
    hide TableWidth, Ready, OpenedBy;
    ghost var r := c[k] - a - 1;
    NextLevel(p, hp0, hp[..], ts0, st0, cur0, lo, k, r);
    ReadyFacts(p, hp0, hp[..], ts0, st0, cur0, lo, i, p.Start(k, r));
    cur, ts, st := cur0, ts0, st0;
    ok := true;
    while k > cur.w + l
      invariant Ready(p, hp0, hp[..], ts, st, cur, lo, i, p.Start(k, c[k] - a - 1))
      invariant |st| == 0 ==> k <= l && cur.w + l == 0
      invariant cur.w < k
      invariant |st| > 0 && k <= cur.w + l ==> st[|st| - 1] < |ts| && Current(cur, ts, st)
      invariant forall q :: 0 <= q < lo ==> hp[q] == old(hp[q])
      invariant Earlier(p, ts, p.Start(k, r) + 1) && cur.w + l >= 0
      invariant cur.hn + OpenedBy(c, g, l, k, r, cur.w + l) == cur0.hn + OpenedBy(c, g, l, k, r, 0)
      decreases k - cur.w
    {
      ok, cur, ts, st := OneTable(p, c, g, l, k, a, i, cur, hp, hp0, lo, ts, st);
      if !ok { return; }
    }
    NoneLeft(p, k, r, cur.w + l);
  }

  lemma ReadyFacts(p: Plan, hp0: seq<Huft>, hp: seq<Huft>, ts: seq<Table>, st: seq<nat>, cur: Cursor,
                   lo: nat, i: nat, pos: nat)
    requires Ready(p, hp0, hp, ts, st, cur, lo, i, pos)
    ensures lo <= |hp| && (|st| == 0 ==> cur.w + p.l == 0)
  {
  }

  lemma NoneLeft(p: Plan, k: nat, r: nat, w: nat)
    requires p.Valid() && p.IsCode(k, r) && w >= k
    ensures OpenedBy(p.c, p.g, p.l, k, r, w) == 0
  {
  }

  // ----- one code

  /** A table that takes a code directly is not oversized. */
  lemma NotOversized(p: Plan, t: Table, k: nat, r: nat)
    requires p.Valid() && p.IsCode(k, r) && HasOrigin(p, t)
    requires Low(p.Val(k, r), t.w) == t.x && t.w < k <= t.w + p.l && t.x < Pow2(t.w)
    ensures t.bits <= p.l
  {
    hide Shl, Shr, Low, Rev, FirstCode, Pow2, Offset;
    var k0, r0 :| Origin(p, t, k0, r0);
    p.CodeFits(k, r);
    p.CodeFits(k0, r0);
    Cover(t.w, p.g, t.x, p.Val(k, r));
    if k < k0 { p.Ahead(k, r, k0, r0); }
  }

  lemma FilledTables(p: Plan, hp0: seq<Huft>, hp: seq<Huft>, hp': seq<Huft>, ts: seq<Table>, lo: nat, hn: nat,
                     top: nat, k: nat, i: nat, e: Huft)
    requires p.Valid() && AllTables(p, hp0, hp, ts, lo, hn)
    requires top < |ts| && ts[top].bits <= p.l && ts[top].w <= k
    requires Replaced(hp, hp', ts[top], k, i, e)
    ensures AllTables(p, hp0, hp', ts, lo, hn)
  {
    hide Shl, Shr, Low, Rev, FirstCode, Pow2, Offset, HasOrigin, Short;
    var t := ts[top];
    Pow2Mono(t.bits, p.l);
    assert TableOk(p, t, lo, hn);
    assert forall q :: 0 <= q < |hp| && !(t.base <= q < t.base + Pow2(t.bits)) ==> hp'[q] == hp[q];
    forall b | 0 <= b < |ts|
      ensures Untouched(p, hp0, hp', ts[b])
    {
      assert Untouched(p, hp0, hp, ts[b]);
      if b != top {
        forall q | ts[b].base <= q < ts[b].base + Pow2(ts[b].bits)
          ensures hp'[q] == hp[q]
        {
          Apart(p, ts, b, top, hn, q);
        }
      }
    }
  }

  /** Entering a code into its table leaves everything ready past it. */
  lemma Entered(p: Plan, hp0: seq<Huft>, hp: seq<Huft>, hp': seq<Huft>, ts: seq<Table>, st: seq<nat>, cur: Cursor,
                lo: nat, k: nat, r: nat, e: Huft)
    requires p.Valid() && p.IsCode(k, r)
    requires Ready(p, hp0, hp, ts, st, cur, lo, p.Val(k, r), p.Start(k, r))
    requires |st| > 0 && st[|st| - 1] < |ts| && cur.w < k <= cur.w + p.l
    requires e.bits == k - cur.w && p.Payload(e, Offset(p.c, k) + r)
    requires Replaced(hp, hp', ts[st[|st| - 1]], k, p.Val(k, r), e)
    ensures Ready(p, hp0, hp', ts, st, cur, lo, p.Val(k, r), p.Start(k, r) + Pow2(p.g - k))
  {
    hide Shl, Shr, Low, Rev, FirstCode, Pow2, Offset, Filled, Closed, Linked, Untouched, HasOrigin, Short;
    var t := ts[st[|st| - 1]];
    assert OnPath(ts, st, |st| - 1, p.Val(k, r));
    assert TableOk(p, t, lo, cur.hn);
    FitsTable(p, t, lo, cur.hn, k, r);
    assert Placing(p, hp, hp', ts, st, k, r, e);
    PlaceCode(p, hp, hp', ts, st, k, r, e);
    NotOversized(p, t, k, r);
    FilledTables(p, hp0, hp, hp', ts, lo, cur.hn, st[|st| - 1], k, p.Val(k, r), e);
  }

  /** Leave the tables that the next code is not in. */
  method BackUp(ghost p: Plan, l: nat, ghost k: nat, ghost r: nat, next: nat, cur0: Cursor,
                ghost hp0: seq<Huft>, ghost hp: seq<Huft>, ghost lo: nat, ghost ts: seq<Table>, ghost st0: seq<nat>)
    returns (cur: Cursor, ghost st: seq<nat>)
    requires p.Valid() && l == p.l && p.IsCode(k, r)
    requires Ready(p, hp0, hp, ts, st0, cur0, lo, p.Val(k, r), p.Start(k, r) + Pow2(p.g - k))
    requires var pos' := p.Start(k, r) + Pow2(p.g - k); pos' == Pow2(p.g) || Rev(p.g, next) == pos'
    requires |st0| > 0 && st0[|st0| - 1] < |ts| && Current(cur0, ts, st0) && cur0.w < k
    ensures Ready(p, hp0, hp, ts, st, cur, lo, next, p.Start(k, r) + Pow2(p.g - k))
    ensures |st| > 0 && st[|st| - 1] < |ts| && cur.w < k && cur.hn == cur0.hn
    ensures Current(cur, ts, st) || k > cur.w + l
  {
    hide Shl, Shr, Low, Rev, FirstCode, Pow2, Offset, Filled, Closed, Linked, Untouched, HasOrigin, Short;
    cur, st := cur0, st0;
    while Low(next, cur.w) != cur.x[cur.h]
      invariant Ready(p, hp0, hp, ts, st, cur, lo, p.Val(k, r), p.Start(k, r) + Pow2(p.g - k))
      invariant |st| > 0 && st[|st| - 1] < |ts| && 0 <= cur.w < k && cur.hn == cur0.hn
      invariant Current(cur, ts, st) || k > cur.w + l
      decreases |st|
    {
      assert OnPath(ts, st, |st| - 1, p.Val(k, r));
      Below(p, hp, ts, st, p.Val(k, r), next);
      Leave(p, hp, ts, st, k, r, next);
      cur := cur.(h := cur.h - 1, w := cur.w - l);
      st := st[..|st| - 1];
      assert OnPath(ts, st, |st| - 1, p.Val(k, r));
    }
    assert OnPath(ts, st, |st| - 1, p.Val(k, r));
    Stay(p, hp, ts, st, p.Val(k, r), p.Start(k, r) + Pow2(p.g - k), next);
  }

  /** A table that is left is not the root, and the one above it is `l` bits up. */
  lemma Below(p: Plan, hp: seq<Huft>, ts: seq<Table>, st: seq<nat>, i: nat, next: nat)
    requires p.Valid() && TablesOk(p, ts, 0, |hp|) && StackOk(p, hp, ts, st, i)
    requires |st| > 0 && OnPath(ts, st, |st| - 1, i)
    requires Low(next, ts[st[|st| - 1]].w) != ts[st[|st| - 1]].x
    ensures |st| > 1 && OnPath(ts, st, |st| - 2, i) && ts[st[|st| - 2]].w + p.l == ts[st[|st| - 1]].w
  {
    if |st| > 1 {
      assert StepOf(p, hp, ts, st, |st| - 1);
    }
  }

  /** `i` is the r-th code of k bits, or the code space is used up. */
  ghost predicate At(p: Plan, k: nat, r: nat, i: nat)
    requires p.Valid() && 1 <= k <= p.g
  {
    r <= p.c[k] && (FirstCode(p.c, k) + r < Pow2(k) ==> i == p.Val(k, r))
  }

  /** Adding one to a code gives the next code of its length, except after the very last. */
  lemma Advance(p: Plan, k: nat, r: nat, i: nat)
    requires p.Valid() && p.IsCode(k, r) && i < Pow2(k)
    requires FirstCode(p.c, k) + r + 1 < Pow2(k) ==> Rev(k, i) == FirstCode(p.c, k) + r + 1
    ensures At(p, k, r + 1, i)
    ensures p.Start(k, r + 1) == p.Start(k, r) + Pow2(p.g - k)
    ensures p.Start(k, r + 1) == Pow2(p.g) || Rev(p.g, i) == p.Start(k, r + 1)
  {
    hide Shl, Rev, FirstCode, Pow2;
    var n := FirstCode(p.c, k) + r;
    ShlAdd(n, 1, p.g - k);
    OneShl(p.g - k);
    p.CodeFits(k, r);
    if n + 1 < Pow2(k) {
      RevRev(k, i);
      RevScale(k, p.g, i);
    } else {
      ShlPow2(k, p.g - k);
    }
  }

  lemma OneShl(n: nat)
    ensures Shl(1, n) == Pow2(n)
  {
    ShlPow2(0, n);
    assert Pow2(0) == 1;
  }

  /** The codes of the next length go on where this length stops. */
  lemma NextLength(p: Plan, k: nat, i: nat)
    requires p.Valid() && 1 <= k < p.g && At(p, k, p.c[k], i)
    ensures At(p, k + 1, 0, i) && p.Start(k + 1, 0) == p.Start(k, p.c[k])
    ensures Offset(p.c, k + 1) == Offset(p.c, k) + p.c[k]
  {
    assert RoomLeft(p.c, k);
    var n := FirstCode(p.c, k) + p.c[k];
    assert FirstCode(p.c, k + 1) == 2 * n;
    ShlDouble(n, p.g - k - 1);
    assert Rev(k + 1, 2 * n) == Rev(k, n);
  }

  lemma StartAtZero(p: Plan, min: nat, hp: seq<Huft>, cur: Cursor)
    requires p.Valid() && 1 <= min <= p.g && FirstCode(p.c, min) == 0
    requires |cur.u| == BMAX && |cur.x| == BMAX + 1 && cur.h == -1 && cur.w == -(p.l as int) && cur.hn <= |hp|
    ensures At(p, min, 0, 0)
    ensures Ready(p, hp, hp, [], [], cur, cur.hn, 0, p.Start(min, 0))
  {
    RevZero(min);
    ShlAdd(0, 0, p.g - min);
  }

  lemma LastStart(p: Plan)
    requires p.Valid()
    ensures p.Start(p.g, p.c[p.g]) == Pow2(p.g)
  {
  }

  /** The entry for the next symbol in code order. */
  method MakeEntry(ghost p: Plan, bits: nat, v: seq<nat>, idx: nat, s: nat, d: seq<nat>, e: seq<nat>)
    returns (r: Huft)
    requires p.ValidSymbols() && v == p.vals && s == p.simple && d == p.bases && e == p.extra
    ensures r.bits == bits && p.Payload(r, idx)
  {
    if idx >= |v| {
      r := Huft(128 + 64, bits, 0);         // out of values; the base of this entry is never used
    } else if v[idx] < s {
      r := Huft(if v[idx] < 256 then 0 else 32 + 64, bits, v[idx]);
    } else {
      r := Huft((e[v[idx] - s] + 16 + 64) % 256, bits, d[v[idx] - s]);
    }
  }

  /** Place one code: tables, entries, the next code, and the path to it. */
  method PlaceOne(ghost p: Plan, c: seq<nat>, g: nat, l: nat, v: seq<nat>, s: nat, d: seq<nat>, e: seq<nat>,
                  k: nat, a: nat, i: nat, idx: nat, cur0: Cursor,
                  hp: array<Huft>, ghost hp0: seq<Huft>, ghost lo: nat, ghost ts0: seq<Table>, ghost st0: seq<nat>)
    returns (ok: bool, i': nat, cur: Cursor, ghost ts: seq<Table>, ghost st: seq<nat>)
    requires p.Valid() && p.ValidSymbols() && c == p.c && g == p.g && l == p.l && hp.Length == MANY
    requires v == p.vals && s == p.simple && d == p.bases && e == p.extra
    requires 1 <= k <= g && a < c[k] && At(p, k, c[k] - a - 1, i) && idx == Offset(c, k) + c[k] - a - 1
    requires Ready(p, hp0, hp[..], ts0, st0, cur0, lo, i, p.Start(k, c[k] - a - 1))
    requires |st0| == 0 ==> k <= l
    requires cur0.w < k
    requires |st0| > 0 && k <= cur0.w + l ==> st0[|st0| - 1] < |ts0| && Current(cur0, ts0, st0)
    requires Earlier(p, ts0, p.Start(k, c[k] - a - 1))
    modifies hp
    ensures forall q :: 0 <= q < lo ==> hp[q] == old(hp[q])
    ensures var n := OpenedBy(c, g, l, k, c[k] - a - 1, 0);
      if ok then cur.hn == cur0.hn + n else cur0.hn + n > MANY
    ensures ok ==> Earlier(p, ts, p.Start(k, c[k] - a))
    ensures ok ==> At(p, k, c[k] - a, i')
    ensures ok ==> Ready(p, hp0, hp[..], ts, st, cur, lo, i', p.Start(k, c[k] - a))
    ensures ok ==> |st| > 0 && st[|st| - 1] < |ts| && cur.w < k && (Current(cur, ts, st) || k > cur.w + l)
  {
    hide Shl, Shr, Low, Rev, FirstCode, Pow2, Offset, Filled, Closed, Linked, Untouched, HasOrigin, Short, OpenedBy;
    hide Earlier;
    ghost var r := c[k] - a - 1;
    p.CodeFits(k, r);
    ok, cur, ts, st := MakeTables(p, c, g, l, k, a, i, cur0, hp, hp0, lo, ts0, st0);
    i' := i;
    if !ok { return; }
    var entry := MakeEntry(p, k - cur.w, v, idx, s, d, e);
    ghost var t, was := ts[st[|st| - 1]], hp[..];
    assert TableOk(p, t, lo, cur.hn);
    FillEntries(hp, t, cur.w, k, i, cur.q, cur.z, entry);
    Entered(p, hp0, was, hp[..], ts, st, cur, lo, k, r, entry);
    i' := NextCode(k, i);
    Advance(p, k, r, i');
    EarlierMore(p, ts, p.Start(k, r) + 1, p.Start(k, r + 1));
    cur, st := BackUp(p, l, k, r, i', cur, hp0, hp[..], lo, ts, st);
  }

  lemma EarlierMore(p: Plan, ts: seq<Table>, pos: nat, pos': nat)
    requires Earlier(p, ts, pos) && pos <= pos'
    ensures Earlier(p, ts, pos')
  {
  }

  /** The last table of the path takes codes of k bits, or new tables are needed for them. */
  ghost predicate Level(p: Plan, k: nat, cur: Cursor, ts: seq<Table>, st: seq<nat>) {
    && cur.w < k
    && (|st| > 0 && k <= cur.w + p.l ==> st[|st| - 1] < |ts| && Current(cur, ts, st))
  }

  /** Place all codes of k bits. */
  method PlaceLength(ghost p: Plan, c: seq<nat>, g: nat, l: nat, v: seq<nat>, s: nat, d: seq<nat>, e: seq<nat>,
                     k: nat, i0: nat, idx0: nat, cur0: Cursor,
                     hp: array<Huft>, ghost hp0: seq<Huft>, ghost lo: nat, ghost ts0: seq<Table>, ghost st0: seq<nat>)
    returns (ok: bool, i: nat, idx: nat, cur: Cursor, ghost ts: seq<Table>, ghost st: seq<nat>)
    requires p.Valid() && p.ValidSymbols() && c == p.c && g == p.g && l == p.l && hp.Length == MANY
    requires v == p.vals && s == p.simple && d == p.bases && e == p.extra
    requires 1 <= k <= g && At(p, k, 0, i0) && idx0 == Offset(c, k)
    requires Ready(p, hp0, hp[..], ts0, st0, cur0, lo, i0, p.Start(k, 0))
    requires |st0| == 0 ==> k <= l
    requires Level(p, k, cur0, ts0, st0) && Earlier(p, ts0, p.Start(k, 0))
    modifies hp
    ensures forall q :: 0 <= q < lo ==> hp[q] == old(hp[q])
    ensures var n := OpenedByCodes(c, g, l, k, c[k]);
      if ok then cur.hn == cur0.hn + n else cur0.hn + n > MANY
    ensures ok ==> Earlier(p, ts, p.Start(k, c[k]))
    ensures ok ==> At(p, k, c[k], i) && idx == Offset(c, k) + c[k]
    ensures ok ==> Ready(p, hp0, hp[..], ts, st, cur, lo, i, p.Start(k, c[k]))
    ensures ok ==> Level(p, k, cur, ts, st) && (|st0| > 0 || c[k] > 0 ==> |st| > 0)
  {
    hide Shl, Shr, Low, Rev, FirstCode, Pow2, Offset, Filled, Closed, Linked, Untouched, HasOrigin, Short;
    i, idx, cur, ts, st := i0, idx0, cur0, ts0, st0;
    ok := true;
    var a := c[k];
    while a > 0
      invariant a <= c[k]
      invariant At(p, k, c[k] - a, i) && idx == Offset(c, k) + c[k] - a
      invariant Ready(p, hp0, hp[..], ts, st, cur, lo, i, p.Start(k, c[k] - a))
      invariant |st| == 0 ==> |st0| == 0 && k <= l && a == c[k]
      invariant Level(p, k, cur, ts, st) && Earlier(p, ts, p.Start(k, c[k] - a))
      invariant cur.hn == cur0.hn + OpenedByCodes(c, g, l, k, c[k] - a)
      invariant forall q :: 0 <= q < lo ==> hp[q] == old(hp[q])
    {
      a := a - 1;
      CodesMono(c, g, l, k, c[k] - a, c[k]);
      ok, i, cur, ts, st := PlaceOne(p, c, g, l, v, s, d, e, k, a, i, idx, cur, hp, hp0, lo, ts, st);
      if !ok { return; }
      idx := idx + 1;
    }
  }

  /** Generate the codes in order and make the table entries for each. */
  method PlaceCodes(ghost p: Plan, c: seq<nat>, g: nat, l: nat, v: seq<nat>, s: nat, d: seq<nat>, e: seq<nat>,
                    min: nat, hp: array<Huft>, hn0: nat)
    returns (ok: bool, t: nat, hn: nat, ghost ts: seq<Table>)
    requires p.Valid() && p.ValidSymbols() && c == p.c && g == p.g && l == p.l && hp.Length == MANY
    requires v == p.vals && s == p.simple && d == p.bases && e == p.extra
    requires 1 <= min <= l && hn0 <= MANY && c[min] > 0
    requires FirstCode(c, min) == 0 && Offset(c, min) == 0
    modifies hp
    ensures forall q :: 0 <= q < hn0 ==> hp[q] == old(hp[q])
    ensures ok ==> TablesOk(p, ts, 0, MANY)
    ensures ok ==> AllTables(p, old(hp[..]), hp[..], ts, hn0, hn) && Filled(p, hp[..], ts, Pow2(g))
    ensures ok ==> |ts| > 0 && ts[0].base == t && ts[0].w == 0 && ts[0].x == 0
    ensures if ok then hn == hn0 + OpenedUpTo(c, g, l, g) else hn0 + OpenedUpTo(c, g, l, g) > MANY
  {
    hide Shl, FirstCode, Pow2, Offset, Filled, Ready, At, AllTables, TablesOk, OpenedByCodes;
    ghost var hp0 := hp[..];
    var cur := Cursor(-1, -(l as int), seq(BMAX, _ => 0), seq(BMAX + 1, _ => 0), 0, 0, hn0);
    var k, i, idx := min, 0, 0;
    ts, t, hn := [], 0, hn0;
    ghost var st: seq<nat> := [];
    ok := true;
    StartAtZero(p, min, hp0, cur);
    NoShorter(c, min);
    NothingOpened(c, g, l, min - 1);
    while k <= g
      invariant min <= k <= g + 1
      invariant k <= g ==> At(p, k, 0, i) && idx == Offset(c, k)
      invariant Ready(p, hp0, hp[..], ts, st, cur, hn0, i, if k <= g then p.Start(k, 0) else Pow2(g))
      invariant |st| == 0 ==> k == min
      invariant Level(p, k, cur, ts, st) && (k <= g ==> Earlier(p, ts, p.Start(k, 0)))
      invariant cur.hn == hn0 + OpenedUpTo(c, g, l, k - 1)
      invariant forall q :: 0 <= q < hn0 ==> hp[q] == old(hp[q])
    {
      LengthsMono(c, g, l, k, g);
      ok, i, idx, cur, ts, st := PlaceLength(p, c, g, l, v, s, d, e, k, i, idx, cur, hp, hp0, hn0, ts, st);
      if !ok { return; }
      if k < g { NextLength(p, k, i); } else { LastStart(p); }
      k := k + 1;
    }
    Finished(p, hp0, hp[..], ts, st, cur, hn0, i, Pow2(g));
    t, hn := cur.u[0], cur.hn;
  }

  lemma {:induction false} NoShorter(c: seq<nat>, min: nat)
    requires |c| == BMAX + 1 && 1 <= min <= BMAX && Offset(c, min) == 0
    ensures forall k :: 1 <= k < min ==> c[k] == 0
    decreases min
  {
    if min > 1 { NoShorter(c, min - 1); }
  }

  lemma Finished(p: Plan, hp0: seq<Huft>, hp: seq<Huft>, ts: seq<Table>, st: seq<nat>, cur: Cursor,
                 lo: nat, i: nat, pos: nat)
    requires Ready(p, hp0, hp, ts, st, cur, lo, i, pos) && |st| > 0
    ensures AllTables(p, hp0, hp, ts, lo, cur.hn) && TablesOk(p, ts, 0, |hp|) && Filled(p, hp, ts, pos)
    ensures |cur.u| > 0 && |ts| > 0 && ts[0].base == cur.u[0] && ts[0].w == 0 && ts[0].x == 0
  {
    hide Filled;
    assert OnPath(ts, st, 0, i);
  }
}
