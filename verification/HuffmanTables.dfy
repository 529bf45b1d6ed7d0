/**
 The multi-level decoding tables of inflate: their layout, the lookup that inflate_codes
 performs on them, and the invariant huft_build keeps while it fills them.
 */
module HuffmanTables {
  import opened Bits
  import opened Canonical

  /** One table entry, inflate_huft. */
  datatype Huft = Huft(exop: nat, bits: nat, base: nat)

  predicate HasBit(e: nat, b: nat)
    requires b > 0
  {
    (e / b) % 2 == 1
  }

  /** The operation byte of an entry that leads to another table. */
  predicate IsLink(exop: nat) {
    exop != 0 && !HasBit(exop, 16) && !HasBit(exop, 64)
  }

  /** None of the operations that are not links looks like one. */
  lemma NoLinks(extra: nat)
    requires extra < 16 || extra == 112
    ensures !IsLink((extra + 80) % 256) && !IsLink(0) && !IsLink(96) && !IsLink(192)
  {
    if extra < 16 {
      assert (extra + 80) % 256 == 80 + extra;
      assert (80 + extra) / 16 == 5;
    }
  }

  datatype Lookup = Found(entry: Huft, used: nat) | Lost

  /**
   The LEN loop of inflate_codes: index the table with `need` bits of the stream `v`, drop the
   bits the entry says and, if the entry is a link, go on in the table it leads to.  A lookup that
   leaves the table space or meets an entry that gets nowhere is lost.
   */
  function LookUp(hp: seq<Huft>, tree: nat, need: nat, v: nat): Lookup
    decreases |hp| - tree
  {
    var a := tree + Low(v, need);
    if a >= |hp| then Lost
    else
      var e := hp[a];
      if e.bits == 0 || e.bits > need then Lost
      else if !IsLink(e.exop) then Found(e, e.bits)
      else if e.base == 0 || e.exop > BMAX then Lost
      else
        match LookUp(hp, a + e.base, e.exop, Shr(v, e.bits))
        case Found(f, used) => Found(f, e.bits + used)
        case Lost => Lost
  }

  /** A lookup that succeeds uses at least one bit. */
  lemma {:induction false} UsesBits(hp: seq<Huft>, tree: nat, need: nat, v: nat)
    requires LookUp(hp, tree, need, v).Found?
    ensures LookUp(hp, tree, need, v).used >= 1
  {
  }

  /** No table on the way of the lookup is indexed beyond the first `budget` bits of the stream. */
  ghost predicate Shallow(hp: seq<Huft>, tree: nat, need: nat, v: nat, budget: int)
    decreases |hp| - tree
  {
    need <= budget
    && var a := tree + Low(v, need);
       (a < |hp| && IsLink(hp[a].exop) && hp[a].base > 0 ==>
          Shallow(hp, a + hp[a].base, hp[a].exop, Shr(v, hp[a].bits), budget - hp[a].bits))
  }

  /** The codes of up to `k` bits leave code space for longer ones. */
  ghost predicate RoomLeft(c: seq<nat>, k: nat)
    requires |c| == BMAX + 1 && k <= BMAX
  {
    FirstCode(c, k) + c[k] < Pow2(k)
  }

  /** What huft_build knows once the lengths are counted and the symbols sorted. */
  datatype Plan = Plan(
    g: nat,             // longest code
    l: nat,             // bits per table
    c: seq<nat>,        // codes of each length, the last count filled up
    vals: seq<nat>,     // symbols in order of code
    simple: nat,        // symbols below this stand for themselves
    bases: seq<nat>,    // base values of the others
    extra: seq<nat>)    // extra bits of the others
  {
    /** The counts describe a complete prefix code whose longest codes have length g. */
    ghost predicate Valid() {
      && |c| == BMAX + 1
      && 1 <= l <= g <= BMAX
      && c[g] > 0
      && FirstCode(c, g) + c[g] == Pow2(g)
      && (forall k :: 1 <= k < g ==> RoomLeft(c, k))
    }

    /** Every symbol has a base value and a number of extra bits, or the mark for none. */
    ghost predicate ValidSymbols() {
      && |bases| == |extra|
      && (forall i :: 0 <= i < |vals| ==> vals[i] < simple + |bases|)
      && (forall i :: 0 <= i < |extra| ==> extra[i] < 16 || extra[i] == 112)
    }

    ghost predicate IsCode(k: nat, r: nat)
      requires Valid()
    {
      1 <= k <= g && r < c[k]
    }

    /** The r-th code of length k as it appears in the stream. */
    ghost function Val(k: nat, r: nat): nat
      requires Valid() && k <= BMAX
    {
      Rev(k, FirstCode(c, k) + r)
    }

    /** Where the r-th code of length k starts in the code space of 2^g points. */
    ghost function Start(k: nat, r: nat): nat
      requires Valid() && k <= g
    {
      Shl(FirstCode(c, k) + r, g - k)
    }

    /** The entry of the idx-th symbol in code order, past the symbols the invalid entry. */
    ghost predicate Payload(e: Huft, idx: nat)
    {
      if idx >= |vals| then e.exop == 192
      else if vals[idx] >= simple + |bases| || |bases| != |extra| then false
      else if vals[idx] < simple then
        e.exop == (if vals[idx] < 256 then 0 else 96) && e.base == vals[idx]
      else
        e.exop == (extra[vals[idx] - simple] + 80) % 256 && e.base == bases[vals[idx] - simple]
    }

    lemma PayloadIsNoLink(e: Huft, idx: nat)
      requires ValidSymbols() && Payload(e, idx)
      ensures !IsLink(e.exop)
    {
      hide IsLink;
      if idx < |vals| && vals[idx] >= simple {
        NoLinks(extra[vals[idx] - simple]);
      } else {
        NoLinks(112);
      }
    }

    lemma CodeFits(k: nat, r: nat)
      requires Valid() && IsCode(k, r)
      ensures FirstCode(c, k) + r < Pow2(k)
      ensures Val(k, r) < Pow2(k)
      ensures Rev(k, Val(k, r)) == FirstCode(c, k) + r
      ensures Rev(g, Val(k, r)) == Start(k, r)
    {
      hide Pow2, Shl, Shr, Low, Rev, FirstCode, Offset;
      assert k < g ==> RoomLeft(c, k);
      RevRev(k, FirstCode(c, k) + r);
      RevScale(k, g, Val(k, r));
    }

    /** Longer codes start after all shorter ones. */
    lemma {:induction false} StartOrder(j: nat, k: nat)
      requires Valid() && 1 <= j < k <= g
      ensures Start(j, c[j]) <= Start(k, 0)
      decreases k
    {
      var f := FirstCode(c, k - 1);
      ShlDouble(f + c[k - 1], g - k);
      assert Start(k - 1, c[k - 1]) == Start(k, 0);
      if j < k - 1 {
        StartOrder(j, k - 1);
        ShlMono(f, f + c[k - 1], g - (k - 1));
      }
    }

    /** No point of the code space belongs to two codes. */
    lemma Disjoint(k: nat, r: nat, k': nat, r': nat, p: nat)
      requires Valid() && IsCode(k, r) && IsCode(k', r')
      requires Start(k, r) <= p < Start(k, r) + Pow2(g - k)
      requires Start(k', r') <= p < Start(k', r') + Pow2(g - k')
      ensures k == k' && r == r'
    {
      hide Pow2, Shl, Shr, Low, Rev, FirstCode, Offset;
      if k < k' {
        Ahead(k, r, k', r');
      } else if k' < k {
        Ahead(k', r', k, r);
      } else if r < r' {
        ShlMono(FirstCode(c, k) + r, FirstCode(c, k) + r', g - k);
      } else if r' < r {
        ShlMono(FirstCode(c, k) + r', FirstCode(c, k) + r, g - k);
      }
    }

    lemma Ahead(k: nat, r: nat, k': nat, r': nat)
      requires Valid() && IsCode(k, r) && IsCode(k', r') && k < k'
      ensures Start(k, r) + Pow2(g - k) <= Start(k', r')
    {
      hide Pow2, Shl, Shr, Low, Rev, FirstCode, Offset;
      ShlMono(FirstCode(c, k) + r, FirstCode(c, k) + c[k], g - k);
      StartOrder(k, k');
      ShlMono(FirstCode(c, k'), FirstCode(c, k') + r', g - k');
    }
  }

  /** A decoding table: `w` stream bits equal to `x` lead to it and it is indexed with `bits` more. */
  datatype Table = Table(base: nat, bits: nat, w: nat, x: nat)

  function Min(a: nat, b: nat): nat { if a < b then a else b }

  /** The stream bits that lead to entry `j`. */
  function Prefix(t: Table, j: nat): nat { t.x + Shl(j, t.w) }

  ghost predicate TableOk(p: Plan, t: Table, lo: nat, hn: nat)
    requires p.Valid()
  {
    && 1 <= t.bits && t.w + t.bits <= p.g
    && t.x < Pow2(t.w)
    && lo <= t.base && t.base + Pow2(t.bits) <= hn
    && (t.bits >= p.l || t.w + t.bits == p.g || Short(p, t))
  }

  /** The codes of at most w + bits bits use up the table. */
  ghost predicate Short(p: Plan, t: Table)
    requires p.Valid() && 1 <= t.bits && t.w + t.bits <= p.g
  {
    Rev(p.g, t.x) + Pow2(p.g - t.w) <= p.Start(t.w + t.bits, p.c[t.w + t.bits])
  }

  ghost predicate TablesOk(p: Plan, ts: seq<Table>, lo: nat, hn: nat)
    requires p.Valid()
  {
    && (forall a :: 0 <= a < |ts| ==> TableOk(p, ts[a], lo, hn))
    && (forall a, b :: 0 <= a < b < |ts| ==> ts[a].base + Pow2(ts[a].bits) <= ts[b].base)
  }

  /** The number of index bits that huft_build really uses in a table. */
  function UsedBits(p: Plan, t: Table): nat { Min(t.bits, p.l) }

  ghost predicate LeafFor(p: Plan, e: Huft, t: Table, j: nat, k: nat, r: nat)
    requires p.Valid()
  {
    && p.IsCode(k, r)
    && t.w < k <= t.w + UsedBits(p, t)
    && e.bits == k - t.w
    && Low(Prefix(t, j), k) == p.Val(k, r)
    && p.Payload(e, Offset(p.c, k) + r)
  }

  ghost predicate LinkTo(p: Plan, e: Huft, t: Table, j: nat, t': Table) {
    && t.bits >= p.l
    && e.bits == p.l
    && 1 <= e.exop == t'.bits <= BMAX
    && t'.base == t.base + j + e.base && e.base > 0
    && t'.w == t.w + p.l
    && t'.x == Prefix(t, j)
  }

  ghost predicate EntryOk(p: Plan, hp: seq<Huft>, ts: seq<Table>, a: nat, j: nat)
    requires p.Valid() && a < |ts| && ts[a].base + j < |hp|
  {
    IsLeaf(p, hp[ts[a].base + j], ts[a], j) || LeadsOn(p, hp[ts[a].base + j], ts, ts[a], j)
  }

  ghost predicate IsLeaf(p: Plan, e: Huft, t: Table, j: nat)
    requires p.Valid()
  {
    exists k, r :: LeafFor(p, e, t, j, k, r)
  }

  ghost predicate LeadsOn(p: Plan, e: Huft, ts: seq<Table>, t: Table, j: nat) {
    exists b :: 0 <= b < |ts| && LinkTo(p, e, t, j, ts[b])
  }

  /** Every entry whose part of the code space starts before `pos` is in place. */
  ghost predicate Filled(p: Plan, hp: seq<Huft>, ts: seq<Table>, pos: nat)
    requires p.Valid() && TablesOk(p, ts, 0, |hp|)
  {
    forall a, j: nat :: 0 <= a < |ts| && j < Pow2(UsedBits(p, ts[a])) && Before(p, ts[a], j, pos)
      ==> ts[a].base + j < |hp| && EntryOk(p, hp, ts, a, j)
  }

  ghost predicate Before(p: Plan, t: Table, j: nat, pos: nat) {
    Rev(p.g, Prefix(t, j)) < pos
  }

  /** The tables of one path from the root, `st` naming them by index, lead to the code `i`. */
  ghost predicate StackOk(p: Plan, hp: seq<Huft>, ts: seq<Table>, st: seq<nat>, i: nat)
    requires p.Valid() && TablesOk(p, ts, 0, |hp|)
  {
    && (forall n :: 0 <= n < |st| ==> OnPath(ts, st, n, i))
    && (|st| > 0 ==> OnPath(ts, st, 0, i) && ts[st[0]].w == 0)
    && (forall n :: 0 < n < |st| ==> StepOf(p, hp, ts, st, n))
  }

  ghost predicate OnPath(ts: seq<Table>, st: seq<nat>, n: nat, i: nat)
    requires n < |st|
  {
    st[n] < |ts| && n <= ts[st[n]].w && ts[st[n]].x == Low(i, ts[st[n]].w)
  }

  /** The n-th table of the path is linked from the one before it. */
  ghost predicate StepOf(p: Plan, hp: seq<Huft>, ts: seq<Table>, st: seq<nat>, n: nat)
    requires p.Valid() && 0 < n < |st|
  {
    st[n - 1] < |ts| && st[n] < |ts| && Linked(p, hp, ts[st[n - 1]], ts[st[n]])
  }

  ghost predicate Linked(p: Plan, hp: seq<Huft>, t: Table, t': Table)
    requires p.Valid()
  {
    && t.w + p.l == t'.w
    && t.base + Shr(t'.x, t.w) < |hp|
    && LinkTo(p, hp[t.base + Shr(t'.x, t.w)], t, Shr(t'.x, t.w), t')
  }

  /** Tables that are off the path are complete. */
  ghost predicate Closed(p: Plan, ts: seq<Table>, st: seq<nat>, pos: nat) {
    forall a :: 0 <= a < |ts| && a !in st ==> EndsBy(p, ts[a], pos)
  }

  ghost predicate EndsBy(p: Plan, t: Table, pos: nat) {
    t.w <= p.g && Rev(p.g, t.x) + Pow2(p.g - t.w) <= pos
  }

  /** Everything that holds between two codes; `i` is the next code in stream order. */
  ghost predicate Inv(p: Plan, hp: seq<Huft>, ts: seq<Table>, st: seq<nat>, i: nat, pos: nat)
  {
    && p.Valid()
    && TablesOk(p, ts, 0, |hp|)
    && Filled(p, hp, ts, pos)
    && StackOk(p, hp, ts, st, i)
    && Closed(p, ts, st, pos)
  }

  // ----- one table entry and its part of the code space

  lemma PrefixFacts(p: Plan, t: Table, j: nat, lo: nat, hn: nat)
    requires p.Valid() && TableOk(p, t, lo, hn) && j < Pow2(UsedBits(p, t))
    ensures j < Pow2(t.bits)
    ensures Low(Prefix(t, j), t.w) == t.x && Shr(Prefix(t, j), t.w) == j
    ensures Prefix(t, j) < Pow2(t.w + UsedBits(p, t))
    ensures Rev(p.g, t.x) <= Rev(p.g, Prefix(t, j)) < Rev(p.g, t.x) + Pow2(p.g - t.w)
  {
    hide Pow2, Shl, Shr, Low, Rev, FirstCode, Offset;
    Pow2Mono(UsedBits(p, t), t.bits);
    Join(t.x, j, t.w);
    JoinBound(t.x, j, t.w, UsedBits(p, t));
    Cover(t.w, p.g, t.x, Prefix(t, j));
  }

  /** Two levels of a path agree on the bits they share. */
  lemma LowLow(x: nat, a: nat, b: nat)
    requires a <= b
    ensures Low(Low(x, b), a) == Low(x, a)
  {
    LowSplit(x, a, b - a);
  }

  lemma {:induction false} PathWidths(p: Plan, hp: seq<Huft>, ts: seq<Table>, st: seq<nat>, i: nat, m: nat, n: nat)
    requires p.Valid() && TablesOk(p, ts, 0, |hp|) && StackOk(p, hp, ts, st, i)
    requires m < n < |st|
    ensures OnPath(ts, st, m, i) && OnPath(ts, st, n, i)
    ensures ts[st[m]].w + p.l <= ts[st[n]].w
    decreases n
  {
    assert StepOf(p, hp, ts, st, n);
    assert OnPath(ts, st, m, i) && OnPath(ts, st, n, i);
    if m < n - 1 {
      PathWidths(p, hp, ts, st, i, m, n - 1);
    }
  }

  // ----- placing one code

  /** The entries that code `i` of `k` bits takes in the table `t`. */
  ghost predicate Written(t: Table, k: nat, i: nat, j: nat)
    requires t.w <= k
  {
    j < Pow2(t.bits) && Low(j, k - t.w) == Shr(i, t.w)
  }

  ghost predicate Replaced(hp: seq<Huft>, hp': seq<Huft>, t: Table, k: nat, i: nat, e: Huft)
    requires t.w <= k
  {
    && |hp'| == |hp|
    && (forall q :: 0 <= q < |hp| ==> hp'[q] == if t.base <= q && Written(t, k, i, q - t.base) then e else hp[q])
  }

  /** A code that lies in a table is short enough for the bits the table uses, if k <= w + l. */
  lemma FitsTable(p: Plan, t: Table, lo: nat, hn: nat, k: nat, r: nat)
    requires p.Valid() && TableOk(p, t, lo, hn) && p.IsCode(k, r)
    requires t.w < k && Low(p.Val(k, r), t.w) == t.x
    ensures k <= t.w + p.l ==> k <= t.w + UsedBits(p, t)
    ensures t.w + p.l < k ==> t.bits >= p.l
  {
    hide Pow2, Shl, Shr, Low, Rev, FirstCode, Offset;
    if t.bits < p.l && t.w + t.bits < k {
      p.CodeFits(k, r);
      Cover(t.w, p.g, t.x, p.Val(k, r));
      p.StartOrder(t.w + t.bits, k);
      ShlMono(FirstCode(p.c, k), FirstCode(p.c, k) + r, p.g - k);
      assert false;
    }
  }

  /** The state in which the code (k, r) is about to be put into the last table of the path. */
  ghost predicate Placing(p: Plan, hp: seq<Huft>, hp': seq<Huft>, ts: seq<Table>, st: seq<nat>,
                          k: nat, r: nat, e: Huft)
  {
    && p.Valid() && p.IsCode(k, r)
    && Inv(p, hp, ts, st, p.Val(k, r), p.Start(k, r))
    && |st| > 0 && OnPath(ts, st, |st| - 1, p.Val(k, r))
    && var t := ts[st[|st| - 1]];
       && t.w < k <= t.w + UsedBits(p, t)
       && e.bits == k - t.w && p.Payload(e, Offset(p.c, k) + r)
       && Replaced(hp, hp', t, k, p.Val(k, r), e)
  }

  /** In the table the code goes to, the written entries are the ones whose prefix has the code. */
  lemma WrittenIsCovered(p: Plan, t: Table, lo: nat, hn: nat, k: nat, i: nat, j: nat)
    requires p.Valid() && TableOk(p, t, lo, hn) && t.w < k && Low(i, t.w) == t.x
    requires j < Pow2(t.bits) && i < Pow2(k)
    ensures Written(t, k, i, j) <==> Low(Prefix(t, j), k) == i
  {
    hide Pow2, Shl, Shr, Low, Rev, FirstCode, Offset;
    Join(t.x, j, t.w);
    LowSplit(Prefix(t, j), t.w, k - t.w);
    assert Low(Prefix(t, j), k) == t.x + Shl(Low(j, k - t.w), t.w);
    Split(i, t.w);
    if Low(Prefix(t, j), k) == i {
      Join(t.x, Low(j, k - t.w), t.w);
    }
  }

  /** An entry of an earlier table of the path that starts inside the code is the link onwards. */
  lemma OuterEntry(p: Plan, hp: seq<Huft>, ts: seq<Table>, st: seq<nat>, i: nat, k: nat, n: nat, j: nat)
    requires p.Valid() && TablesOk(p, ts, 0, |hp|) && StackOk(p, hp, ts, st, i)
    requires n + 1 < |st| && OnPath(ts, st, n, i) && OnPath(ts, st, n + 1, i) && ts[st[n + 1]].w <= k
    requires j < Pow2(UsedBits(p, ts[st[n]])) && Low(Prefix(ts[st[n]], j), k) == i
    ensures Prefix(ts[st[n]], j) == ts[st[n + 1]].x
    ensures j == Shr(ts[st[n + 1]].x, ts[st[n]].w)
  {
    hide Pow2, Shl, Shr, Low, Rev, FirstCode, Offset;
    var t, t' := ts[st[n]], ts[st[n + 1]];
    assert StepOf(p, hp, ts, st, n + 1);
    PrefixFacts(p, t, j, 0, |hp|);
    Pow2Mono(t.w + UsedBits(p, t), t'.w);
    LowLow(Prefix(t, j), t'.w, k);
    LowSmall(Prefix(t, j), t'.w);
  }

  lemma KeepStep(p: Plan, hp: seq<Huft>, hp': seq<Huft>, ts: seq<Table>, st: seq<nat>,
                 k: nat, r: nat, e: Huft, n: nat)
    requires Placing(p, hp, hp', ts, st, k, r, e) && 0 < n < |st|
    ensures StepOf(p, hp', ts, st, n)
  {
    hide Pow2, Shl, Shr, Low, Rev, FirstCode, Offset;
    assert StepOf(p, hp, ts, st, n);
    var t, t', top := ts[st[n - 1]], ts[st[n]], ts[st[|st| - 1]];
    PathWidths(p, hp, ts, st, p.Val(k, r), n - 1, |st| - 1);
    var q := t.base + Shr(t'.x, t.w);
    assert hp'[q] == hp[q] by {
      ShrBound(t'.x, t.w, p.l);
      Pow2Mono(p.l, t.bits);
      Apart(p, ts, st[n - 1], st[|st| - 1], |hp|, q);
    }
  }

  /** Different tables do not overlap. */
  lemma Apart(p: Plan, ts: seq<Table>, a: nat, b: nat, hn: nat, q: nat)
    requires p.Valid() && TablesOk(p, ts, 0, hn) && a < |ts| && b < |ts| && a != b
    requires ts[a].base <= q < ts[a].base + Pow2(ts[a].bits)
    ensures !(ts[b].base <= q < ts[b].base + Pow2(ts[b].bits))
  {
    if a < b {
      assert ts[a].base + Pow2(ts[a].bits) <= ts[b].base;
    } else {
      assert ts[b].base + Pow2(ts[b].bits) <= ts[a].base;
    }
  }

  lemma PlaceInside(p: Plan, hp: seq<Huft>, hp': seq<Huft>, ts: seq<Table>, st: seq<nat>,
                    k: nat, r: nat, e: Huft, j: nat)
    requires Placing(p, hp, hp', ts, st, k, r, e)
    requires j < Pow2(UsedBits(p, ts[st[|st| - 1]]))
    requires Before(p, ts[st[|st| - 1]], j, p.Start(k, r) + Pow2(p.g - k))
    ensures ts[st[|st| - 1]].base + j < |hp'| && EntryOk(p, hp', ts, st[|st| - 1], j)
  {
    hide Pow2, Shl, Shr, Low, Rev, FirstCode, Offset;
    var t, i := ts[st[|st| - 1]], p.Val(k, r);
    PrefixFacts(p, t, j, 0, |hp|);
    p.CodeFits(k, r);
    Cover(k, p.g, i, Prefix(t, j));
    WrittenIsCovered(p, t, 0, |hp|, k, i, j);
    if Written(t, k, i, j) {
      assert hp'[t.base + j] == e;
      assert LeafFor(p, e, t, j, k, r);
    } else {
      assert hp'[t.base + j] == hp[t.base + j];
      assert Before(p, t, j, p.Start(k, r));
    }
  }

  lemma PlaceOutside(p: Plan, hp: seq<Huft>, hp': seq<Huft>, ts: seq<Table>, st: seq<nat>,
                     k: nat, r: nat, e: Huft, a: nat, j: nat)
    requires Placing(p, hp, hp', ts, st, k, r, e)
    requires a < |ts| && a != st[|st| - 1] && j < Pow2(UsedBits(p, ts[a]))
    requires Before(p, ts[a], j, p.Start(k, r) + Pow2(p.g - k))
    ensures ts[a].base + j < |hp'| && EntryOk(p, hp', ts, a, j)
  {
    hide Pow2, Shl, Shr, Low, Rev, FirstCode, Offset;
    var t, i, top := ts[a], p.Val(k, r), st[|st| - 1];
    assert TableOk(p, t, 0, |hp|);
    PrefixFacts(p, t, j, 0, |hp|);
    Apart(p, ts, a, top, |hp|, t.base + j);
    assert hp'[t.base + j] == hp[t.base + j];
    if !Before(p, t, j, p.Start(k, r)) {
      p.CodeFits(k, r);
      Cover(k, p.g, i, Prefix(t, j));
      assert !EndsBy(p, t, p.Start(k, r));
      var n :| 0 <= n < |st| && st[n] == a;
      OuterIsLink(p, hp, ts, st, i, k, n, j);
    }
  }

  lemma OuterIsLink(p: Plan, hp: seq<Huft>, ts: seq<Table>, st: seq<nat>, i: nat, k: nat, n: nat, j: nat)
    requires p.Valid() && TablesOk(p, ts, 0, |hp|) && StackOk(p, hp, ts, st, i)
    requires n + 1 < |st| && OnPath(ts, st, n, i) && OnPath(ts, st, |st| - 1, i) && ts[st[|st| - 1]].w <= k
    requires j < Pow2(UsedBits(p, ts[st[n]])) && Low(Prefix(ts[st[n]], j), k) == i
    requires ts[st[n]].base + j < |hp|
    ensures LeadsOn(p, hp[ts[st[n]].base + j], ts, ts[st[n]], j)
  {
    hide Pow2, Shl, Shr, Low, Rev, FirstCode, Offset;
    PathWidths(p, hp, ts, st, i, n, n + 1);
    if n + 1 < |st| - 1 { PathWidths(p, hp, ts, st, i, n + 1, |st| - 1); }
    OuterEntry(p, hp, ts, st, i, k, n, j);
    assert StepOf(p, hp, ts, st, n + 1);
  }

  /** Placing a code moves the frontier past it and keeps every entry before it. */
  lemma PlaceCode(p: Plan, hp: seq<Huft>, hp': seq<Huft>, ts: seq<Table>, st: seq<nat>,
                  k: nat, r: nat, e: Huft)
    requires Placing(p, hp, hp', ts, st, k, r, e)
    ensures Inv(p, hp', ts, st, p.Val(k, r), p.Start(k, r) + Pow2(p.g - k))
  {
    var pos' := p.Start(k, r) + Pow2(p.g - k);
    forall a, j: nat | 0 <= a < |ts| && j < Pow2(UsedBits(p, ts[a])) && Before(p, ts[a], j, pos')
      ensures ts[a].base + j < |hp'| && EntryOk(p, hp', ts, a, j)
    {
      if a == st[|st| - 1] {
        PlaceInside(p, hp, hp', ts, st, k, r, e, j);
      } else {
        PlaceOutside(p, hp, hp', ts, st, k, r, e, a, j);
      }
    }
    forall n | 0 < n < |st|
      ensures StepOf(p, hp', ts, st, n)
    {
      KeepStep(p, hp, hp', ts, st, k, r, e, n);
    }
  }

  // ----- moving on to the next code

  /** A table the next code is not in is complete. */
  lemma Leave(p: Plan, hp: seq<Huft>, ts: seq<Table>, st: seq<nat>, k: nat, r: nat, next: nat)
    requires p.Valid() && p.IsCode(k, r)
    requires Inv(p, hp, ts, st, p.Val(k, r), p.Start(k, r) + Pow2(p.g - k))
    requires |st| > 0 && OnPath(ts, st, |st| - 1, p.Val(k, r))
    requires Low(next, ts[st[|st| - 1]].w) != ts[st[|st| - 1]].x
    requires
      var pos' := p.Start(k, r) + Pow2(p.g - k);
      pos' == Pow2(p.g) || Rev(p.g, next) == pos'
    ensures Inv(p, hp, ts, st[..|st| - 1], p.Val(k, r), p.Start(k, r) + Pow2(p.g - k))
  {
    hide Pow2, Shl, Shr, Low, Rev, FirstCode, Offset;
    var t, i, st', pos' := ts[st[|st| - 1]], p.Val(k, r), st[..|st| - 1], p.Start(k, r) + Pow2(p.g - k);
    p.CodeFits(k, r);
    Cover(t.w, p.g, t.x, i);
    Cover(t.w, p.g, t.x, next);
    assert EndsBy(p, t, pos');
    assert Closed(p, ts, st', pos') by {
      forall a | 0 <= a < |ts| && a !in st'
        ensures EndsBy(p, ts[a], pos')
      {
        assert a in st ==> a == st[|st| - 1];
      }
    }
    assert StackOk(p, hp, ts, st', i) by {
      forall n | 0 <= n < |st'| ensures OnPath(ts, st', n, i) { assert OnPath(ts, st, n, i); }
      forall n | 0 < n < |st'| ensures StepOf(p, hp, ts, st', n) { assert StepOf(p, hp, ts, st, n); }
    }
  }

  /** A path that the next code shares leads to it. */
  lemma Stay(p: Plan, hp: seq<Huft>, ts: seq<Table>, st: seq<nat>, i: nat, pos: nat, next: nat)
    requires Inv(p, hp, ts, st, i, pos)
    requires |st| > 0 && OnPath(ts, st, |st| - 1, i)
    requires Low(next, ts[st[|st| - 1]].w) == ts[st[|st| - 1]].x
    ensures Inv(p, hp, ts, st, next, pos)
  {
    hide Pow2, Shl, Shr, Low, Rev, FirstCode, Offset;
    var w := ts[st[|st| - 1]].w;
    forall n | 0 <= n < |st|
      ensures OnPath(ts, st, n, next)
    {
      assert OnPath(ts, st, n, i);
      if n < |st| - 1 {
        PathWidths(p, hp, ts, st, i, n, |st| - 1);
        LowLow(next, ts[st[n]].w, w);
        LowLow(i, ts[st[n]].w, w);
      }
    }
  }

  // ----- a new table

  /** A code too long for the last table of the path is the first one with its leading bits. */
  lemma FirstInPrefix(p: Plan, hp: seq<Huft>, ts: seq<Table>, st: seq<nat>, k: nat, r: nat)
    requires p.Valid() && p.IsCode(k, r)
    requires Inv(p, hp, ts, st, p.Val(k, r), p.Start(k, r))
    requires |st| > 0 && OnPath(ts, st, |st| - 1, p.Val(k, r))
    requires ts[st[|st| - 1]].w + p.l < k
    ensures ts[st[|st| - 1]].bits >= p.l
    ensures p.Val(k, r) < Pow2(ts[st[|st| - 1]].w + p.l)
    ensures Shr(p.Val(k, r), ts[st[|st| - 1]].w) < Pow2(p.l)
  {
    hide Pow2, Shl, Shr, Low, Rev, FirstCode, Offset;
    var t, i := ts[st[|st| - 1]], p.Val(k, r);
    var x := Low(i, t.w + p.l);
    FitsTable(p, t, 0, |hp|, k, r);
    p.CodeFits(k, r);
    LowSplit(i, t.w, p.l);
    var j := Low(Shr(i, t.w), p.l);
    assert Prefix(t, j) == x;
    Pow2Mono(p.l, t.bits);
    NotBefore(p, hp, ts, st, k, r, j);
    assert !Before(p, t, j, p.Start(k, r));
    Cover(t.w + p.l, p.g, x, i);
    assert Rev(p.g, i) == Rev(p.g, x);
    Cover(k, p.g, i, x);
    LowSmallUp(x, t.w + p.l, k);
    ShrBound(i, t.w, p.l);
  }

  lemma LowSmallUp(x: nat, a: nat, b: nat)
    requires x < Pow2(a) && a <= b
    ensures Low(x, b) == x
  {
    Pow2Mono(a, b);
    LowSmall(x, b);
  }

  /** No code is the beginning of another. */
  lemma NoLeafBefore(p: Plan, e: Huft, t: Table, k: nat, r: nat, j: nat)
    requires p.Valid() && p.IsCode(k, r) && t.w + p.l < k && Prefix(t, j) == Low(p.Val(k, r), t.w + p.l)
    ensures !IsLeaf(p, e, t, j)
  {
    hide Pow2, Shl, Shr, Low, Rev, FirstCode, Offset, Prefix;
    if IsLeaf(p, e, t, j) {
      var i := p.Val(k, r);
      p.CodeFits(k, r);
      var k', r' :| LeafFor(p, e, t, j, k', r');
      LowLow(i, k', t.w + p.l);
      p.CodeFits(k', r');
      Cover(k', p.g, p.Val(k', r'), i);
      p.Ahead(k', r', k, r);
    }
  }

  /** No entry for the leading bits of the code is in place yet. */
  lemma NotBefore(p: Plan, hp: seq<Huft>, ts: seq<Table>, st: seq<nat>, k: nat, r: nat, j: nat)
    requires p.Valid() && p.IsCode(k, r)
    requires Inv(p, hp, ts, st, p.Val(k, r), p.Start(k, r))
    requires |st| > 0 && OnPath(ts, st, |st| - 1, p.Val(k, r))
    requires var t := ts[st[|st| - 1]];
      && t.w + p.l < k && t.bits >= p.l && j < Pow2(p.l)
      && Prefix(t, j) == Low(p.Val(k, r), t.w + p.l)
      && t.base + j < |hp|
    ensures !EntryOk(p, hp, ts, st[|st| - 1], j)
  {
    hide Pow2, Shl, Shr, Low, Rev, FirstCode, Offset, Filled, Short, IsLeaf, Prefix;
    var a, i := st[|st| - 1], p.Val(k, r);
    var t := ts[a];
    var e := hp[t.base + j];
    p.CodeFits(k, r);
    if IsLeaf(p, e, t, j) {
      NoLeafBefore(p, e, t, k, r, j);
    } else if LeadsOn(p, e, ts, t, j) {
      var b :| 0 <= b < |ts| && LinkTo(p, e, t, j, ts[b]);
      Cover(ts[b].w, p.g, ts[b].x, i);
      assert !EndsBy(p, ts[b], p.Start(k, r));
      var n :| 0 <= n < |st| && st[n] == b;
      if n < |st| - 1 { PathWidths(p, hp, ts, st, i, n, |st| - 1); }
    }
  }

  /** Linking a fresh table in keeps the invariant and puts it at the end of the path. */
  lemma Grow(p: Plan, hp: seq<Huft>, hp': seq<Huft>, ts: seq<Table>, st: seq<nat>, hn: nat,
             k: nat, r: nat, t': Table)
    requires p.Valid() && p.IsCode(k, r)
    requires Inv(p, hp, ts, st, p.Val(k, r), p.Start(k, r))
    requires TablesOk(p, ts, 0, hn)
    requires |st| > 0 && OnPath(ts, st, |st| - 1, p.Val(k, r))
    requires TableOk(p, t', hn, |hp|) && t'.base == hn
    requires t'.x == p.Val(k, r) && t'.bits <= BMAX
    requires var t := ts[st[|st| - 1]];
      var j := Shr(t'.x, t.w);
      && t'.w == t.w + p.l < k
      && t.base + j < hn
      && hp' == hp[t.base + j := Huft(t'.bits, p.l, hn - t.base - j)]
    ensures Inv(p, hp', ts + [t'], st + [|ts|], p.Val(k, r), p.Start(k, r))
  {
    hide Pow2, Shl, Shr, Low, Rev, FirstCode, Offset;
    var i, pos, a := p.Val(k, r), p.Start(k, r), st[|st| - 1];
    var t := ts[a];
    var ts', st', j := ts + [t'], st + [|ts|], Shr(i, t.w);
    FirstInPrefix(p, hp, ts, st, k, r);
    Split(i, t.w);
    assert Prefix(t, j) == i;
    assert TablesOk(p, ts', 0, |hp'|) by {
      forall b | 0 <= b < |ts'| ensures TableOk(p, ts'[b], 0, |hp'|) {
        if b < |ts| { assert TableOk(p, ts[b], 0, hn); }
      }
    }
    p.CodeFits(k, r);
    GrowFilled(p, hp, hp', ts, t', hn, a, j, pos);
    assert Closed(p, ts', st', pos) by {
      forall b | 0 <= b < |ts'| && b !in st' ensures EndsBy(p, ts'[b], pos) {
        assert b != |ts| by { assert st'[|st|] == |ts|; }
        assert b !in st;
      }
    }
    GrowStack(p, hp, hp', ts, t', st, hn, j, i);
  }

  lemma GrowFilled(p: Plan, hp: seq<Huft>, hp': seq<Huft>, ts: seq<Table>, t': Table, hn: nat,
                   a: nat, j: nat, pos: nat)
    requires p.Valid() && TablesOk(p, ts, 0, hn) && hn <= |hp| && Filled(p, hp, ts, pos)
    requires TablesOk(p, ts + [t'], 0, |hp|) && |hp'| == |hp|
    requires a < |ts| && j < Pow2(UsedBits(p, ts[a])) && ts[a].base + j < |hp|
    requires Prefix(ts[a], j) == t'.x && Rev(p.g, t'.x) == pos
    requires forall q :: 0 <= q < |hp| && q != ts[a].base + j ==> hp'[q] == hp[q]
    ensures Filled(p, hp', ts + [t'], pos)
  {
    hide Pow2, Shl, Shr, Low, Rev, FirstCode, Offset;
    var ts' := ts + [t'];
    forall b, n: nat | 0 <= b < |ts'| && n < Pow2(UsedBits(p, ts'[b])) && Before(p, ts'[b], n, pos)
      ensures ts'[b].base + n < |hp'| && EntryOk(p, hp', ts', b, n)
    {
      PrefixFacts(p, ts'[b], n, 0, |hp|);
      assert b < |ts|;
      assert EntryOk(p, hp, ts, b, n);
      if b == a {
        assert n != j;
      } else {
        PrefixFacts(p, ts[a], j, 0, hn);
        Apart(p, ts, b, a, hn, ts[b].base + n);
      }
      var e := hp[ts[b].base + n];
      assert hp'[ts[b].base + n] == e;
      if LeadsOn(p, e, ts, ts[b], n) {
        var m :| 0 <= m < |ts| && LinkTo(p, e, ts[b], n, ts[m]);
        assert ts'[m] == ts[m];
      }
    }
  }

  lemma GrowStack(p: Plan, hp: seq<Huft>, hp': seq<Huft>, ts: seq<Table>, t': Table, st: seq<nat>,
                  hn: nat, j: nat, i: nat)
    requires p.Valid() && TablesOk(p, ts, 0, hn) && hn <= |hp| && StackOk(p, hp, ts, st, i)
    requires TablesOk(p, ts + [t'], 0, |hp|)
    requires |st| > 0 && OnPath(ts, st, |st| - 1, i)
    requires var t := ts[st[|st| - 1]];
      && t.bits >= p.l && j == Shr(i, t.w) < Pow2(p.l)
      && t'.base == hn && t'.w == t.w + p.l && t'.x == i == Prefix(t, j) && i < Pow2(t'.w)
      && t'.bits <= BMAX
      && t.base + j < hn
      && hp' == hp[t.base + j := Huft(t'.bits, p.l, hn - t.base - j)]
    ensures StackOk(p, hp', ts + [t'], st + [|ts|], i)
  {
    hide Pow2, Shl, Shr, Low, Rev, FirstCode, Offset;
    var t, ts', st' := ts[st[|st| - 1]], ts + [t'], st + [|ts|];
    LowSmall(i, t'.w);
    forall n | 0 <= n < |st'| ensures OnPath(ts', st', n, i) {
      if n < |st| { assert OnPath(ts, st, n, i); }
    }
    forall n | 0 < n < |st'| ensures StepOf(p, hp', ts', st', n) {
      if n < |st| {
        assert StepOf(p, hp, ts, st, n);
        GrowStep(p, hp, ts, st, hn, j, i, n);
      } else {
        assert TableOk(p, ts'[|ts|], 0, |hp|);
        assert Linked(p, hp', t, t');
      }
    }
  }

  /** The links along the path are not where the new link goes. */
  lemma GrowStep(p: Plan, hp: seq<Huft>, ts: seq<Table>, st: seq<nat>, hn: nat, j: nat, i: nat, n: nat)
    requires p.Valid() && TablesOk(p, ts, 0, hn) && hn <= |hp| && StackOk(p, hp, ts, st, i)
    requires 0 < n < |st| && OnPath(ts, st, |st| - 1, i)
    requires ts[st[|st| - 1]].bits >= p.l && j < Pow2(p.l) && StepOf(p, hp, ts, st, n)
    ensures ts[st[n - 1]].base + Shr(ts[st[n]].x, ts[st[n - 1]].w) != ts[st[|st| - 1]].base + j
  {
    hide Pow2, Shl, Shr, Low, Rev, FirstCode, Offset;
    var t, t', top := ts[st[n - 1]], ts[st[n]], ts[st[|st| - 1]];
    PathWidths(p, hp, ts, st, i, n - 1, |st| - 1);
    ShrBound(t'.x, t.w, p.l);
    Pow2Mono(p.l, t.bits);
    Pow2Mono(p.l, top.bits);
    Apart(p, ts, st[n - 1], st[|st| - 1], hn, t.base + Shr(t'.x, t.w));
  }

  // ----- decoding with finished tables

  /** The entry that a stream leads to in a table is in place. */
  lemma EntryFound(p: Plan, hp: seq<Huft>, ts: seq<Table>, a: nat, v: nat)
    requires p.Valid() && TablesOk(p, ts, 0, |hp|) && Filled(p, hp, ts, Pow2(p.g))
    requires a < |ts| && ts[a].bits <= p.l && Low(v, ts[a].w) == ts[a].x
    ensures TableOk(p, ts[a], 0, |hp|)
    ensures var j := Low(Shr(v, ts[a].w), ts[a].bits);
      && Prefix(ts[a], j) == Low(v, ts[a].w + ts[a].bits)
      && ts[a].base + j < |hp| && EntryOk(p, hp, ts, a, j)
  {
    hide Pow2, Shl, Shr, Low, Rev, FirstCode, Offset, EntryOk, Short;
    var t := ts[a];
    assert TableOk(p, t, 0, |hp|);
    var j := Low(Shr(v, t.w), t.bits);
    LowSplit(v, t.w, t.bits);
    assert Prefix(t, j) == Low(v, t.w + t.bits);
    assert Before(p, t, j, Pow2(p.g));
  }

  /** From any table, the lookup ends at the entry of the code that the stream begins with. */
  lemma {:induction false} Walk(p: Plan, hp: seq<Huft>, ts: seq<Table>, a: nat, v: nat)
    returns (k: nat, r: nat, e: Huft)
    requires p.Valid() && p.ValidSymbols() && TablesOk(p, ts, 0, |hp|) && Filled(p, hp, ts, Pow2(p.g))
    requires forall b :: 0 <= b < |ts| ==> ts[b].bits <= p.l
    requires a < |ts| && Low(v, ts[a].w) == ts[a].x
    ensures p.IsCode(k, r) && Low(v, k) == p.Val(k, r) && ts[a].w < k
    ensures LookUp(hp, ts[a].base, ts[a].bits, Shr(v, ts[a].w)) == Found(e, k - ts[a].w)
    ensures Shallow(hp, ts[a].base, ts[a].bits, Shr(v, ts[a].w), p.g - ts[a].w)
    ensures p.Payload(e, Offset(p.c, k) + r)
    decreases p.g - ts[a].w
  {
    hide Pow2, Shl, Shr, Low, Rev, FirstCode, Offset;
    hide LookUp, Shallow, IsLink, Filled, TablesOk, Prefix;
    var t := ts[a];
    var j := Low(Shr(v, t.w), t.bits);
    EntryFound(p, hp, ts, a, v);
    var e0 := hp[t.base + j];
    if IsLeaf(p, e0, t, j) {
      k, r :| LeafFor(p, e0, t, j, k, r);
      e := e0;
      p.PayloadIsNoLink(e, Offset(p.c, k) + r);
      LowLow(v, k, t.w + t.bits);
      LeafHere(hp, t.base, t.bits, Shr(v, t.w), p.g - t.w);
    } else {
      var b :| 0 <= b < |ts| && LinkTo(p, e0, t, j, ts[b]);
      SmallIsLink(e0.exop);
      ShrShr(v, t.w, p.l);
      k, r, e := Walk(p, hp, ts, b, v);
      LinkHere(hp, t.base, t.bits, Shr(v, t.w), p.g - t.w);
    }
  }

  /** A lookup that ends here. */
  lemma LeafHere(hp: seq<Huft>, tree: nat, need: nat, v: nat, budget: int)
    requires tree + Low(v, need) < |hp| && need <= budget
    requires var e := hp[tree + Low(v, need)]; 1 <= e.bits <= need && !IsLink(e.exop)
    ensures LookUp(hp, tree, need, v) == Found(hp[tree + Low(v, need)], hp[tree + Low(v, need)].bits)
    ensures Shallow(hp, tree, need, v, budget)
  {
  }

  /** A lookup that goes on in another table. */
  lemma LinkHere(hp: seq<Huft>, tree: nat, need: nat, v: nat, budget: int)
    requires tree + Low(v, need) < |hp| && need <= budget
    requires var a := tree + Low(v, need);
      var e := hp[a];
      && 1 <= e.bits <= need && IsLink(e.exop) && e.exop <= BMAX && e.base > 0
      && LookUp(hp, a + e.base, e.exop, Shr(v, e.bits)).Found?
      && Shallow(hp, a + e.base, e.exop, Shr(v, e.bits), budget - e.bits)
    ensures var a := tree + Low(v, need);
      var f := LookUp(hp, a + hp[a].base, hp[a].exop, Shr(v, hp[a].bits));
      LookUp(hp, tree, need, v) == Found(f.entry, hp[a].bits + f.used)
    ensures Shallow(hp, tree, need, v, budget)
  {
  }

  lemma SmallIsLink(exop: nat)
    requires 1 <= exop <= BMAX
    ensures IsLink(exop)
  {
  }
}
