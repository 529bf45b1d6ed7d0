/**
 huft_build as a whole: what it returns for which code lengths, and what the tables it builds
 decode.
 */
module HuftBuild {
  import opened Bits
  import opened Canonical
  import opened HuffmanTables
  import opened CodeLengths
  import opened TableSpace
  import opened TableFill

  datatype Result = Ok | DataError | BufError | MemError

  /** No symbol has a code. */
  ghost predicate AllZero(lens: seq<nat>) {
    forall i :: 0 <= i < |lens| ==> lens[i] == 0
  }

  function MaxLen(lens: seq<nat>): (g: nat)
    ensures Longest(lens, g)
    ensures g > 0 ==> g in lens
  {
    if |lens| == 0 then 0
    else
      var n := MaxLen(lens[..|lens| - 1]);
      var last := lens[|lens| - 1];
      if last > n then last else n
  }

  /** The shortest length in use, 0 if there is none. */
  function MinLen(lens: seq<nat>): (min: nat)
    ensures min == 0 <==> AllZero(lens)
    ensures min > 0 ==> Shortest(lens, min)
  {
    if |lens| == 0 then 0
    else
      var n := MinLen(lens[..|lens| - 1]);
      var last := lens[|lens| - 1];
      assert lens == lens[..|lens| - 1] + [last];
      if last > 0 && (n == 0 || last < n) then last else n
  }

  /** The counts of the code lengths with the unused rest of the code space given to the longest codes. */
  ghost function FullCounts(lens: seq<nat>): (c: seq<nat>)
    requires Lengths(lens) && MaxLen(lens) <= BMAX
    ensures |c| == BMAX + 1
  {
    var c, g := Counts(lens), MaxLen(lens);
    c[g := if FirstCode(c, g) <= Pow2(g) then Pow2(g) - FirstCode(c, g) else c[g]]
  }

  /**
   Some code, or unused part of the code space, begins a group that shares its first `w` bits, a
   whole number of table levels, and is longer than those and one more level together.
   */
  ghost predicate Gap(lens: seq<nat>, l: nat)
    requires Lengths(lens) && MaxLen(lens) <= BMAX && l > 0
  {
    exists k, r, w :: GapAt(FullCounts(lens), MaxLen(lens), l, k, r, w)
  }

  ghost predicate GapAt(c: seq<nat>, g: nat, l: nat, k: nat, r: nat, w: nat)
    requires |c| == BMAX + 1 && g <= BMAX && l > 0
  {
    && 1 <= k <= g && r < c[k]
    && Multiple(l, w) && w + l < k
    && Rev(k, FirstCode(c, k) + r) < Pow2(w)
  }

  /** The stream `v` begins with the code of `sym`, first bit of the code first. */
  ghost predicate BeginsWith(lens: seq<nat>, sym: nat, v: nat)
    requires Lengths(lens) && sym < |lens|
  {
    lens[sym] > 0 && Low(v, lens[sym]) == Rev(lens[sym], Code(lens, sym))
  }

  /** The entry that stands for a symbol. */
  ghost predicate EntryFor(e: Huft, sym: nat, s: nat, d: seq<nat>, extra: seq<nat>)
    requires |d| == |extra| && sym < s + |d|
  {
    if sym < s then e.exop == (if sym < 256 then 0 else 96) && e.base == sym
    else e.exop == (extra[sym - s] + 80) % 256 && e.base == d[sym - s]
  }

  /**
   The tables decode the canonical code: a stream that begins with the code of a symbol gives its
   entry and uses exactly the bits of the code, any other stream gives the invalid entry, and no
   lookup looks at more than 15 bits.
   */
  ghost predicate Decodes(hp: seq<Huft>, t: nat, m: nat, lens: seq<nat>, s: nat, d: seq<nat>, extra: seq<nat>)
    requires Lengths(lens) && |d| == |extra| && |lens| <= s + |d|
  {
    && (forall v: nat, sym: nat :: sym < |lens| && BeginsWith(lens, sym, v) ==>
          DecodesTo(hp, t, m, v, lens[sym]) && EntryFor(LookUp(hp, t, m, v).entry, sym, s, d, extra))
    && (forall v: nat :: NoSymbol(lens, v) ==>
          LookUp(hp, t, m, v).Found? && LookUp(hp, t, m, v).used <= BMAX && LookUp(hp, t, m, v).entry.exop == 192)
    && (forall v: nat :: Shallow(hp, t, m, v, BMAX))
  }

  ghost predicate DecodesTo(hp: seq<Huft>, t: nat, m: nat, v: nat, bits: nat) {
    LookUp(hp, t, m, v).Found? && LookUp(hp, t, m, v).used == bits
  }

  ghost predicate NoSymbol(lens: seq<nat>, v: nat)
    requires Lengths(lens)
  {
    forall sym :: 0 <= sym < |lens| ==> !BeginsWith(lens, sym, v)
  }

  /** The lookup of the stream `v` reads the entry at `q`. */
  ghost predicate Reads(hp: seq<Huft>, tree: nat, need: nat, v: nat, q: nat)
    decreases |hp| - tree
  {
    var a := tree + Low(v, need);
    && a < |hp|
    && (a == q
        || (IsLink(hp[a].exop) && hp[a].base > 0
            && Reads(hp, a + hp[a].base, hp[a].exop, Shr(v, hp[a].bits), q)))
  }

  /** Some stream makes the lookup read an entry, from `lo` on, that still is what the space held before. */
  ghost predicate ReadsStale(hp0: seq<Huft>, hp: seq<Huft>, lo: nat, t: nat, m: nat) {
    exists v, q :: lo <= q < |hp| <= |hp0| && Reads(hp, t, m, v, q) && hp[q] == hp0[q]
  }

  /** The space from `lo` on is as the allocator clears it. */
  ghost predicate Empty(hp: seq<Huft>, lo: nat) {
    forall q :: lo <= q < |hp| ==> hp[q].bits == 0
  }

  /** A lookup that reads an empty entry is lost. */
  lemma {:induction false} ReadsNothing(hp: seq<Huft>, tree: nat, need: nat, v: nat, q: nat)
    requires Reads(hp, tree, need, v, q) && q < |hp| && hp[q].bits == 0
    ensures LookUp(hp, tree, need, v) == Lost
    decreases |hp| - tree
  {
    hide Low, Shr, HasBit;
    var a := tree + Low(v, need);
    if a != q {
      ReadsNothing(hp, a + hp[a].base, hp[a].exop, Shr(v, hp[a].bits), q);
    }
  }

  /** Tables that read stale entries of an empty space do not decode. */
  lemma StaleIsLost(hp0: seq<Huft>, hp: seq<Huft>, lo: nat, t: nat, m: nat, lens: seq<nat>, s: nat, d: seq<nat>, extra: seq<nat>)
    requires Lengths(lens) && |d| == |extra| && |lens| <= s + |d|
    requires ReadsStale(hp0, hp, lo, t, m) && Empty(hp0, lo)
    ensures !Decodes(hp, t, m, lens, s, d, extra)
  {
    hide LookUp, Reads, BeginsWith, EntryFor, Shallow;
    var v, q :| lo <= q < |hp| <= |hp0| && Reads(hp, t, m, v, q) && hp[q] == hp0[q];
    ReadsNothing(hp, t, m, v, q);
    if NoSymbol(lens, v) {
      assert !LookUp(hp, t, m, v).Found?;
    } else {
      var sym: nat :| sym < |lens| && BeginsWith(lens, sym, v);
      assert !DecodesTo(hp, t, m, v, lens[sym]);
    }
  }

  /** The plan that the lengths give rise to. */
  ghost predicate PlanFor(p: Plan, lens: seq<nat>, s: nat, d: seq<nat>, extra: seq<nat>) {
    && Lengths(lens) && |d| == |extra| && |lens| <= s + |d|
    && p.Valid() && p.ValidSymbols()
    && p.g == MaxLen(lens) && p.c == FullCounts(lens) && p.c[p.g] >= Counts(lens)[p.g]
    && p.simple == s && p.bases == d && p.extra == extra
    && |p.vals| == Offset(Counts(lens), p.g) + Counts(lens)[p.g]
    && SortedUpTo(lens, p.vals, |lens|)
  }

  // ----- what finished tables decode

  /** The symbol of a code, if the code has one. */
  lemma SymbolOfCode(p: Plan, lens: seq<nat>, s: nat, d: seq<nat>, extra: seq<nat>, k: nat, r: nat)
    returns (sym: nat)
    requires PlanFor(p, lens, s, d, extra) && p.IsCode(k, r) && r < Counts(lens)[k]
    ensures sym < |lens| && lens[sym] == k && Code(lens, sym) == FirstCode(p.c, k) + r
    ensures Offset(p.c, k) + r < |p.vals| && p.vals[Offset(p.c, k) + r] == sym
  {
    hide FirstCode, Offset, Pow2, Longest;
    sym := SymbolOfRank(lens, k, r, |lens|);
    FirstCodeAgrees(p.c, Counts(lens), p.g, k);
    assert Slot(lens, sym) == Offset(p.c, k) + r;
  }

  /** A code that no symbol has comes after all symbols. */
  lemma NoSymbolOfCode(p: Plan, lens: seq<nat>, s: nat, d: seq<nat>, extra: seq<nat>, k: nat, r: nat)
    requires PlanFor(p, lens, s, d, extra) && p.IsCode(k, r) && r >= Counts(lens)[k]
    ensures Offset(p.c, k) + r >= |p.vals|
  {
    FirstCodeAgrees(p.c, Counts(lens), p.g, k);
  }

  /** A symbol's code is one of the codes of the plan. */
  lemma CodeOfSymbol(p: Plan, lens: seq<nat>, s: nat, d: seq<nat>, extra: seq<nat>, sym: nat) returns (r: nat)
    requires PlanFor(p, lens, s, d, extra) && sym < |lens| && lens[sym] > 0
    ensures p.IsCode(lens[sym], r) && Code(lens, sym) == FirstCode(p.c, lens[sym]) + r
    ensures r < Counts(lens)[lens[sym]] && Offset(p.c, lens[sym]) + r == Slot(lens, sym)
  {
    var k := lens[sym];
    r := CountUpTo(lens, k, sym);
    assert k <= p.g;
    CountMono(lens, k, sym + 1, |lens|);
    FirstCodeAgrees(p.c, Counts(lens), p.g, k);
  }

  /** The root table is indexed with exactly l bits unless it is oversized. */
  lemma RootBits(p: Plan, t: Table, lo: nat, hn: nat)
    requires p.Valid() && TableOk(p, t, lo, hn) && t.w == 0 && t.x == 0
    ensures t.bits >= p.l
  {
    hide Pow2, Shl, FirstCode;
    if t.bits < p.l && t.bits < p.g {
      assert RoomLeft(p.c, t.bits);
      RevZero(p.g);
      var n := FirstCode(p.c, t.bits) + p.c[t.bits];
      ShlMono(n, Pow2(t.bits), p.g - t.bits);
      ShlPow2(t.bits, p.g - t.bits);
    }
  }

  /** The lookup in finished tables for one stream. */
  lemma DecodeOne(p: Plan, lens: seq<nat>, s: nat, d: seq<nat>, extra: seq<nat>,
                  hp: seq<Huft>, ts: seq<Table>, v: nat)
    returns (k: nat, r: nat)
    requires PlanFor(p, lens, s, d, extra)
    requires TablesOk(p, ts, 0, |hp|) && Filled(p, hp, ts, Pow2(p.g))
    requires forall b :: 0 <= b < |ts| ==> ts[b].bits <= p.l
    requires |ts| > 0 && ts[0].w == 0 && ts[0].x == 0
    ensures p.IsCode(k, r) && Low(v, k) == p.Val(k, r)
    ensures DecodesTo(hp, ts[0].base, p.l, v, k) && Shallow(hp, ts[0].base, p.l, v, p.g)
    ensures p.Payload(LookUp(hp, ts[0].base, p.l, v).entry, Offset(p.c, k) + r)
  {
    hide FirstCode, Offset, Pow2, Filled, Rev, LookUp;
    assert Low(v, 0) == 0 && Shr(v, 0) == v;
    var e;
    k, r, e := Walk(p, hp, ts, 0, v);
    assert TableOk(p, ts[0], 0, |hp|);
    RootBits(p, ts[0], 0, |hp|);
  }

  lemma DecodeSymbol(p: Plan, lens: seq<nat>, s: nat, d: seq<nat>, extra: seq<nat>,
                     hp: seq<Huft>, ts: seq<Table>, v: nat, sym: nat)
    requires PlanFor(p, lens, s, d, extra)
    requires TablesOk(p, ts, 0, |hp|) && Filled(p, hp, ts, Pow2(p.g))
    requires forall b :: 0 <= b < |ts| ==> ts[b].bits <= p.l
    requires |ts| > 0 && ts[0].w == 0 && ts[0].x == 0
    requires sym < |lens| && BeginsWith(lens, sym, v)
    ensures DecodesTo(hp, ts[0].base, p.l, v, lens[sym])
    ensures EntryFor(LookUp(hp, ts[0].base, p.l, v).entry, sym, s, d, extra)
  {
    hide FirstCode, Offset, Pow2, Filled, Rev, LookUp, Low, TablesOk, BeginsWith;
    hide Lengths, SortedUpTo, MaxLen, FullCounts, Shallow;
    var k, r := DecodeOne(p, lens, s, d, extra, hp, ts, v);
    SameCode(p, lens, s, d, extra, v, sym, k, r);
  }

  /** The code found is the code of the symbol. */
  lemma SameCode(p: Plan, lens: seq<nat>, s: nat, d: seq<nat>, extra: seq<nat>, v: nat, sym: nat, k: nat, r: nat)
    requires PlanFor(p, lens, s, d, extra) && sym < |lens| && BeginsWith(lens, sym, v)
    requires p.IsCode(k, r) && Low(v, k) == p.Val(k, r)
    ensures k == lens[sym] && Offset(p.c, k) + r < |p.vals| && p.vals[Offset(p.c, k) + r] == sym
  {
    hide FirstCode, Offset, Pow2, Rev, Low, MaxLen;
    var r' := CodeOfSymbol(p, lens, s, d, extra, sym);
    OneCode(p, k, r, lens[sym], r', v);
  }

  /** A stream begins with only one code. */
  lemma OneCode(p: Plan, k: nat, r: nat, k': nat, r': nat, v: nat)
    requires p.Valid() && p.IsCode(k, r) && p.IsCode(k', r')
    requires Low(v, k) == p.Val(k, r) && Low(v, k') == p.Val(k', r')
    ensures k == k' && r == r'
  {
    hide FirstCode, Pow2, Rev, Low;
    p.CodeFits(k, r);
    p.CodeFits(k', r');
    Cover(k, p.g, p.Val(k, r), v);
    Cover(k', p.g, p.Val(k', r'), v);
    p.Disjoint(k, r, k', r', Rev(p.g, v));
  }

  lemma DecodeNothing(p: Plan, lens: seq<nat>, s: nat, d: seq<nat>, extra: seq<nat>,
                      hp: seq<Huft>, ts: seq<Table>, v: nat)
    requires PlanFor(p, lens, s, d, extra)
    requires TablesOk(p, ts, 0, |hp|) && Filled(p, hp, ts, Pow2(p.g))
    requires forall b :: 0 <= b < |ts| ==> ts[b].bits <= p.l
    requires |ts| > 0 && ts[0].w == 0 && ts[0].x == 0
    requires NoSymbol(lens, v)
    ensures LookUp(hp, ts[0].base, p.l, v).Found? && LookUp(hp, ts[0].base, p.l, v).used <= BMAX
    ensures LookUp(hp, ts[0].base, p.l, v).entry.exop == 192
  {
    hide FirstCode, Offset, Pow2, Filled, Rev, LookUp, Low;
    var k, r := DecodeOne(p, lens, s, d, extra, hp, ts, v);
    if r < Counts(lens)[k] {
      CodeHasSymbol(p, lens, s, d, extra, k, r, v);
    } else {
      NoSymbolOfCode(p, lens, s, d, extra, k, r);
    }
  }

  lemma CodeHasSymbol(p: Plan, lens: seq<nat>, s: nat, d: seq<nat>, extra: seq<nat>, k: nat, r: nat, v: nat)
    requires PlanFor(p, lens, s, d, extra) && p.IsCode(k, r) && r < Counts(lens)[k]
    requires Low(v, k) == p.Val(k, r)
    ensures !NoSymbol(lens, v)
  {
    hide FirstCode, Offset, Pow2, Rev, Low;
    var sym := SymbolOfCode(p, lens, s, d, extra, k, r);
    assert BeginsWith(lens, sym, v);
  }

  lemma {:induction false} ShallowMore(hp: seq<Huft>, tree: nat, need: nat, v: nat, n: int, m: int)
    requires Shallow(hp, tree, need, v, n) && n <= m
    ensures Shallow(hp, tree, need, v, m)
    decreases |hp| - tree
  {
    var a := tree + Low(v, need);
    if a < |hp| && IsLink(hp[a].exop) && hp[a].base > 0 {
      ShallowMore(hp, a + hp[a].base, hp[a].exop, Shr(v, hp[a].bits), n - hp[a].bits, m - hp[a].bits);
    }
  }

  lemma DecodeAll(p: Plan, lens: seq<nat>, s: nat, d: seq<nat>, extra: seq<nat>, hp: seq<Huft>, ts: seq<Table>)
    requires PlanFor(p, lens, s, d, extra)
    requires TablesOk(p, ts, 0, |hp|) && Filled(p, hp, ts, Pow2(p.g))
    requires forall b :: 0 <= b < |ts| ==> ts[b].bits <= p.l
    requires |ts| > 0 && ts[0].w == 0 && ts[0].x == 0
    ensures Decodes(hp, ts[0].base, p.l, lens, s, d, extra)
  {
    hide FirstCode, Offset, Pow2, Filled, Rev, LookUp, Low, EntryFor, NoSymbol, BeginsWith;
    forall v: nat, sym: nat | sym < |lens| && BeginsWith(lens, sym, v)
      ensures DecodesTo(hp, ts[0].base, p.l, v, lens[sym])
      ensures LookUp(hp, ts[0].base, p.l, v).Found?
      ensures EntryFor(LookUp(hp, ts[0].base, p.l, v).entry, sym, s, d, extra)
    {
      DecodeSymbol(p, lens, s, d, extra, hp, ts, v, sym);
    }
    forall v: nat
      ensures Shallow(hp, ts[0].base, p.l, v, BMAX)
    {
      var _, _ := DecodeOne(p, lens, s, d, extra, hp, ts, v);
      ShallowMore(hp, ts[0].base, p.l, v, p.g, BMAX);
    }
    forall v: nat | NoSymbol(lens, v)
      ensures LookUp(hp, ts[0].base, p.l, v).Found? && LookUp(hp, ts[0].base, p.l, v).used <= BMAX
      ensures LookUp(hp, ts[0].base, p.l, v).entry.exop == 192
    {
      DecodeNothing(p, lens, s, d, extra, hp, ts, v);
    }
  }

  // ----- oversized tables

  lemma {:induction false} MultipleStep(l: nat, a: nat, b: nat)
    requires l > 0 && Multiple(l, a) && Multiple(l, b) && a < b
    ensures a + l <= b
    decreases a
  {
    if a > 0 { MultipleStep(l, a - l, b - l); }
  }

  /** An oversized table comes from a gap. */
  lemma OversizedIsGap(p: Plan, t: Table)
    requires p.Valid() && HasOrigin(p, t) && t.bits > p.l && t.x < Pow2(t.w)
    ensures exists k, r, w :: GapAt(p.c, p.g, p.l, k, r, w)
  {
    var k, r :| Origin(p, t, k, r);
    assert GapAt(p.c, p.g, p.l, k, r, t.w);
  }

  /** On the way to a code that starts a gap, the lookup can be led to an entry nobody wrote. */
  lemma {:induction false} StaleWalk(p: Plan, hp0: seq<Huft>, hp: seq<Huft>, ts: seq<Table>, lo: nat, hn: nat,
                                     a: nat, k: nat, r: nat, w: nat)
    returns (v: nat, q: nat)
    requires p.Valid() && AllTables(p, hp0, hp, ts, lo, hn) && TablesOk(p, ts, 0, |hp|) && Filled(p, hp, ts, Pow2(p.g))
    requires GapAt(p.c, p.g, p.l, k, r, w)
    requires a < |ts| && ts[a].w <= w && ts[a].x == Low(p.Val(k, r), ts[a].w)
    ensures Low(v, ts[a].w) == ts[a].x
    ensures lo <= q < hn && hp[q] == hp0[q]
    ensures Reads(hp, ts[a].base, ts[a].bits, Shr(v, ts[a].w), q)
    decreases p.g - ts[a].w
  {
    hide FirstCode, Offset, Pow2, Filled, Rev, Low, Shr, Shl;
    var t := ts[a];
    assert TableOk(p, t, lo, hn) && HasOrigin(p, t) && Untouched(p, hp0, hp, t);
    if t.bits > p.l {
      q := t.base + Pow2(p.l);
      v := t.x + Shl(Pow2(p.l), t.w);
      Pow2Mono(p.l, t.bits);
      Join(t.x, Pow2(p.l), t.w);
      LowSmall(Pow2(p.l), t.bits);
    } else {
      var b := GapGoesOn(p, hp0, hp, ts, lo, hn, a, k, r, w);
      var j := Shr(ts[b].x, t.w);
      v, q := StaleWalk(p, hp0, hp, ts, lo, hn, b, k, r, w);
      LowSplit(v, t.w, p.l);
      ShrShr(v, t.w, p.l);
      SmallIsLink(hp[t.base + j].exop);
    }
  }

  /** A table of ordinary size on the way to a gap links on to the next table on the way. */
  lemma GapGoesOn(p: Plan, hp0: seq<Huft>, hp: seq<Huft>, ts: seq<Table>, lo: nat, hn: nat,
                  a: nat, k: nat, r: nat, w: nat)
    returns (b: nat)
    requires p.Valid() && AllTables(p, hp0, hp, ts, lo, hn) && TablesOk(p, ts, 0, |hp|) && Filled(p, hp, ts, Pow2(p.g))
    requires GapAt(p.c, p.g, p.l, k, r, w)
    requires a < |ts| && ts[a].w <= w && ts[a].x == Low(p.Val(k, r), ts[a].w) && ts[a].bits <= p.l
    ensures b < |ts| && ts[a].bits == p.l && ts[b].w == ts[a].w + p.l <= w
    ensures ts[b].x == Low(p.Val(k, r), ts[b].w)
    ensures Low(ts[b].x, ts[a].w) == ts[a].x && Shr(ts[b].x, ts[a].w) < Pow2(p.l)
    ensures Linked(p, hp, ts[a], ts[b])
  {
    hide FirstCode, Offset, Pow2, Rev, Low, Shr, Shl;
    var t, i := ts[a], p.Val(k, r);
    assert TableOk(p, t, lo, hn) && HasOrigin(p, t);
    NotAtGap(p, t, k, r, w);
    FitsTable(p, t, lo, hn, k, r);
    var j := Low(Shr(i, t.w), p.l);
    LowSplit(i, t.w, p.l);
    assert Before(p, t, j, Pow2(p.g));
    assert EntryOk(p, hp, ts, a, j);
    var e := hp[t.base + j];
    NoLeafAtGap(p, e, t, j, k, r, w);
    b :| 0 <= b < |ts| && LinkTo(p, e, t, j, ts[b]);
    PrefixFacts(p, t, j, lo, hn);
  }

  lemma NotAtGap(p: Plan, t: Table, k: nat, r: nat, w: nat)
    requires p.Valid() && HasOrigin(p, t) && t.bits <= p.l && t.w <= w
    requires GapAt(p.c, p.g, p.l, k, r, w) && t.x == Low(p.Val(k, r), t.w)
    ensures t.w + p.l <= w
  {
    hide FirstCode, Offset, Pow2, Rev, Low;
    var k0, r0 :| Origin(p, t, k0, r0);
    if t.w == w {
      LowSmall(p.Val(k, r), w);
      p.CodeFits(k, r);
      p.CodeFits(k0, r0);
      p.Disjoint(k, r, k0, r0, p.Start(k, r));
    } else {
      MultipleStep(p.l, t.w, w);
    }
  }

  lemma NoLeafAtGap(p: Plan, e: Huft, t: Table, j: nat, k: nat, r: nat, w: nat)
    requires p.Valid() && t.bits <= p.l && t.w + p.l <= w && GapAt(p.c, p.g, p.l, k, r, w)
    requires Prefix(t, j) == Low(p.Val(k, r), t.w + p.l)
    ensures !IsLeaf(p, e, t, j)
  {
    hide FirstCode, Offset, Pow2, Rev, Low;
    var i := p.Val(k, r);
    if IsLeaf(p, e, t, j) {
      var k', r' :| LeafFor(p, e, t, j, k', r');
      LowLow(i, k', t.w + p.l);
      p.CodeFits(k, r);
      p.CodeFits(k', r');
      Cover(k', p.g, p.Val(k', r'), i);
      p.Ahead(k', r', k, r);
    }
  }

  // ----- huft_build

  ghost predicate ExtraOk(extra: seq<nat>) {
    forall i :: 0 <= i < |extra| ==> extra[i] < 16 || extra[i] == 112
  }

  /** Tables are only looked at below the space used, so more space does not change what they decode. */
  lemma {:induction false} LookUpMore(hp: seq<Huft>, hp': seq<Huft>, tree: nat, need: nat, v: nat)
    requires hp <= hp' && LookUp(hp, tree, need, v).Found?
    ensures LookUp(hp', tree, need, v) == LookUp(hp, tree, need, v)
    decreases |hp| - tree
  {
    hide Low, Shr, IsLink;
    var a := tree + Low(v, need);
    var e := hp[a];
    if IsLink(e.exop) {
      LookUpMore(hp, hp', a + e.base, e.exop, Shr(v, e.bits));
    }
  }

  lemma DecodesMore(hp: seq<Huft>, hp': seq<Huft>, t: nat, m: nat, lens: seq<nat>, s: nat, d: seq<nat>, extra: seq<nat>)
    requires Lengths(lens) && |d| == |extra| && |lens| <= s + |d| && hp <= hp'
    requires Decodes(hp, t, m, lens, s, d, extra)
    ensures Decodes(hp', t, m, lens, s, d, extra)
  {
    hide LookUp, Low, EntryFor, Shallow, Code;
    forall v: nat
      ensures LookUp(hp, t, m, v).Found? && LookUp(hp', t, m, v) == LookUp(hp, t, m, v)
      ensures Shallow(hp', t, m, v, BMAX)
    {
      assert NoSymbol(lens, v) || exists sym :: 0 <= sym < |lens| && BeginsWith(lens, sym, v);
      LookUpMore(hp, hp', t, m, v);
      assert Shallow(hp, t, m, v, BMAX);
      ShallowSame(hp, hp', t, m, v, BMAX);
    }
  }

  lemma {:induction false} ShallowSame(hp: seq<Huft>, hp': seq<Huft>, tree: nat, need: nat, v: nat, n: int)
    requires hp <= hp' && Shallow(hp, tree, need, v, n) && LookUp(hp, tree, need, v).Found?
    ensures Shallow(hp', tree, need, v, n)
    decreases |hp| - tree
  {
    var a := tree + Low(v, need);
    var e := hp[a];
    if IsLink(e.exop) {
      ShallowSame(hp, hp', a + e.base, e.exop, Shr(v, e.bits), n - e.bits);
    }
  }

  /** The tables that PlaceCodes leaves behind decode, unless one of them is oversized. */
  lemma Outcome(p: Plan, lens: seq<nat>, s: nat, d: seq<nat>, extra: seq<nat>, hp0: seq<Huft>, hp: seq<Huft>,
                ts: seq<Table>, lo: nat, hn: nat)
    requires PlanFor(p, lens, s, d, extra)
    requires AllTables(p, hp0, hp, ts, lo, hn) && TablesOk(p, ts, 0, |hp|) && Filled(p, hp, ts, Pow2(p.g))
    requires |ts| > 0 && ts[0].w == 0 && ts[0].x == 0
    ensures !Gap(lens, p.l) ==> Decodes(hp[..hn], ts[0].base, p.l, lens, s, d, extra)
  {
    hide FirstCode, Offset, Pow2, Rev, LookUp, Low, Decodes, Short;
    if !Gap(lens, p.l) {
      forall b | 0 <= b < |ts|
        ensures ts[b].bits <= p.l
      {
        assert TableOk(p, ts[b], lo, hn);
        if ts[b].bits > p.l { OversizedIsGap(p, ts[b]); }
      }
      FilledBelow(p, hp, ts, lo, hn, Pow2(p.g));
      DecodeAll(p, lens, s, d, extra, hp[..hn], ts);
    }
  }

  lemma FilledBelow(p: Plan, hp: seq<Huft>, ts: seq<Table>, lo: nat, hn: nat, pos: nat)
    requires p.Valid() && TablesOk(p, ts, lo, hn) && hn <= |hp|
    requires TablesOk(p, ts, 0, |hp|) && Filled(p, hp, ts, pos)
    ensures TablesOk(p, ts, 0, |hp[..hn]|) && Filled(p, hp[..hn], ts, pos)
  {
    hide FirstCode, Offset, Pow2, Rev, Low, LeadsOn, IsLeaf, Short;
    var hp' := hp[..hn];
    forall a, j: nat | 0 <= a < |ts| && j < Pow2(UsedBits(p, ts[a])) && Before(p, ts[a], j, pos)
      ensures ts[a].base + j < |hp'| && EntryOk(p, hp', ts, a, j)
    {
      assert TableOk(p, ts[a], lo, hn);
      Pow2Mono(UsedBits(p, ts[a]), ts[a].bits);
      assert EntryOk(p, hp, ts, a, j);
      assert hp'[ts[a].base + j] == hp[ts[a].base + j];
    }
  }

  lemma StaleOutcome(p: Plan, lens: seq<nat>, s: nat, d: seq<nat>, extra: seq<nat>, hp0: seq<Huft>, hp: seq<Huft>,
                     ts: seq<Table>, lo: nat, hn: nat)
    requires PlanFor(p, lens, s, d, extra)
    requires AllTables(p, hp0, hp, ts, lo, hn) && TablesOk(p, ts, 0, |hp|) && Filled(p, hp, ts, Pow2(p.g))
    requires |ts| > 0 && ts[0].w == 0 && ts[0].x == 0 && ts[0].bits <= p.l
    requires Gap(lens, p.l)
    ensures ReadsStale(hp0, hp, lo, ts[0].base, p.l)
  {
    hide FirstCode, Offset, Pow2, Rev, Short, Filled, Low, Shr, Reads, Untouched, HasOrigin, MaxLen,
         SortedUpTo, Lengths;
    var k: nat, r: nat, w: nat :| GapAt(FullCounts(lens), MaxLen(lens), p.l, k, r, w);
    WholeStream(p.Val(k, r));
    var v, q := StaleWalk(p, hp0, hp, ts, lo, hn, 0, k, r, w);
    WholeStream(v);
    RootWidth(p, ts[0], lo, hn, ts);
  }

  lemma WholeStream(v: nat)
    ensures Low(v, 0) == 0 && Shr(v, 0) == v
  {
  }

  lemma RootWidth(p: Plan, t: Table, lo: nat, hn: nat, ts: seq<Table>)
    requires p.Valid() && TablesOk(p, ts, lo, hn) && |ts| > 0 && ts[0] == t && t.w == 0 && t.x == 0 && t.bits <= p.l
    ensures t.bits == p.l
  {
    hide FirstCode, Pow2, Rev, Short;
    assert TableOk(p, t, lo, hn);
    RootBits(p, t, lo, hn);
  }

  /** The root table is made for the first code of all, which is no longer than l. */
  lemma RootNotOversized(p: Plan, t: Table, min: nat)
    requires p.Valid() && HasOrigin(p, t) && t.x == 0 && t.w == 0
    requires 1 <= min <= p.l && p.c[min] > 0 && FirstCode(p.c, min) == 0
    ensures t.bits <= p.l
  {
    var k, r :| Origin(p, t, k, r);
    assert p.IsCode(min, 0) by { if min > p.g { assert false; } }
    RevZero(min);
    hide FirstCode, Pow2, Rev;
    p.CodeFits(min, 0);
    p.CodeFits(k, r);
    p.Disjoint(k, r, min, 0, p.Start(k, r));
  }

  lemma {:induction false} CountAll(b: seq<nat>, m: nat)
    requires m <= |b|
    ensures CountUpTo(b, 0, m) == m <==> forall i :: 0 <= i < m ==> b[i] == 0
    decreases m
  {
    if m > 0 { CountAll(b, m - 1); }
  }

  /** A length is in use exactly when its count is not zero. */
  lemma InUse(b: seq<nat>, i: nat)
    requires i < |b| && Lengths(b)
    ensures Counts(b)[b[i]] > 0
  {
    CountMono(b, b[i], i + 1, |b|);
  }

  lemma LongestIsMax(b: seq<nat>, g: nat)
    requires Lengths(b) && 1 <= g <= BMAX && Counts(b)[g] > 0
    requires forall k :: g < k <= BMAX ==> Counts(b)[k] == 0
    ensures g == MaxLen(b)
  {
    var sym := SymbolOfRank(b, g, 0, |b|);
    assert b[sym] <= MaxLen(b);
    assert MaxLen(b) in b;
    var i :| 0 <= i < |b| && b[i] == MaxLen(b);
    InUse(b, i);
  }

  /** The code space runs out at some length exactly when the Kraft sum exceeds one. */
  lemma KraftDecides(b: seq<nat>, g: nat, over: bool, y: nat)
    requires Lengths(b) && 1 <= g <= BMAX
    requires forall k :: g < k <= BMAX ==> Counts(b)[k] == 0
    requires over <==> exists k :: 1 <= k <= g && OverFull(Counts(b), k)
    requires !over ==> FirstCode(Counts(b), g) + Counts(b)[g] + y == Pow2(g)
    ensures over <==> Kraft(b, |b|) > Pow2(BMAX)
    ensures !over ==> (y == 0 <==> Kraft(b, |b|) == Pow2(BMAX))
  {
    hide Pow2, Shl, FirstCode, KraftByLength, Kraft;
    var c := Counts(b);
    KraftBySymbol(b, |b|);
    assert CountsUpTo(b, |b|) == c;
    KraftByLengthMono(c, g, BMAX);
    if over {
      var k :| 1 <= k <= g && OverFull(c, k);
      KraftAt(c, k);
      KraftByLengthMono(c, k, BMAX);
    } else {
      KraftAt(c, g);
    }
  }

  lemma KraftAt(c: seq<nat>, k: nat)
    requires |c| == BMAX + 1 && 1 <= k <= BMAX
    ensures FirstCode(c, k) + c[k] > Pow2(k) ==> KraftByLength(c, k) > Pow2(BMAX)
    ensures FirstCode(c, k) + c[k] == Pow2(k) ==> KraftByLength(c, k) == Pow2(BMAX)
    ensures FirstCode(c, k) + c[k] < Pow2(k) ==> KraftByLength(c, k) < Pow2(BMAX)
  {
    hide Pow2, Shl, FirstCode, KraftByLength;
    var n := FirstCode(c, k) + c[k];
    FirstCodeKraft(c, k);
    ShlPow2(k, BMAX - k);
    if n > Pow2(k) {
      ShlMono(Pow2(k), n, BMAX - k);
    } else if n < Pow2(k) {
      ShlMono(n, Pow2(k), BMAX - k);
    }
  }

  /** The table width: the caller's wish, but between the shortest and the longest code. */
  function Width(wish: nat, min: nat, max: nat): nat {
    var l := if wish < min then min else wish;
    if l > max then max else l
  }

  /** How many bits huft_build indexes its tables with. */
  function IndexBits(lens: seq<nat>, wish: nat): nat {
    Width(wish, MinLen(lens), MaxLen(lens))
  }

  /** The table entries that a code needs: those of all tables that its codes open. */
  ghost function Space(lens: seq<nat>, wish: nat): nat
    requires Lengths(lens) && MaxLen(lens) <= BMAX && IndexBits(lens, wish) > 0
  {
    OpenedUpTo(FullCounts(lens), MaxLen(lens), IndexBits(lens, wish), MaxLen(lens))
  }

  /** A code that is not over-subscribed and needs more space than there is. */
  ghost predicate TooLarge(lens: seq<nat>, wish: nat, hn: nat)
    requires Lengths(lens)
  {
    && MaxLen(lens) <= BMAX && IndexBits(lens, wish) > 0
    && Kraft(lens, |lens|) <= Pow2(BMAX)
    && hn + Space(lens, wish) > MANY
  }

  ghost predicate Shortest(lens: seq<nat>, min: nat) {
    min > 0 && min in lens && forall i :: 0 <= i < |lens| && lens[i] > 0 ==> min <= lens[i]
  }

  lemma MakePlan(b: seq<nat>, s: nat, d: seq<nat>, e: seq<nat>, p: Plan, y: nat, min: nat)
    requires Lengths(b) && |d| == |e| && |b| <= s + |d| && ExtraOk(e) && MaxLen(b) <= BMAX
    requires p.g == MaxLen(b) && 1 <= min <= p.g && 1 <= p.l <= p.g
    requires Counts(b)[p.g] > 0 && p.c == Counts(b)[p.g := Counts(b)[p.g] + y]
    requires FirstCode(Counts(b), p.g) + Counts(b)[p.g] + y == Pow2(p.g)
    requires forall k :: 1 <= k < p.g ==> RoomLeft(Counts(b), k)
    requires p.simple == s && p.bases == d && p.extra == e
    requires |p.vals| == Offset(Counts(b), p.g) + Counts(b)[p.g]
    requires SortedUpTo(b, p.vals, |b|) && forall i :: 0 <= i < |p.vals| ==> p.vals[i] < |b|
    requires forall k :: 1 <= k < min ==> Counts(b)[k] == 0
    ensures PlanFor(p, b, s, d, e)
    ensures FirstCode(p.c, min) == 0 && Offset(p.c, min) == 0
  {
    hide Pow2, FirstCode, Offset, SortedUpTo;
    var c := Counts(b);
    FirstCodeAgrees(p.c, c, p.g, p.g);
    FirstCodeAgrees(p.c, c, p.g, min);
    forall k | 1 <= k < p.g
      ensures RoomLeft(p.c, k)
    {
      assert RoomLeft(c, k);
      FirstCodeAgrees(p.c, c, p.g, k);
    }
    EmptyStart(c, min);
    EmptyOffset(c, min);
  }

  lemma {:induction false} EmptyOffset(c: seq<nat>, k: nat)
    requires |c| == BMAX + 1 && k <= BMAX && forall j :: 1 <= j < k ==> c[j] == 0
    ensures Offset(c, k) == 0
    decreases k
  {
    if k > 1 { EmptyOffset(c, k - 1); }
  }

  /** The input is one huft_build is meant for. */
  ghost predicate Arguments(b: seq<nat>, s: nat, d: seq<nat>, e: seq<nat>) {
    |b| > 0 && Lengths(b) && |d| == |e| && |b| <= s + |d| && ExtraOk(e)
  }

  /** What huft_build promises when it builds tables. */
  ghost predicate Built(b: seq<nat>, s: nat, d: seq<nat>, e: seq<nat>, m0: nat, hp0: seq<Huft>, hp: seq<Huft>,
                        hn0: nat, t: nat, m: nat, hn: nat)
    requires Arguments(b, s, d, e)
  {
    && hn0 <= hn <= |hp| == |hp0|
    && 1 <= m <= MaxLen(b) <= BMAX
    && m == IndexBits(b, m0) && hn == hn0 + Space(b, m0)
    && (!Gap(b, m) ==> Decodes(hp[..hn], t, m, b, s, d, e))
    && (Gap(b, m) ==> ReadsStale(hp0, hp, hn0, t, m))
    && (Empty(hp0, hn0) ==> (Decodes(hp[..hn], t, m, b, s, d, e) <==> !Gap(b, m)))
  }

  /**
   Build the decoding tables for the code lengths `b` in the space `hp` from `hn0` on.  `t` is the
   first table and `m` the number of bits it is indexed with.
   */
  method Build(b: seq<nat>, s: nat, d: seq<nat>, e: seq<nat>, m0: nat, hp: array<Huft>, hn0: nat)
    returns (res: Result, t: nat, m: nat, hn: nat)
    requires Arguments(b, s, d, e) && hp.Length == MANY && hn0 <= MANY
    modifies hp
    ensures forall q :: 0 <= q < hn0 ==> hp[q] == old(hp[q])
    ensures AllZero(b) ==> res == Ok && m == 0 && hn == hn0 && hp[..] == old(hp[..])
    ensures !AllZero(b) ==> m == IndexBits(b, m0) > 0 && (res == DataError <==> Kraft(b, |b|) > Pow2(BMAX))
    ensures res == MemError <==> !AllZero(b) && TooLarge(b, m0, hn0)
    ensures !AllZero(b) && (res == Ok || res == BufError) ==>
      && (res == BufError <==> Kraft(b, |b|) < Pow2(BMAX) && MaxLen(b) != 1)
      && Built(b, s, d, e, m0, old(hp[..]), hp[..], hn0, t, m, hn)
  {
    hide FirstCode, Offset, Pow2, Kraft, MaxLen, MinLen, Gap, Decodes, ReadsStale, RoomLeft, AllTables, Filled,
         SortedUpTo, Short, HasOrigin, Lengths, OpenedUpTo, Empty;
    res, t, m, hn := Ok, 0, 0, hn0;
    var c := CountLengths(b);
    CountAll(b, |b|);
    if c[0] == |b| { return; }
    SomeUse(b);
    var j, i := Extremes(c);
    LongestIsMax(b, i);
    ShortestIsMin(b, j);
    OneShortest(b, j);
    var l := m0;
    if l < j { l := j; }
    if l > i { l := i; }
    m := l;
    var over, y, c' := FillUp(c, j, i);
    KraftDecides(b, i, over, y);
    if over {
      res := DataError;
      return;
    }
    var x := StartingOffsets(b, c', i);
    var v := SortSymbols(b, x, i);
    ghost var p := Plan(i, l, c', v, s, d, e);
    MakePlan(b, s, d, e, p, y, j);
    ghost var hp0 := hp[..];
    var ok: bool;
    ghost var ts: seq<Table>;
    ok, t, hn, ts := PlaceCodes(p, c', i, l, v, s, d, e, j, hp, hn0);
    if !ok {
      res := MemError;
      return;
    }
    Conclude(p, b, s, d, e, m0, hp0, hp[..], ts, hn0, hn, j);
    res := if y != 0 && i != 1 then BufError else Ok;
  }

  lemma SomeUse(b: seq<nat>)
    requires Lengths(b) && !AllZero(b)
    ensures exists k :: 1 <= k <= BMAX && Counts(b)[k] > 0
  {
    var i :| 0 <= i < |b| && b[i] != 0;
    InUse(b, i);
  }

  lemma ShortestIsMin(b: seq<nat>, j: nat)
    requires Lengths(b) && 1 <= j <= BMAX && Counts(b)[j] > 0
    requires forall k :: 1 <= k < j ==> Counts(b)[k] == 0
    ensures Shortest(b, j)
  {
    var sym := SymbolOfRank(b, j, 0, |b|);
    forall i | 0 <= i < |b| && b[i] > 0
      ensures j <= b[i]
    {
      InUse(b, i);
    }
  }

  lemma OneShortest(b: seq<nat>, min: nat)
    requires Shortest(b, min)
    ensures MinLen(b) == min
  {
  }

  lemma Conclude(p: Plan, b: seq<nat>, s: nat, d: seq<nat>, e: seq<nat>, m0: nat, hp0: seq<Huft>, hp: seq<Huft>,
                 ts: seq<Table>, lo: nat, hn: nat, min: nat)
    requires Arguments(b, s, d, e) && PlanFor(p, b, s, d, e)
    requires AllTables(p, hp0, hp, ts, lo, hn) && TablesOk(p, ts, 0, |hp|) && Filled(p, hp, ts, Pow2(p.g))
    requires |ts| > 0 && ts[0].w == 0 && ts[0].x == 0
    requires MinLen(b) == min && p.l == Width(m0, min, p.g) && hn == lo + OpenedUpTo(p.c, p.g, p.l, p.g)
    requires min <= p.l && p.c[min] > 0 && FirstCode(p.c, min) == 0
    ensures Built(b, s, d, e, m0, hp0, hp, lo, ts[0].base, p.l, hn)
  {
    hide FirstCode, Offset, Pow2, Filled, Decodes, ReadsStale, Short, MaxLen, MinLen, OpenedUpTo, Empty;
    RootNotOversized(p, ts[0], min);
    if Gap(b, p.l) {
      StaleOutcome(p, b, s, d, e, hp0, hp, ts, lo, hn);
      if Empty(hp0, lo) { Fails(hp0, hp, lo, hn, ts[0].base, p.l, b, s, d, e); }
    } else {
      Outcome(p, b, s, d, e, hp0, hp, ts, lo, hn);
    }
  }

  lemma Fails(hp0: seq<Huft>, hp: seq<Huft>, lo: nat, hn: nat, t: nat, m: nat, b: seq<nat>, s: nat, d: seq<nat>, e: seq<nat>)
    requires Arguments(b, s, d, e) && hn <= |hp| && ReadsStale(hp0, hp, lo, t, m) && Empty(hp0, lo)
    ensures !Decodes(hp[..hn], t, m, b, s, d, e)
  {
    hide Decodes, ReadsStale, Empty;
    StaleIsLost(hp0, hp, lo, t, m, b, s, d, e);
    if Decodes(hp[..hn], t, m, b, s, d, e) { DecodesMore(hp[..hn], hp, t, m, b, s, d, e); }
  }

  // ----- when there is a gap

  /** From the code (k, r) on, the codes up to length n cannot take more space than as many of k bits. */
  lemma {:induction false} SpaceTaken(c: seq<nat>, g: nat, k: nat, r: nat, n: nat)
    requires |c| == BMAX + 1 && 1 <= k <= n <= g <= BMAX && r <= c[k]
    ensures Offset(c, k) + r <= Offset(c, n + 1)
    ensures Shl(FirstCode(c, n) + c[n], g - n)
         <= Shl(FirstCode(c, k) + r, g - k) + Shl(Offset(c, n + 1) - Offset(c, k) - r, g - k)
    decreases n
  {
    if n == k {
      ShlAdd(FirstCode(c, k) + r, c[k] - r, g - k);
    } else {
      SpaceTaken(c, g, k, r, n - 1);
      var f := FirstCode(c, n - 1) + c[n - 1];
      ShlAdd(FirstCode(c, n), c[n], g - n);
      ShlDouble(f, g - n);
      ShlShl(c[n], g - n, n - k);
      ShlGrows(Shl(c[n], g - n), n - k);
      var m := Offset(c, n) - Offset(c, k) - r;
      ShlAdd(m, c[n], g - k);
    }
  }

  lemma {:induction false} ShlGrows(x: nat, n: nat)
    ensures x <= Shl(x, n)
    decreases n
  {
    if n > 0 { ShlGrows(x, n - 1); }
  }

  /** Codes of one length fill the part of the code space that shares w bits only if there are many. */
  lemma ManyCodes(g: nat, k: nat, w: nat, x: nat, m: nat)
    requires w <= k <= g && x < Pow2(k) && Rev(k, x) < Pow2(w)
    requires Pow2(g) <= Shl(x, g - k) + Shl(m, g - k)
    ensures Pow2(k - w) <= m
  {
    var i := Rev(k, x);
    RevRev(k, x);
    RevScale(k, g, i);
    Cover(w, g, i, i);
    ShlPow2(k - w, g - k);
    hide Pow2, Shl, Rev;
    assert Pow2(g - w) <= Shl(m, g - k);
    if m < Pow2(k - w) {
      ShlMono(m, Pow2(k - w), g - k);
    }
  }

  /**
   A complete code over fewer than `2 << l` symbols has no gap, so the callers in inflate, which
   reject incomplete codes, never meet one.
   */
  lemma CompleteHasNoGap(lens: seq<nat>, l: nat)
    requires Lengths(lens) && MaxLen(lens) <= BMAX && l > 0 && !AllZero(lens)
    requires Kraft(lens, |lens|) == Pow2(BMAX) && |lens| < Pow2(l + 1)
    ensures !Gap(lens, l)
  {
    hide Pow2, Shl, Rev, FirstCode, Offset, Kraft, MaxLen;
    if Gap(lens, l) {
      var c, g := FullCounts(lens), MaxLen(lens);
      CompleteIsFull(lens);
      var k: nat, r: nat, w: nat :| GapAt(c, g, l, k, r, w);
      FirstCodeFits(lens, k, r);
      SpaceTaken(c, g, k, r, g);
      assert Shl(Pow2(g), 0) == Pow2(g) by { ShlPow2(g, 0); }
      var m := Offset(c, g + 1) - Offset(c, k) - r;
      ManyCodes(g, k, w, FirstCode(c, k) + r, m);
      TotalFits(lens, |lens|, g + 1);
      Pow2Mono(l + 1, k - w);
    }
  }

  lemma CompleteIsFull(lens: seq<nat>)
    requires Lengths(lens) && MaxLen(lens) <= BMAX && !AllZero(lens) && Kraft(lens, |lens|) == Pow2(BMAX)
    ensures MaxLen(lens) > 0 && FullCounts(lens) == Counts(lens) == CountsUpTo(lens, |lens|)
    ensures FirstCode(Counts(lens), MaxLen(lens)) + Counts(lens)[MaxLen(lens)] == Pow2(MaxLen(lens))
  {
    hide Pow2, FirstCode, Kraft, KraftByLength;
    var c, g := Counts(lens), MaxLen(lens);
    assert CountsUpTo(lens, |lens|) == c;
    SomeUse(lens);
    assert g > 0 by {
      var i :| 0 <= i < |lens| && lens[i] != 0;
      assert lens[i] <= g;
    }
    forall k | g < k <= BMAX
      ensures c[k] == 0
    {
      if c[k] > 0 { var sym := SymbolOfRank(lens, k, 0, |lens|); }
    }
    KraftBySymbol(lens, |lens|);
    KraftByLengthMono(c, g, BMAX);
    KraftAt(c, g);
  }

  lemma FirstCodeFits(lens: seq<nat>, k: nat, r: nat)
    requires Lengths(lens) && MaxLen(lens) <= BMAX && !AllZero(lens) && Kraft(lens, |lens|) == Pow2(BMAX)
    requires 1 <= k <= MaxLen(lens) && r < Counts(lens)[k]
    ensures FirstCode(Counts(lens), k) + r < Pow2(k)
  {
    hide Pow2, FirstCode, Kraft, KraftByLength, MaxLen;
    var c, g := Counts(lens), MaxLen(lens);
    CompleteIsFull(lens);
    if k < g {
      assert g in lens;
      var i :| 0 <= i < |lens| && lens[i] == g;
      InUse(lens, i);
      FullStaysFull(c, k, g);
    }
  }

  /** If one table takes the longest codes there is no gap either. */
  lemma OneLevelHasNoGap(lens: seq<nat>, l: nat)
    requires Lengths(lens) && MaxLen(lens) <= l <= BMAX && l > 0
    ensures !Gap(lens, l)
  {
  }
}
