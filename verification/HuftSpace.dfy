/**
 How much table space huft_build takes: a one-level code takes one table, and an incomplete code is
 shown that fits the space and has a gap.
 */
module HuftSpace {
  import opened Bits
  import opened Canonical
  import opened HuffmanTables
  import opened CodeLengths
  import opened TableSpace
  import opened TableFill
  import opened HuftBuild

  // ----- one level

  /** Lengths that are not over-subscribed make a plan. */
  lemma LengthsMakePlan(b: seq<nat>, l: nat) returns (p: Plan)
    requires Lengths(b) && !AllZero(b) && Kraft(b, |b|) <= Pow2(BMAX) && 1 <= l <= MaxLen(b)
    ensures MaxLen(b) <= BMAX && p.g == MaxLen(b) && p.l == l && p.c == FullCounts(b) && p.Valid()
  {
    hide Pow2, FirstCode, Kraft;
    var c, g := Counts(b), MaxLen(b);
    var i :| 0 <= i < |b| && b[i] == g;
    InUse(b, i);
    AboveLongest(b);
    var over := exists k :: 1 <= k <= g && OverFull(c, k);
    var y := if FirstCode(c, g) + c[g] <= Pow2(g) then Pow2(g) - (FirstCode(c, g) + c[g]) else 0;
    assert FirstCode(c, g) + c[g] > Pow2(g) ==> OverFull(c, g);
    KraftDecides(b, g, over, y);
    p := Plan(g, l, FullCounts(b), [], 0, [], []);
    FirstCodeAgrees(p.c, c, g, g);
    assert !OverFull(c, g);
    forall k | 1 <= k < g
      ensures RoomLeft(p.c, k)
    {
      FullStaysFull(c, k, g);
      FirstCodeAgrees(p.c, c, g, k);
    }
  }

  lemma AboveLongest(b: seq<nat>)
    requires Lengths(b) && MaxLen(b) <= BMAX
    ensures forall k :: MaxLen(b) < k <= BMAX ==> Counts(b)[k] == 0
  {
    forall k | MaxLen(b) < k <= BMAX
      ensures Counts(b)[k] == 0
    {
      if Counts(b)[k] > 0 {
        var sym := SymbolOfRank(b, k, 0, |b|);
        assert false;
      }
    }
  }

  lemma RevIsZero(k: nat, x: nat)
    requires x < Pow2(k)
    ensures Rev(k, x) == 0 <==> x == 0
  {
    RevRev(k, x);
    RevZero(k);
  }

  /** Only all codes together use up the root table, so it has a full level. */
  lemma {:induction false} RootIsFull(p: Plan, k: nat, r: nat, j: nat)
    requires p.Valid() && p.IsCode(k, r) && 1 <= j <= p.l && FirstCode(p.c, k) + r == 0
    ensures TableWidth(p.c, p.g, p.l, k, r, 0, j) == p.l
    decreases p.l - j
  {
    hide Pow2, FirstCode, Shl;
    if j < p.l {
      assert RoomLeft(p.c, j);
      ShlMono(FirstCode(p.c, j) + p.c[j], Pow2(j), p.g - j);
      ShlPow2(j, p.g - j);
      ShlAdd(0, 0, p.g - k);
      RootIsFull(p, k, r, j + 1);
    }
  }

  /** Of the codes that fit the root table only the very first opens a table. */
  lemma FirstOpens(p: Plan, k: nat, r: nat)
    requires p.Valid() && k <= p.l && p.IsCode(k, r)
    ensures OpenedBy(p.c, p.g, p.l, k, r, 0) == if FirstCode(p.c, k) + r == 0 then Pow2(p.l) else 0
  {
    hide FirstCode, TableWidth, Rev;
    p.CodeFits(k, r);
    RevIsZero(k, FirstCode(p.c, k) + r);
    if FirstCode(p.c, k) + r == 0 { RootIsFull(p, k, r, k); }
    assert Pow2(0) == 1;
    hide Pow2;
    assert OpenedBy(p.c, p.g, p.l, k, r, p.l) == 0;
  }

  lemma {:induction false} FirstIsZero(c: seq<nat>, k: nat)
    requires |c| == BMAX + 1 && 1 <= k <= BMAX
    ensures FirstCode(c, k) == 0 <==> Offset(c, k) == 0
    decreases k
  {
    if k > 1 { FirstIsZero(c, k - 1); }
  }

  lemma {:induction false} OneLevelCodes(p: Plan, k: nat, n: nat)
    requires p.Valid() && 1 <= k <= p.l && n <= p.c[k]
    ensures OpenedByCodes(p.c, p.g, p.l, k, n) == if Offset(p.c, k) == 0 && n > 0 then Pow2(p.l) else 0
    decreases n
  {
    hide FirstCode, Offset, Pow2, OpenedBy;
    if n > 0 {
      FirstIsZero(p.c, k);
      OneLevelCodes(p, k, n - 1);
      FirstOpens(p, k, n - 1);
    }
  }

  lemma {:induction false} OneLevelLengths(p: Plan, k: nat)
    requires p.Valid() && k <= p.l
    ensures OpenedUpTo(p.c, p.g, p.l, k) == if Offset(p.c, k + 1) > 0 then Pow2(p.l) else 0
    decreases k
  {
    hide FirstCode, Pow2, OpenedByCodes;
    if k > 0 {
      OneLevelLengths(p, k - 1);
      OneLevelCodes(p, k, p.c[k]);
    }
  }

  /** A code whose longest codes fit one table takes exactly that table. */
  lemma OneLevelSpace(b: seq<nat>, wish: nat)
    requires Lengths(b) && !AllZero(b) && Kraft(b, |b|) <= Pow2(BMAX) && MaxLen(b) <= wish
    ensures MaxLen(b) <= BMAX && IndexBits(b, wish) == MaxLen(b) > 0
    ensures Space(b, wish) == Pow2(MaxLen(b))
  {
    hide Pow2, Kraft, OpenedUpTo, FullCounts;
    var min := MinLen(b);
    var i :| 0 <= i < |b| && b[i] == min;
    assert 0 < min <= MaxLen(b);
    var p := LengthsMakePlan(b, MaxLen(b));
    OneLevelLengths(p, p.g);
  }

  // ----- a code with a gap

  /** Six codes that halve the code space again and again, and one long code. */
  const Jump: seq<nat> := [1, 2, 3, 4, 5, 6, 13]

  lemma JumpCounts()
    ensures Lengths(Jump) && |Counts(Jump)| == BMAX + 1
    ensures forall k :: 0 <= k <= BMAX ==> Counts(Jump)[k] == if 1 <= k <= 6 || k == 13 then 1 else 0
  {
    forall k | 0 <= k <= BMAX
      ensures CountUpTo(Jump, k, 7) == if 1 <= k <= 6 || k == 13 then 1 else 0
    {
      JumpCount(k);
    }
  }

  lemma JumpCount(k: nat)
    ensures CountUpTo(Jump, k, 7) == if 1 <= k <= 6 || k == 13 then 1 else 0
  {
    assert CountUpTo(Jump, k, 1) == if k == 1 then 1 else 0;
    assert CountUpTo(Jump, k, 2) == CountUpTo(Jump, k, 1) + if k == 2 then 1 else 0;
    assert CountUpTo(Jump, k, 3) == CountUpTo(Jump, k, 2) + if k == 3 then 1 else 0;
    assert CountUpTo(Jump, k, 4) == CountUpTo(Jump, k, 3) + if k == 4 then 1 else 0;
    assert CountUpTo(Jump, k, 5) == CountUpTo(Jump, k, 4) + if k == 5 then 1 else 0;
    assert CountUpTo(Jump, k, 6) == CountUpTo(Jump, k, 5) + if k == 6 then 1 else 0;
  }

  lemma JumpExtremes()
    ensures MaxLen(Jump) == 13 && MinLen(Jump) == 1 && IndexBits(Jump, 6) == 6
  {
    hide MaxLen, MinLen;
    assert Jump[6] == 13 && Jump[0] == 1;
    assert MaxLen(Jump) in Jump;
    assert MinLen(Jump) in Jump;
  }

  /** The codes of up to 6 bits are 0, 10, 110, ...; the long ones begin with six ones. */
  lemma JumpCodes(c: seq<nat>)
    requires |c| == BMAX + 1 && (forall k :: 1 <= k <= 6 ==> c[k] == 1) && (forall k :: 7 <= k <= 12 ==> c[k] == 0)
    ensures FirstCode(c, 6) == 62 && FirstCode(c, 13) == 8064
  {
    assert FirstCode(c, 1) == 0;
    FirstCodeNext(c, 1);
    FirstCodeNext(c, 2);
    FirstCodeNext(c, 3);
    FirstCodeNext(c, 4);
    FirstCodeNext(c, 5);
    FirstCodeNext(c, 6);
    FirstCodeNext(c, 7);
    FirstCodeNext(c, 8);
    FirstCodeNext(c, 9);
    FirstCodeNext(c, 10);
    FirstCodeNext(c, 11);
    FirstCodeNext(c, 12);
  }

  lemma JumpPowers()
    ensures Pow2(6) == 64 && Pow2(7) == 128 && Pow2(12) == 4096 && Pow2(13) == 8192 && Pow2(1) == 2
  {
    assert Pow2(6) == 64;
    Pow2Double(6);
    Pow2Double(7);
    Pow2Double(8);
    Pow2Double(9);
    Pow2Double(10);
    Pow2Double(11);
    Pow2Double(12);
  }

  lemma JumpFull()
    ensures Lengths(Jump) && MaxLen(Jump) == 13
    ensures FullCounts(Jump) == Counts(Jump)[13 := 128]
  {
    hide Pow2, FirstCode, MaxLen, Counts;
    JumpCounts();
    JumpExtremes();
    JumpCodes(Counts(Jump));
    JumpPowers();
  }

  /** Reversed, the low m bits come first: the rest is below 2^n when they are zero. */
  lemma {:induction false} RevBelow(m: nat, n: nat, x: nat)
    ensures Rev(m + n, x) < Pow2(n) <==> Low(x, m) == 0
    decreases m
  {
    if m > 0 {
      RevBelow(m - 1, n, x / 2);
      Pow2Mono(n, m + n - 1);
    }
  }

  /** The long codes are six ones and seven more bits. */
  lemma LongOpens(c: seq<nat>, r: nat)
    requires |c| == BMAX + 1 && FirstCode(c, 13) == 8064 && r < 128
    ensures !Opens(c, 13, r, 0) && (Opens(c, 13, r, 6) <==> r == 0) && (Opens(c, 13, r, 12) <==> r % 2 == 0)
  {
    hide Rev, Pow2, Shl;
    JumpPowers();
    RevBelow(13, 0, 8064 + r);
    RevBelow(7, 6, 8064 + r);
    RevBelow(1, 12, 8064 + r);
    Low13(8064 + r);
    assert Low(8064 + r, 1) == (8064 + r) % 2 + 2 * Low((8064 + r) / 2, 0);
    Shl7(63);
    Join(r, 63, 7);
  }

  lemma Low13(x: nat)
    requires 0 < x < 8192
    ensures Low(x, 13) != 0
  {
    hide Pow2, Low;
    JumpPowers();
    LowSmall(x, 13);
  }

  lemma Shl7(x: nat)
    ensures Shl(x, 7) == 128 * x
  {
    assert Shl(x, 1) == 2 * Shl(x, 0);
    assert Shl(x, 2) == 2 * Shl(x, 1);
    assert Shl(x, 3) == 2 * Shl(x, 2);
    assert Shl(x, 4) == 2 * Shl(x, 3);
    assert Shl(x, 5) == 2 * Shl(x, 4);
    assert Shl(x, 6) == 2 * Shl(x, 5);
  }

  /** The first long code opens a table of 7 bits, and every second one a table of 1 bit. */
  lemma LongOpenedBy(c: seq<nat>, r: nat)
    requires |c| == BMAX + 1 && FirstCode(c, 13) == 8064 && r < 128
    ensures OpenedBy(c, 13, 6, 13, r, 0) == (if r == 0 then 128 else 0) + if r % 2 == 0 then 2 else 0
  {
    hide FirstCode, Pow2, Opens, UsesUp;
    LongOpens(c, r);
    JumpPowers();
    assert OpenedBy(c, 13, 6, 13, r, 18) == 0;
    assert TableWidth(c, 13, 6, 13, r, 12, 1) == 1;
    assert OpenedBy(c, 13, 6, 13, r, 12) == if r % 2 == 0 then 2 else 0;
    assert TableWidth(c, 13, 6, 13, r, 6, 7) == 7;
    assert OpenedBy(c, 13, 6, 13, r, 6) == (if r == 0 then 128 else 0) + OpenedBy(c, 13, 6, 13, r, 12);
  }

  lemma {:induction false} LongSpace(c: seq<nat>, n: nat)
    requires |c| == BMAX + 1 && FirstCode(c, 13) == 8064 && n <= 128
    ensures OpenedByCodes(c, 13, 6, 13, n) == (if n > 0 then 128 else 0) + 2 * ((n + 1) / 2)
    decreases n
  {
    hide FirstCode, OpenedBy;
    if n > 0 {
      LongSpace(c, n - 1);
      LongOpenedBy(c, n - 1);
    }
  }

  /** The lengths leave 127 codes of 13 bits unused. */
  lemma JumpKraft()
    ensures Lengths(Jump) && Kraft(Jump, |Jump|) < Pow2(BMAX)
  {
    hide Pow2, FirstCode, Counts, Kraft;
    JumpCounts();
    var c := Counts(Jump);
    JumpCodes(c);
    JumpPowers();
    forall k | 1 <= k <= 13
      ensures !OverFull(c, k)
    {
      if k < 13 { FullStaysFull(c, k, 13); }
    }
    KraftDecides(Jump, 13, false, 127);
  }

  /** A root of 64 entries, a table of 128 and 64 tables of 2. */
  lemma JumpSpace()
    ensures Lengths(Jump) && MaxLen(Jump) == 13 && IndexBits(Jump, 6) == 6
    ensures Space(Jump, 6) == 320
  {
    hide Pow2, FirstCode, MaxLen, MinLen, Counts, Kraft, OpenedUpTo, FullCounts;
    JumpFull();
    JumpExtremes();
    JumpKraft();
    assert Jump[0] != 0;
    var p := LengthsMakePlan(Jump, 6);
    JumpTables(p);
  }

  lemma JumpTables(p: Plan)
    requires p.Valid() && p.g == 13 && p.l == 6 && p.c == Counts(Jump)[13 := 128]
    ensures OpenedUpTo(p.c, 13, 6, 13) == 320
  {
    hide Pow2, FirstCode, Counts, OpenedUpTo, Offset, OpenedByCodes;
    JumpCounts();
    JumpPowers();
    OneLevelLengths(p, 6);
    SomeShort(p.c);
    Between(p.c, 12);
    JumpCodes(p.c);
    LongSpace(p.c, 128);
    LastLength(p.c);
  }

  lemma SomeShort(c: seq<nat>)
    requires |c| == BMAX + 1 && c[6] == 1
    ensures Offset(c, 7) > 0
  {
  }

  lemma {:induction false} Between(c: seq<nat>, k: nat)
    requires |c| == BMAX + 1 && 6 <= k <= 12 && forall j :: 7 <= j <= 12 ==> c[j] == 0
    ensures OpenedUpTo(c, 13, 6, k) == OpenedUpTo(c, 13, 6, 6)
    decreases k
  {
    if k > 6 { Between(c, k - 1); }
  }

  lemma LastLength(c: seq<nat>)
    requires |c| == BMAX + 1
    ensures OpenedUpTo(c, 13, 6, 13) == OpenedUpTo(c, 13, 6, 12) + OpenedByCodes(c, 13, 6, 13, c[13])
  {
  }

  /** An incomplete code that fits the space and has a gap, indexed 6 bits at a time as distance codes are. */
  lemma GapExample()
    ensures Arguments(Jump, 0, Jump, [0, 0, 0, 0, 0, 0, 0]) && MaxLen(Jump) == 13 && IndexBits(Jump, 6) == 6
    ensures Gap(Jump, 6) && !TooLarge(Jump, 6, 0) && Kraft(Jump, |Jump|) < Pow2(BMAX)
  {
    hide FirstCode, Pow2, Rev, Counts, Kraft, Space, MaxLen, MinLen;
    JumpFull();
    JumpExtremes();
    JumpKraft();
    JumpSpace();
    JumpCounts();
    var c := FullCounts(Jump);
    JumpCodes(c);
    LongOpens(c, 0);
    assert Multiple(6, 6);
    assert GapAt(c, 13, 6, 13, 0, 6);
  }

  /** In an empty space huft_build reports that code as incomplete and leaves tables that do not decode it. */
  method BuildJump(hp: array<Huft>) returns (res: Result, t: nat, hn: nat)
    requires hp.Length == MANY && Empty(hp[..], 0)
    modifies hp
    ensures res == BufError && hn == 320 && Lengths(Jump)
    ensures !Decodes(hp[..hn], t, 6, Jump, 0, Jump, [0, 0, 0, 0, 0, 0, 0])
  {
    hide Pow2, Kraft, Space, MaxLen, MinLen, Gap, Decodes, ReadsStale, Empty, TooLarge;
    GapExample();
    JumpSpace();
    assert Jump[0] != 0;
    var m;
    res, t, m, hn := Build(Jump, 0, Jump, [0, 0, 0, 0, 0, 0, 0], 6, hp, 0);
  }
}
