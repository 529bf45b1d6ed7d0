/**
 The callers of huft_build: the tree for the code length codes and the two trees of a dynamic
 block, both built in one table space.
 */
module InflateTrees {
  import opened Bits
  import opened Canonical
  import opened HuffmanTables
  import opened TableFill
  import opened HuftBuild
  import opened HuftSpace
  import opened Window
  import opened InflateSpec
  import opened DeflateCodes

  lemma ConstantTables()
    ensures |CopyLengths()| == |LengthExtra()| == 31 && ExtraOk(LengthExtra())
    ensures |CopyOffsets()| == |OffsetExtra()| == 30 && ExtraOk(OffsetExtra())
  {
  }

  /** The code is complete, or it consists of a single code of one bit. */
  ghost predicate Acceptable(lens: seq<nat>)
    requires Lengths(lens)
  {
    !AllZero(lens) && Kraft(lens, |lens|) <= Pow2(BMAX)
    && (Kraft(lens, |lens|) == Pow2(BMAX) || MaxLen(lens) == 1)
  }

  /** An acceptable code with few symbols for the width asked for has no gap. */
  lemma NoGapForCallers(b: seq<nat>, m0: nat)
    requires Lengths(b) && Acceptable(b) && MaxLen(b) <= BMAX && IndexBits(b, m0) >= 1
    requires |b| < Pow2(m0 + 1)
    ensures !Gap(b, IndexBits(b, m0))
  {
    hide Pow2, Kraft, MaxLen, MinLen, Gap;
    var m := IndexBits(b, m0);
    if MaxLen(b) <= m {
      OneLevelHasNoGap(b, m);
    } else {
      Pow2Mono(m0 + 1, m + 1);
      assert Kraft(b, |b|) == Pow2(BMAX);
      CompleteHasNoGap(b, m);
    }
  }

  /** Tables that huft_build reports without an error decode an acceptable code. */
  lemma Usable(b: seq<nat>, s: nat, d: seq<nat>, e: seq<nat>, m0: nat, hp0: seq<Huft>, hp: seq<Huft>,
               hn0: nat, t: nat, m: nat, hn: nat)
    requires Arguments(b, s, d, e) && Acceptable(b) && |b| < Pow2(m0 + 1)
    requires Built(b, s, d, e, m0, hp0, hp, hn0, t, m, hn)
    ensures Decodes(hp[..hn], t, m, b, s, d, e)
    ensures Decodes(hp, t, m, b, s, d, e)
  {
    hide Pow2, Kraft, MaxLen, Decodes, Gap, Space;
    NoGapForCallers(b, m0);
    DecodesMore(hp[..hn], hp, t, m, b, s, d, e);
  }

  /** The table for lengths up to 7 always fits. */
  lemma NeverTooLarge(c: seq<nat>)
    requires Lengths(c) && forall i :: 0 <= i < |c| ==> c[i] <= 7
    ensures !AllZero(c) ==> !TooLarge(c, 7, 0)
  {
    hide Kraft, Pow2, Space;
    if !AllZero(c) && Kraft(c, |c|) <= Pow2(BMAX) {
      assert MaxLen(c) in c;
      OneLevelSpace(c, 7);
      Pow2Mono(MaxLen(c), 7);
      Powers();
    }
  }

  /** The tree for the 19 code length codes. */
  method TreesBits(c: seq<nat>, hp: array<Huft>) returns (r: Result, bb: nat, tb: nat)
    requires |c| == 19 && (forall i :: 0 <= i < |c| ==> c[i] <= 7) && hp.Length == MANY
    modifies hp
    ensures r == if Acceptable(c) then Ok else DataError
    ensures r == Ok ==> Decodes(hp[..], tb, bb, c, 19, [], [])
  {
    assert Pow2(8) == 256 by { Powers(); }
    hide Pow2, Kraft, MaxLen, Decodes, Built, TooLarge;
    assert Arguments(c, 19, [], []);
    NeverTooLarge(c);
    var hn;
    r, tb, bb, hn := Build(c, 19, [], [], 7, hp, 0);
    if r == DataError {
    } else if r == BufError || bb == 0 {
      r := DataError;
    }
    if r == Ok {
      Usable(c, 19, [], [], 7, old(hp[..]), hp[..], 0, tb, bb, hn);
    }
  }

  /** The literal/length lengths and the distance lengths of a dynamic block. */
  ghost predicate TwoLists(nl: nat, c: seq<nat>) {
    257 <= nl <= 288 && 1 <= |c| - nl <= 30 && Lengths(c)
  }

  ghost predicate LiteralsDecode(hp: seq<Huft>, t: nat, m: nat, nl: nat, c: seq<nat>)
    requires TwoLists(nl, c)
  {
    ConstantTables();
    Decodes(hp, t, m, c[..nl], 257, CopyLengths(), LengthExtra())
  }

  ghost predicate DistancesDecode(hp: seq<Huft>, t: nat, m: nat, nl: nat, c: seq<nat>)
    requires TwoLists(nl, c)
  {
    ConstantTables();
    Decodes(hp, t, m, c[nl..], 0, CopyOffsets(), OffsetExtra())
  }

  /** The entries that the literal/length tree takes. */
  ghost function LiteralSpace(nl: nat, c: seq<nat>): nat
    requires TwoLists(nl, c)
  {
    if MaxLen(c[..nl]) <= BMAX && IndexBits(c[..nl], 9) > 0 then Space(c[..nl], 9) else 0
  }

  /** The literal/length tree does not fit, or the distance tree does not fit behind it. */
  ghost predicate RunsOut(nl: nat, c: seq<nat>)
    requires TwoLists(nl, c)
  {
    || (!AllZero(c[..nl]) && TooLarge(c[..nl], 9, 0))
    || (Acceptable(c[..nl]) && !AllZero(c[nl..]) && TooLarge(c[nl..], 6, LiteralSpace(nl, c)))
  }

  method LiteralTree(nl: nat, c: seq<nat>, hp: array<Huft>) returns (r: Result, bl: nat, tl: nat, hn: nat)
    requires TwoLists(nl, c) && hp.Length == MANY
    modifies hp
    ensures r == Ok ==> hn <= MANY && bl <= BMAX && Acceptable(c[..nl]) && LiteralsDecode(hp[..hn], tl, bl, nl, c)
    ensures r == Ok ==> hn == LiteralSpace(nl, c)
    ensures r != MemError && r != Ok ==> r == DataError && !Acceptable(c[..nl])
    ensures r == MemError <==> !AllZero(c[..nl]) && TooLarge(c[..nl], 9, 0)
  {
    ConstantTables();
    Powers();
    hide Pow2, Kraft, MaxLen, Decodes, Built, CopyLengths, LengthExtra, CopyOffsets, OffsetExtra, TooLarge, Space;
    r, tl, bl, hn := Build(c[..nl], 257, CopyLengths(), LengthExtra(), 9, hp, 0);
    if r != Ok || bl == 0 {
      if r == DataError {
      } else if r != MemError {
        r := DataError;
      }
    } else {
      BuiltFits(c[..nl], 257, CopyLengths(), LengthExtra(), 9, old(hp[..]), hp[..], 0, tl, bl, hn);
      Usable(c[..nl], 257, CopyLengths(), LengthExtra(), 9, old(hp[..]), hp[..], 0, tl, bl, hn);
    }
  }

  method DistanceTree(nl: nat, c: seq<nat>, hp: array<Huft>, hn: nat) returns (r: Result, bd: nat, td: nat)
    requires TwoLists(nl, c) && hp.Length == MANY && hn <= MANY
    modifies hp
    ensures forall q :: 0 <= q < hn ==> hp[q] == old(hp[q])
    ensures r == Ok && !AllZero(c[nl..]) ==>
      bd <= BMAX && Acceptable(c[nl..]) && DistancesDecode(hp[..], td, bd, nl, c)
    ensures r == Ok && AllZero(c[nl..]) ==> bd == 0 && nl == 257
    ensures r != MemError && r != Ok ==>
      r == DataError && !Acceptable(c[nl..]) && !(AllZero(c[nl..]) && nl == 257)
    ensures r == MemError <==> !AllZero(c[nl..]) && TooLarge(c[nl..], 6, hn)
  {
    ConstantTables();
    Powers();
    hide Pow2, Kraft, MaxLen, Decodes, Built, CopyLengths, LengthExtra, CopyOffsets, OffsetExtra, TooLarge;
    var hn';
    r, td, bd, hn' := Build(c[nl..], 0, CopyOffsets(), OffsetExtra(), 6, hp, hn);
    if r != Ok || (bd == 0 && nl > 257) {
      if r == DataError {
      } else if r == BufError {
        r := DataError;
      } else if r != MemError {
        r := DataError;
      }
    } else if bd != 0 {
      BuiltFits(c[nl..], 0, CopyOffsets(), OffsetExtra(), 6, old(hp[..]), hp[..], hn, td, bd, hn');
      Usable(c[nl..], 0, CopyOffsets(), OffsetExtra(), 6, old(hp[..]), hp[..], hn, td, bd, hn');
    }
  }

  /** The literal/length tree and the distance tree of a dynamic block. */
  method TreesDynamic(nl: nat, nd: nat, c: seq<nat>, hp: array<Huft>)
    returns (r: Result, bl: nat, bd: nat, tl: nat, td: nat)
    requires TwoLists(nl, c) && |c| == nl + nd && hp.Length == MANY
    modifies hp
    ensures r == Ok ==> GoodTrees(Trees(hp[..], tl, bl, td, bd))
    ensures r == Ok ==> LiteralsDecode(hp[..], tl, bl, nl, c)
    ensures r == Ok ==> if AllZero(c[nl..]) then bd == 0 else DistancesDecode(hp[..], td, bd, nl, c)
    ensures r == if RunsOut(nl, c) then MemError
                 else if Acceptable(c[..nl]) && (Acceptable(c[nl..]) || (AllZero(c[nl..]) && nl == 257)) then Ok
                 else DataError
  {
    hide Pow2, Kraft, MaxLen, Decodes, Acceptable, TooLarge, Space, CopyLengths, LengthExtra, CopyOffsets, OffsetExtra;
    bd, td := 0, 0;
    var hn;
    r, bl, tl, hn := LiteralTree(nl, c, hp);
    if r != Ok { return; }
    ghost var hp1 := hp[..hn];
    r, bd, td := DistanceTree(nl, c, hp, hn);
    if r != Ok { return; }
    assert hp1 == hp[..hn] <= hp[..];
    ConstantTables();
    DecodesMore(hp1, hp[..], tl, bl, c[..nl], 257, CopyLengths(), LengthExtra());
    TreesAreGood(nl, c, Trees(hp[..], tl, bl, td, bd));
  }

  // ----- the trees are what the decoder needs

  lemma LengthsOk(i: nat)
    requires i < 31
    ensures i < 29 ==> LenOk(CopyLengths()[i], LengthExtra()[i])
    ensures i >= 29 ==> LengthExtra()[i] == 112
  {
    hide Pow2;
    Powers();
  }

  lemma OffsetsOk(i: nat)
    requires i < 30
    ensures DistOk(CopyOffsets()[i], OffsetExtra()[i])
  {
    hide Pow2;
    Powers();
  }

  lemma LenEntryOk(e: Huft, sym: nat)
    requires sym < 288 && |CopyLengths()| == |LengthExtra()| == 31
    requires EntryFor(e, sym, 257, CopyLengths(), LengthExtra())
    ensures GoodLenEntry(e)
    ensures sym <= 256 ==> !HasBit(e.exop, 16)
  {
    if sym >= 257 {
      LengthsOk(sym - 257);
      hide CopyLengths, LengthExtra, Pow2;
      assert sym - 257 < 29 ==> e.exop == LengthExtra()[sym - 257] + 80;
    }
  }

  lemma DistEntryOk(e: Huft, sym: nat)
    requires sym < 30 && |CopyOffsets()| == |OffsetExtra()| == 30
    requires EntryFor(e, sym, 0, CopyOffsets(), OffsetExtra())
    ensures GoodDistEntry(e)
  {
    OffsetsOk(sym);
    hide CopyOffsets, OffsetExtra, Pow2;
    assert e.exop == OffsetExtra()[sym] + 80;
  }

  lemma GoodLiteral(nl: nat, c: seq<nat>, tr: Trees, v: nat)
    requires TwoLists(nl, c) && LiteralsDecode(tr.hp, tr.tl, tr.bl, nl, c)
    ensures GoodLen(LookUp(tr.hp, tr.tl, tr.bl, v), BMAX) && Shallow(tr.hp, tr.tl, tr.bl, v, BMAX)
    ensures nl == 257 ==> !HasBit(LookUp(tr.hp, tr.tl, tr.bl, v).entry.exop, 16)
  {
    ConstantTables();
    hide CopyLengths, LengthExtra, Pow2, LookUp, Low, Rev, Code, EntryFor, Shallow;
    var lens := c[..nl];
    var f := LookUp(tr.hp, tr.tl, tr.bl, v);
    if NoSymbol(lens, v) {
    } else {
      var sym :| 0 <= sym < |lens| && BeginsWith(lens, sym, v);
      assert DecodesTo(tr.hp, tr.tl, tr.bl, v, lens[sym]);
      LenEntryOk(f.entry, sym);
    }
    UsesBits(tr.hp, tr.tl, tr.bl, v);
  }

  lemma GoodDistance(nl: nat, c: seq<nat>, tr: Trees, v: nat)
    requires TwoLists(nl, c) && DistancesDecode(tr.hp, tr.td, tr.bd, nl, c)
    ensures GoodDist(LookUp(tr.hp, tr.td, tr.bd, v), BMAX) && Shallow(tr.hp, tr.td, tr.bd, v, BMAX)
  {
    ConstantTables();
    hide CopyOffsets, OffsetExtra, Pow2, LookUp, Low, Rev, Code, EntryFor, Shallow;
    var lens := c[nl..];
    var f := LookUp(tr.hp, tr.td, tr.bd, v);
    if NoSymbol(lens, v) {
    } else {
      var sym :| 0 <= sym < |lens| && BeginsWith(lens, sym, v);
      assert DecodesTo(tr.hp, tr.td, tr.bd, v, lens[sym]);
      DistEntryOk(f.entry, sym);
    }
    UsesBits(tr.hp, tr.td, tr.bd, v);
  }

  /** The trees of a dynamic block that were accepted are trees inflate_codes can work with. */
  lemma TreesAreGood(nl: nat, c: seq<nat>, tr: Trees)
    requires TwoLists(nl, c) && tr.bl <= BMAX && LiteralsDecode(tr.hp, tr.tl, tr.bl, nl, c)
    requires if AllZero(c[nl..]) then nl == 257 else tr.bd <= BMAX && DistancesDecode(tr.hp, tr.td, tr.bd, nl, c)
    ensures GoodTrees(tr)
  {
    hide LookUp, Shallow, LiteralsDecode, DistancesDecode, GoodLen, GoodDist, HasBit;
    forall v: nat
      ensures GoodLen(LookUp(tr.hp, tr.tl, tr.bl, v), BMAX) && Shallow(tr.hp, tr.tl, tr.bl, v, BMAX)
      ensures LookUp(tr.hp, tr.tl, tr.bl, v).Found?
      ensures nl == 257 ==> !HasBit(LookUp(tr.hp, tr.tl, tr.bl, v).entry.exop, 16)
    {
      GoodLiteral(nl, c, tr, v);
      assert LookUp(tr.hp, tr.tl, tr.bl, v).Found? by { IsFound(LookUp(tr.hp, tr.tl, tr.bl, v)); }
    }
    if !AllZero(c[nl..]) {
      forall v: nat
        ensures GoodDist(LookUp(tr.hp, tr.td, tr.bd, v), BMAX) && Shallow(tr.hp, tr.td, tr.bd, v, BMAX)
      {
        GoodDistance(nl, c, tr, v);
      }
    }
  }

  lemma IsFound(f: Lookup)
    requires GoodLen(f, BMAX)
    ensures f.Found?
  {
  }

  lemma BuiltFits(b: seq<nat>, s: nat, d: seq<nat>, e: seq<nat>, m0: nat, hp0: seq<Huft>, hp: seq<Huft>,
                  hn0: nat, t: nat, m: nat, hn: nat)
    requires Arguments(b, s, d, e) && Built(b, s, d, e, m0, hp0, hp, hn0, t, m, hn)
    ensures hn <= |hp| && m <= BMAX && hn == hn0 + Space(b, m0)
  {
  }

  // ----- tokens in terms of the canonical codes, as section 3.2.5 of RFC 1951 has them

  lemma LiteralEntry(nl: nat, c: seq<nat>, tr: Trees, v: nat, sym: nat)
    requires TwoLists(nl, c) && LiteralsDecode(tr.hp, tr.tl, tr.bl, nl, c)
    requires sym < nl && BeginsWith(c[..nl], sym, v)
    ensures LookUp(tr.hp, tr.tl, tr.bl, v).Found? && LookUp(tr.hp, tr.tl, tr.bl, v).used == c[sym]
    ensures |CopyLengths()| == |LengthExtra()| == 31
    ensures EntryFor(LookUp(tr.hp, tr.tl, tr.bl, v).entry, sym, 257, CopyLengths(), LengthExtra())
  {
    ConstantTables();
    hide CopyLengths, LengthExtra, LookUp, Low, Rev, Code, EntryFor, Shallow;
    assert DecodesTo(tr.hp, tr.tl, tr.bl, v, c[..nl][sym]);
  }

  lemma DistanceEntry(nl: nat, c: seq<nat>, tr: Trees, v: nat, sym: nat)
    requires TwoLists(nl, c) && DistancesDecode(tr.hp, tr.td, tr.bd, nl, c)
    requires nl + sym < |c| && BeginsWith(c[nl..], sym, v)
    ensures LookUp(tr.hp, tr.td, tr.bd, v).Found? && LookUp(tr.hp, tr.td, tr.bd, v).used == c[nl + sym]
    ensures |CopyOffsets()| == |OffsetExtra()| == 30
    ensures EntryFor(LookUp(tr.hp, tr.td, tr.bd, v).entry, sym, 0, CopyOffsets(), OffsetExtra())
  {
    ConstantTables();
    hide CopyOffsets, OffsetExtra, LookUp, Low, Rev, Code, EntryFor, Shallow;
    assert DecodesTo(tr.hp, tr.td, tr.bd, v, c[nl..][sym]);
  }

  /** A stream that begins with the code of a byte is that literal; 256 ends the block. */
  lemma LiteralToken(nl: nat, c: seq<nat>, tr: Trees, v: nat, sym: nat)
    requires TwoLists(nl, c) && LiteralsDecode(tr.hp, tr.tl, tr.bl, nl, c)
    requires sym <= 256 && BeginsWith(c[..nl], sym, v)
    ensures TokenAt(tr, v) == if sym < 256 then Tok(Literal(sym), c[sym]) else EndBlock(c[sym])
  {
    hide CopyLengths, LengthExtra, LookUp, Low, Rev, Code, BeginsWith, LiteralsDecode;
    LiteralEntry(nl, c, tr, v, sym);
  }

  /**
   The code of a length symbol, its extra bits, the code of a distance symbol and its extra bits
   are the match that the rule of section 3.2.5 says.
   */
  lemma MatchToken(nl: nat, c: seq<nat>, tr: Trees, v: nat, sym: nat, dsym: nat)
    requires TwoLists(nl, c) && LiteralsDecode(tr.hp, tr.tl, tr.bl, nl, c)
    requires DistancesDecode(tr.hp, tr.td, tr.bd, nl, c)
    requires 257 <= sym < 286 && sym < nl && nl + dsym < |c|
    requires var v1 := Shr(v, c[sym]);
      && BeginsWith(c[..nl], sym, v)
      && BeginsWith(c[nl..], dsym, Shr(v1, LengthBits(sym - 257)))
    ensures
      var v1 := Shr(v, c[sym]);
      var v2 := Shr(v1, LengthBits(sym - 257));
      var v3 := Shr(v2, c[nl + dsym]);
      TokenAt(tr, v) == Tok(
        Match(LengthBase(sym - 257) + Low(v1, LengthBits(sym - 257)), DistanceBase(dsym) + Low(v3, DistanceBits(dsym))),
        c[sym] + LengthBits(sym - 257) + c[nl + dsym] + DistanceBits(dsym))
  {
    hide CopyLengths, LengthExtra, CopyOffsets, OffsetExtra, LookUp, Low, Shr, Rev, Code, BeginsWith,
         LiteralsDecode, DistancesDecode, Pow2, HasBit, DistPart, EntryFor,
         LengthBits, LengthBase, DistanceBits, DistanceBase;
    LengthTable(sym - 257);
    OffsetTable(dsym);
    LiteralEntry(nl, c, tr, v, sym);
    LengthValue(LookUp(tr.hp, tr.tl, tr.bl, v).entry, sym);
    var get := LengthExtra()[sym - 257];
    var v1 := Shr(v, c[sym]);
    DistanceToken(nl, c, tr, CopyLengths()[sym - 257] + Low(v1, get), Shr(v1, get), c[sym] + get, dsym);
  }

  /** A stream that begins with no code, or with one of the two symbols behind 285, is invalid. */
  lemma InvalidToken(nl: nat, c: seq<nat>, tr: Trees, v: nat)
    requires TwoLists(nl, c) && LiteralsDecode(tr.hp, tr.tl, tr.bl, nl, c)
    requires NoSymbol(c[..nl], v) || exists sym :: 286 <= sym < nl && BeginsWith(c[..nl], sym, v)
    ensures TokenAt(tr, v) == Invalid
  {
    hide CopyLengths, LengthExtra, LookUp, Low, Shr, Rev, Code, BeginsWith, EntryFor;
    MarksNothing();
    if !NoSymbol(c[..nl], v) {
      var sym: nat :| 286 <= sym < nl && BeginsWith(c[..nl], sym, v);
      LiteralEntry(nl, c, tr, v, sym);
      InvalidEntry(LookUp(tr.hp, tr.tl, tr.bl, v).entry, sym);
    }
  }

  lemma InvalidEntry(e: Huft, sym: nat)
    requires 286 <= sym < 288 && |CopyLengths()| == |LengthExtra()| == 31
    requires EntryFor(e, sym, 257, CopyLengths(), LengthExtra())
    ensures e.exop == 192
  {
    LengthsOk(sym - 257);
    hide CopyLengths, LengthExtra;
  }

  lemma MarksNothing()
    ensures !HasBit(192, 16) && !HasBit(192, 32)
  {
  }

  /** A length that is followed by no distance code is invalid. */
  lemma InvalidDistance(nl: nat, c: seq<nat>, tr: Trees, v: nat, sym: nat)
    requires TwoLists(nl, c) && LiteralsDecode(tr.hp, tr.tl, tr.bl, nl, c)
    requires DistancesDecode(tr.hp, tr.td, tr.bd, nl, c)
    requires 257 <= sym < 286 && sym < nl && BeginsWith(c[..nl], sym, v)
    requires NoSymbol(c[nl..], Shr(Shr(v, c[sym]), LengthBits(sym - 257)))
    ensures TokenAt(tr, v) == Invalid
  {
    hide CopyLengths, LengthExtra, CopyOffsets, OffsetExtra, LookUp, Low, Shr, Rev, Code, BeginsWith,
         LiteralsDecode, Pow2, HasBit, EntryFor, NoSymbol, LengthBits, LengthBase;
    LengthTable(sym - 257);
    MarksNothing();
    LiteralEntry(nl, c, tr, v, sym);
    LengthValue(LookUp(tr.hp, tr.tl, tr.bl, v).entry, sym);
  }

  lemma LengthValue(e: Huft, sym: nat)
    requires 257 <= sym < 286 && |CopyLengths()| == |LengthExtra()| == 31
    requires EntryFor(e, sym, 257, CopyLengths(), LengthExtra())
    ensures e.exop != 0 && HasBit(e.exop, 16)
    ensures e.exop % 16 == LengthExtra()[sym - 257] && e.base == CopyLengths()[sym - 257]
  {
    LengthsOk(sym - 257);
    hide CopyLengths, LengthExtra, Pow2;
    assert e.exop == LengthExtra()[sym - 257] + 80;
  }

  lemma DistanceValue(e: Huft, sym: nat)
    requires sym < 30 && |CopyOffsets()| == |OffsetExtra()| == 30
    requires EntryFor(e, sym, 0, CopyOffsets(), OffsetExtra())
    ensures HasBit(e.exop, 16) && e.exop % 16 == OffsetExtra()[sym] && e.base == CopyOffsets()[sym]
  {
    OffsetsOk(sym);
    hide CopyOffsets, OffsetExtra, Pow2;
    assert e.exop == OffsetExtra()[sym] + 80;
  }

  lemma DistanceToken(nl: nat, c: seq<nat>, tr: Trees, len: nat, v: nat, u: nat, dsym: nat)
    requires TwoLists(nl, c) && DistancesDecode(tr.hp, tr.td, tr.bd, nl, c)
    requires nl + dsym < |c| && BeginsWith(c[nl..], dsym, v)
    requires |CopyOffsets()| == |OffsetExtra()| == 30
    ensures DistPart(tr, len, tr.td, tr.bd, v, u) ==
      Tok(Match(len, CopyOffsets()[dsym] + Low(Shr(v, c[nl + dsym]), OffsetExtra()[dsym])),
          u + c[nl + dsym] + OffsetExtra()[dsym])
  {
    hide CopyOffsets, OffsetExtra, LookUp, Low, Shr, Rev, Code, BeginsWith, DistancesDecode, Pow2, HasBit, EntryFor;
    DistanceEntry(nl, c, tr, v, dsym);
    DistanceValue(LookUp(tr.hp, tr.td, tr.bd, v).entry, dsym);
  }
}
