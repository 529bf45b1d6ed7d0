/**
 The states of inflate_codes, and what each of them knows about the token being decoded and the
 output so far.  Every transition of the source is a lemma here on plain values.
 */
module InflateMachine {
  import opened Bits
  import opened Canonical
  import opened HuffmanTables
  import opened Window
  import opened BitReader
  import opened InflateSpec

  /** inflate_codes_mode with the fields each mode uses. */
  datatype Mode =
    | Start
    | Len(tree: nat, need: nat)
    | LenExt(len: nat, get: nat)
    | Dist(len: nat, tree: nat, need: nat)
    | DistExt(len: nat, dist: nat, get: nat)
    | Copy(len: nat, dist: nat)
    | Lit(lit: nat)
    | Wash
    | End
    | BadCode

  /** Where decoding is in terms of the meaning of the block, not of its buffers. */
  datatype Progress = Progress(
    origin: nat,          // the bit where the codes of the block start
    base: seq<Byte>,      // the window and output before the block
    toks: seq<Token>,     // the tokens decoded and written out
    at: nat)              // the bit where the token being decoded starts

  ghost predicate ProgressOk(tr: Trees, src: seq<Byte>, g: Progress) {
    && |g.base| >= WSIZE
    && (forall i :: 0 <= i < |g.toks| ==> TokenOk(g.toks[i]))
    && Spells(tr, src, g.origin, g.toks, g.at)
  }

  /** The output up to the token being decoded. */
  ghost function Before(g: Progress): seq<Byte>
    requires |g.base| >= WSIZE && forall i :: 0 <= i < |g.toks| ==> TokenOk(g.toks[i])
  {
    Expand(g.base, g.toks)
  }

  /** The token being decoded. */
  ghost function Current(tr: Trees, src: seq<Byte>, g: Progress): Spelled {
    TokenAt(tr, From(src, g.at))
  }

  /** In each mode, going on from here spells the current token, and the output is as far as it. */
  ghost predicate ModeOk(tr: Trees, src: seq<Byte>, g: Progress, mode: Mode, pos: nat, ext: seq<Byte>)
    requires ProgressOk(tr, src, g) && g.at <= pos
  {
    var v, u, want := From(src, pos), pos - g.at, Current(tr, src, g);
    match mode
    case Start => u == 0 && ext == Before(g)
    case Len(tree, need) =>
      ext == Before(g) && need <= BMAX && LenPart(tr, tree, need, v, u) == want
      && GoodLen(LookUp(tr.hp, tree, need, v), BMAX) && DistancesFor(tr, LookUp(tr.hp, tree, need, v).entry)
    case LenExt(len, get) =>
      ext == Before(g) && LenOk(len, get) && GoodDistances(tr) && LenExtra(tr, len, get, v, u) == want
    case Dist(len, tree, need) =>
      ext == Before(g) && 3 <= len <= 258 && need <= BMAX && DistPart(tr, len, tree, need, v, u) == want
      && GoodDist(LookUp(tr.hp, tree, need, v), BMAX)
    case DistExt(len, dist, get) =>
      ext == Before(g) && 3 <= len <= 258 && DistOk(dist, get) && DistExtra(len, dist, get, v, u) == want
    case Copy(len, dist) =>
      want.Tok? && want.used == u && want.token.Match? && want.token.dist == dist && TokenOk(want.token)
      && len <= want.token.len && ext == CopyBack(Before(g), dist, want.token.len - len)
    case Lit(x) => ext == Before(g) && x < 256 && want == Tok(Literal(x), u)
    case Wash => ext == Before(g) && want == EndBlock(u)
    case End => ext == Before(g) && want == EndBlock(u)
    case BadCode => ext == Before(g) && want == Invalid
  }

  ghost predicate DistancesFor(tr: Trees, e: Huft) {
    HasBit(e.exop, 16) ==> GoodDistances(tr)
  }

  ghost predicate At(tr: Trees, src: seq<Byte>, g: Progress, mode: Mode, pos: nat, ext: seq<Byte>) {
    GoodTrees(tr) && ProgressOk(tr, src, g) && g.at <= pos && ModeOk(tr, src, g, mode, pos, ext)
  }

  // ----- the transitions

  lemma StartToLen(tr: Trees, src: seq<Byte>, g: Progress, pos: nat, ext: seq<Byte>)
    requires At(tr, src, g, Start, pos, ext)
    ensures At(tr, src, g, Len(tr.tl, tr.bl), pos, ext)
  {
    hide LookUp, Spells, Expand, From;
    assert GoodLen(LookUp(tr.hp, tr.tl, tr.bl, From(src, pos)), BMAX);
  }

  /** The mode after the entry `e` at `a` in the literal/length tree. */
  function AfterLen(a: nat, e: Huft): Mode {
    if e.exop == 0 then Lit(e.base)
    else if HasBit(e.exop, 16) then LenExt(e.base, e.exop % 16)
    else if !HasBit(e.exop, 64) then Len(a + e.base, e.exop)
    else if HasBit(e.exop, 32) then Wash
    else BadCode
  }

  /** One level of a lookup that succeeds. */
  lemma OneLevel(hp: seq<Huft>, tree: nat, need: nat, v: nat)
    requires LookUp(hp, tree, need, v).Found?
    ensures tree + Low(v, need) < |hp|
    ensures var a := tree + Low(v, need);
      var e := hp[a];
      && 1 <= e.bits <= need
      && if !IsLink(e.exop) then LookUp(hp, tree, need, v) == Found(e, e.bits)
         else
           var f := LookUp(hp, a + e.base, e.exop, Shr(v, e.bits));
           f.Found? && e.exop <= BMAX && LookUp(hp, tree, need, v) == Found(f.entry, e.bits + f.used)
  {
  }

  lemma LinkBits(exop: nat)
    requires IsLink(exop)
    ensures exop != 0 && !HasBit(exop, 16) && !HasBit(exop, 64)
  {
  }

  lemma LenStep(tr: Trees, src: seq<Byte>, g: Progress, tree: nat, need: nat, pos: nat, ext: seq<Byte>)
    requires At(tr, src, g, Len(tree, need), pos, ext)
    ensures need <= BMAX && tree + Low(From(src, pos), need) < |tr.hp|
    ensures var a := tree + Low(From(src, pos), need);
      var e := tr.hp[a];
      && 1 <= e.bits <= need
      && At(tr, src, g, AfterLen(a, e), pos + e.bits, ext)
  {
    hide LookUp, Spells, Expand, From, Low, Shr, Pow2, GoodTrees, GoodDistances, HasBit, IsLink, LenExtra;
    var v := From(src, pos);
    OneLevel(tr.hp, tree, need, v);
    var a := tree + Low(v, need);
    var e := tr.hp[a];
    FromFrom(src, pos, e.bits);
    if IsLink(e.exop) {
      LinkBits(e.exop);
      UsesBits(tr.hp, a + e.base, e.exop, Shr(v, e.bits));
      ShrMore(v, e.bits, LookUp(tr.hp, tree, need, v));
    } else {
      BitsOfLen(e);
      if !HasBit(e.exop, 16) { NoLinkBits(e.exop); }
    }
  }

  lemma InvalidIs64(e: Huft)
    requires GoodDistEntry(e) && !HasBit(e.exop, 16)
    ensures HasBit(e.exop, 64)
  {
  }

  lemma NoLinkBits(exop: nat)
    requires !IsLink(exop) && !HasBit(exop, 16)
    ensures exop == 0 || HasBit(exop, 64)
  {
  }

  lemma ShrMore(v: nat, n: nat, f: Lookup)
    requires f.Found? && f.used >= n
    ensures Shr(Shr(v, n), f.used - n) == Shr(v, f.used)
  {
    ShrShr(v, n, f.used - n);
  }

  lemma LenExtStep(tr: Trees, src: seq<Byte>, g: Progress, len: nat, get: nat, pos: nat, ext: seq<Byte>)
    requires At(tr, src, g, LenExt(len, get), pos, ext)
    ensures get <= 5 && At(tr, src, g, Dist(len + Low(From(src, pos), get), tr.td, tr.bd), pos + get, ext)
  {
    FromFrom(src, pos, get);
    hide LookUp, Spells, Expand, From, Low, Shr, Pow2, GoodTrees;
    assert GoodDist(LookUp(tr.hp, tr.td, tr.bd, From(src, pos + get)), BMAX);
  }

  /** The mode after the entry `e` at `a` in the distance tree. */
  function AfterDist(len: nat, a: nat, e: Huft): Mode {
    if HasBit(e.exop, 16) then DistExt(len, e.base, e.exop % 16)
    else if !HasBit(e.exop, 64) then Dist(len, a + e.base, e.exop)
    else BadCode
  }

  lemma DistStep(tr: Trees, src: seq<Byte>, g: Progress, len: nat, tree: nat, need: nat, pos: nat, ext: seq<Byte>)
    requires At(tr, src, g, Dist(len, tree, need), pos, ext)
    ensures need <= BMAX && tree + Low(From(src, pos), need) < |tr.hp|
    ensures var a := tree + Low(From(src, pos), need);
      var e := tr.hp[a];
      && 1 <= e.bits <= need
      && At(tr, src, g, AfterDist(len, a, e), pos + e.bits, ext)
      && (AfterDist(len, a, e).Dist? ==> IsLink(e.exop))
  {
    hide LookUp, Spells, Expand, From, Low, Shr, Pow2, GoodTrees, GoodDistances, HasBit, IsLink, DistExtra;
    var v := From(src, pos);
    OneLevel(tr.hp, tree, need, v);
    var a := tree + Low(v, need);
    var e := tr.hp[a];
    FromFrom(src, pos, e.bits);
    if IsLink(e.exop) {
      LinkBits(e.exop);
      UsesBits(tr.hp, a + e.base, e.exop, Shr(v, e.bits));
      ShrMore(v, e.bits, LookUp(tr.hp, tree, need, v));
    } else {
      BitsOfDist(e);
      if !HasBit(e.exop, 16) { NoLinkBits(e.exop); InvalidIs64(e); }
    }
  }

  lemma DistExtStep(tr: Trees, src: seq<Byte>, g: Progress, len: nat, dist: nat, get: nat, pos: nat, ext: seq<Byte>)
    requires At(tr, src, g, DistExt(len, dist, get), pos, ext)
    ensures get <= 13
    ensures At(tr, src, g, Copy(len, dist + Low(From(src, pos), get)), pos + get, ext)
  {
    hide LookUp, Spells, Expand, From, Low, Shr, Pow2, GoodTrees;
    NoCopy(Before(g), dist + Low(From(src, pos), get));
  }

  lemma CopyStep(tr: Trees, src: seq<Byte>, g: Progress, len: nat, dist: nat, n: nat, pos: nat, ext: seq<Byte>, ext': seq<Byte>)
    requires At(tr, src, g, Copy(len, dist), pos, ext) && n <= len
    requires |ext| >= WSIZE && 1 <= dist <= WSIZE && ext' == CopyBack(ext, dist, n)
    ensures At(tr, src, g, Copy(len - n, dist), pos, ext')
  {
    hide LookUp, Spells, Expand, From, GoodTrees, TokenAt, CopyBack;
    CopyBackAdd(Before(g), dist, Current(tr, src, g).token.len - len, n);
  }

  lemma CopyArgs(tr: Trees, src: seq<Byte>, g: Progress, len: nat, dist: nat, pos: nat, ext: seq<Byte>)
    requires At(tr, src, g, Copy(len, dist), pos, ext)
    ensures 1 <= dist <= WSIZE <= |ext| && len <= 258
  {
    hide Spells, Expand, From, GoodTrees, TokenAt;
  }

  /** The progress when the current token is done. */
  ghost function Done(tr: Trees, src: seq<Byte>, g: Progress): Progress {
    var t := Current(tr, src, g);
    if t.Tok? then g.(toks := g.toks + [t.token], at := g.at + t.used) else g
  }

  lemma CopyDone(tr: Trees, src: seq<Byte>, g: Progress, dist: nat, pos: nat, ext: seq<Byte>)
    requires At(tr, src, g, Copy(0, dist), pos, ext)
    ensures At(tr, src, Done(tr, src, g), Start, pos, ext)
  {
    hide LookUp, Spells, Expand, From, GoodTrees, TokenAt;
    var t := Current(tr, src, g);
    SpellsMore(tr, src, g.origin, g.toks, g.at, t.token, t.used);
    ExpandMore(g.base, g.toks, t.token);
  }

  lemma LitDone(tr: Trees, src: seq<Byte>, g: Progress, x: nat, pos: nat, ext: seq<Byte>)
    requires At(tr, src, g, Lit(x), pos, ext)
    ensures x < 256 && At(tr, src, Done(tr, src, g), Start, pos, ext + [x])
  {
    hide LookUp, Spells, Expand, From, GoodTrees, TokenAt;
    var t := Current(tr, src, g);
    SpellsMore(tr, src, g.origin, g.toks, g.at, t.token, t.used);
    ExpandMore(g.base, g.toks, t.token);
  }

  // ----- how far the fast path looks

  lemma ShallowStart(tr: Trees, v: nat)
    requires GoodTrees(tr)
    ensures Shallow(tr.hp, tr.tl, tr.bl, v, BMAX)
    ensures GoodDistances(tr) ==> Shallow(tr.hp, tr.td, tr.bd, v, BMAX)
  {
  }

  /** Going one level down leaves that much less to look at. */
  lemma ShallowStep(hp: seq<Huft>, tree: nat, need: nat, v: nat, budget: int)
    requires Shallow(hp, tree, need, v, budget) && tree + Low(v, need) < |hp|
    requires LookUp(hp, tree, need, v).Found?
    ensures var a := tree + Low(v, need);
      var e := hp[a];
      && need <= budget && e.bits <= budget
      && (IsLink(e.exop) ==> Shallow(hp, a + e.base, e.exop, Shr(v, e.bits), budget - e.bits))
  {
  }

  lemma LenFound(tr: Trees, src: seq<Byte>, g: Progress, tree: nat, need: nat, pos: nat, ext: seq<Byte>)
    requires At(tr, src, g, Len(tree, need), pos, ext)
    ensures LookUp(tr.hp, tree, need, From(src, pos)).Found?
  {
    hide Spells, Expand, From, GoodTrees, TokenAt, LookUp;
  }

  lemma DistFound(tr: Trees, src: seq<Byte>, g: Progress, len: nat, tree: nat, need: nat, pos: nat, ext: seq<Byte>)
    requires At(tr, src, g, Dist(len, tree, need), pos, ext)
    ensures LookUp(tr.hp, tree, need, From(src, pos)).Found? && 3 <= len <= 258
  {
    hide Spells, Expand, From, GoodTrees, TokenAt, LookUp;
  }

  lemma LenExtHasDistances(tr: Trees, src: seq<Byte>, g: Progress, len: nat, get: nat, pos: nat, ext: seq<Byte>)
    requires At(tr, src, g, LenExt(len, get), pos, ext)
    ensures GoodTrees(tr) && GoodDistances(tr) && get <= 5
  {
    hide Spells, Expand, From, GoodTrees, TokenAt, LookUp, GoodDistances;
  }

  lemma TreesGood(tr: Trees, src: seq<Byte>, g: Progress, mode: Mode, pos: nat, ext: seq<Byte>)
    requires At(tr, src, g, mode, pos, ext)
    ensures GoodTrees(tr)
  {
  }

  // ----- what it adds up to

  /**
   However input and output were cut into pieces, a block that has been decoded to its end has
   given the bytes its tokens stand for and consumed exactly the bits that spell them.
   */
  lemma EndIsDetermined(tr: Trees, src: seq<Byte>, g: Progress, pos: nat, ext: seq<Byte>,
                        g': Progress, pos': nat, ext': seq<Byte>)
    requires At(tr, src, g, End, pos, ext) && At(tr, src, g', End, pos', ext')
    requires g'.origin == g.origin && g'.base == g.base
    ensures g' == g && pos' == pos && ext' == ext
    ensures ext == Expand(g.base, g.toks) && Spells(tr, src, g.origin, g.toks, g.at)
    ensures TokenAt(tr, From(src, g.at)) == EndBlock(pos - g.at)
  {
    hide LookUp, Spells, Expand, From, GoodTrees, TokenAt;
    SpellsOnce(tr, src, g.origin, g.toks, g.at, g'.toks, g'.at);
  }

  /** At every moment the output is the meaning of the tokens so far and a part of the next one. */
  lemma OutputIsMeaning(tr: Trees, src: seq<Byte>, g: Progress, mode: Mode, pos: nat, ext: seq<Byte>)
    requires At(tr, src, g, mode, pos, ext)
    ensures Before(g) <= ext
    ensures mode.Copy? && TokenAt(tr, From(src, g.at)).Tok? ==>
      TokenOk(TokenAt(tr, From(src, g.at)).token) && ext <= Apply(Before(g), TokenAt(tr, From(src, g.at)).token)
    ensures !mode.Copy? ==> ext == Before(g)
  {
    hide LookUp, Spells, Expand, From, GoodTrees, TokenAt, CopyBack;
    if mode.Copy? {
      var t := Current(tr, src, g).token;
      CopyBackAdd(Before(g), t.dist, t.len - mode.len, mode.len);
    }
  }
}
