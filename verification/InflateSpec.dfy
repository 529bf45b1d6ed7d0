/**
 What a block of compressed data means: the literals and length/distance pairs its codes spell,
 and the output they stand for.  Nothing here knows about buffers or about input that arrives in
 pieces.
 */
module InflateSpec {
  import opened Bits
  import opened Canonical
  import opened HuffmanTables
  import opened Window
  import opened BitReader

  /** The two trees of a block and how many bits index their first tables. */
  datatype Trees = Trees(hp: seq<Huft>, tl: nat, bl: nat, td: nat, bd: nat)

  datatype Token = Literal(x: nat) | Match(len: nat, dist: nat)

  datatype Spelled = Tok(token: Token, used: nat) | EndBlock(used: nat) | Invalid

  /** The distance part of a token, after `u` bits of it. */
  function DistPart(tr: Trees, len: nat, tree: nat, need: nat, v: nat, u: nat): Spelled {
    match LookUp(tr.hp, tree, need, v)
    case Found(e, n) =>
      if HasBit(e.exop, 16) then DistExtra(len, e.base, e.exop % 16, Shr(v, n), u + n) else Invalid
    case Lost => Invalid
  }

  function DistExtra(len: nat, dist: nat, get: nat, v: nat, u: nat): Spelled {
    Tok(Match(len, dist + Low(v, get)), u + get)
  }

  function LenExtra(tr: Trees, len: nat, get: nat, v: nat, u: nat): Spelled {
    DistPart(tr, len + Low(v, get), tr.td, tr.bd, Shr(v, get), u + get)
  }

  /** What an entry of the literal/length tree stands for. */
  function LenEntry(tr: Trees, e: Huft, v: nat, u: nat): Spelled {
    if e.exop == 0 then Tok(Literal(e.base), u)
    else if HasBit(e.exop, 16) then LenExtra(tr, e.base, e.exop % 16, v, u)
    else if HasBit(e.exop, 32) then EndBlock(u)
    else Invalid
  }

  function LenPart(tr: Trees, tree: nat, need: nat, v: nat, u: nat): Spelled {
    match LookUp(tr.hp, tree, need, v)
    case Found(e, n) => LenEntry(tr, e, Shr(v, n), u + n)
    case Lost => Invalid
  }

  /** The token that the stream `v` begins with. */
  function TokenAt(tr: Trees, v: nat): Spelled {
    LenPart(tr, tr.tl, tr.bl, v, 0)
  }

  /** The input spells the tokens from bit `pos` up to bit `end`. */
  ghost predicate Spells(tr: Trees, src: seq<Byte>, pos: nat, toks: seq<Token>, end: nat)
    decreases |toks|
  {
    if toks == [] then pos == end
    else
      var t := TokenAt(tr, From(src, pos));
      t.Tok? && t.token == toks[0] && Spells(tr, src, pos + t.used, toks[1..], end)
  }

  ghost predicate TokenOk(t: Token) {
    match t
    case Literal(x) => x < 256
    case Match(len, dist) => 3 <= len <= 258 && 1 <= dist <= WSIZE
  }

  /** What a token adds to the bytes before it. */
  ghost function Apply(s: seq<Byte>, t: Token): (r: seq<Byte>)
    requires |s| >= WSIZE && TokenOk(t)
    ensures |r| > |s| && r[..|s|] == s
  {
    match t
    case Literal(x) => s + [x]
    case Match(len, dist) => CopyBack(s, dist, len)
  }

  /** The bytes that tokens stand for, after what the window held before them. */
  ghost function Expand(s: seq<Byte>, toks: seq<Token>): (r: seq<Byte>)
    requires |s| >= WSIZE && forall i :: 0 <= i < |toks| ==> TokenOk(toks[i])
    ensures |r| >= |s| && r[..|s|] == s
    decreases |toks|
  {
    if toks == [] then s
    else
      var before := Expand(s, toks[..|toks| - 1]);
      var r := Apply(before, toks[|toks| - 1]);
      assert r[..|before|] == before && before[..|s|] == r[..|before|][..|s|];
      r
  }

  lemma {:induction false} SpellsMore(tr: Trees, src: seq<Byte>, pos: nat, toks: seq<Token>, end: nat, t: Token, used: nat)
    requires Spells(tr, src, pos, toks, end) && TokenAt(tr, From(src, end)) == Tok(t, used)
    ensures Spells(tr, src, pos, toks + [t], end + used)
    decreases |toks|
  {
    var all := toks + [t];
    if toks == [] {
      assert all[1..] == [];
    } else {
      var first := TokenAt(tr, From(src, pos));
      SpellsMore(tr, src, pos + first.used, toks[1..], end, t, used);
      assert all[1..] == toks[1..] + [t];
    }
  }

  lemma ExpandMore(s: seq<Byte>, toks: seq<Token>, t: Token)
    requires |s| >= WSIZE && (forall i :: 0 <= i < |toks| ==> TokenOk(toks[i])) && TokenOk(t)
    ensures Expand(s, toks + [t]) == Apply(Expand(s, toks), t)
  {
    assert (toks + [t])[..|toks|] == toks;
  }

  /** The end of a block and everything before it are determined by the input alone. */
  lemma {:induction false} SpellsOnce(tr: Trees, src: seq<Byte>, pos: nat,
                                      toks: seq<Token>, end: nat, toks': seq<Token>, end': nat)
    requires Spells(tr, src, pos, toks, end) && TokenAt(tr, From(src, end)).EndBlock?
    requires Spells(tr, src, pos, toks', end') && TokenAt(tr, From(src, end')).EndBlock?
    ensures toks == toks' && end == end'
    decreases |toks|
  {
    if toks == [] {
      assert toks' == [];
    } else {
      var t := TokenAt(tr, From(src, pos));
      assert toks' != [];
      SpellsOnce(tr, src, pos + t.used, toks[1..], end, toks'[1..], end');
      assert toks == [toks[0]] + toks[1..];
      assert toks' == [toks'[0]] + toks'[1..];
    }
  }

  // ----- trees that inflate can work with

  /** A length entry: three to 258 bytes with the extra bits. */
  ghost predicate LenOk(base: nat, get: nat) {
    get <= 5 && 3 <= base && base + Pow2(get) <= 259
  }

  ghost predicate DistOk(base: nat, get: nat) {
    get <= 13 && 1 <= base && base + Pow2(get) <= WSIZE + 1
  }

  ghost predicate GoodLenEntry(e: Huft) {
    || (e.exop == 0 && e.base < 256)
    || e.exop == 96 || e.exop == 192
    || (80 <= e.exop <= 85 && LenOk(e.base, e.exop - 80))
  }

  ghost predicate GoodDistEntry(e: Huft) {
    e.exop == 192 || (80 <= e.exop <= 93 && DistOk(e.base, e.exop - 80))
  }

  ghost predicate GoodLen(f: Lookup, bound: nat) {
    f.Found? && 1 <= f.used <= bound && GoodLenEntry(f.entry)
  }

  ghost predicate GoodDist(f: Lookup, bound: nat) {
    f.Found? && 1 <= f.used <= bound && GoodDistEntry(f.entry)
  }

  ghost predicate GoodDistances(tr: Trees) {
    && tr.bd <= BMAX
    && (forall v: nat :: GoodDist(LookUp(tr.hp, tr.td, tr.bd, v), BMAX) && Shallow(tr.hp, tr.td, tr.bd, v, BMAX))
  }

  /** Every stream finds a sensible entry, and lengths come with a distance tree. */
  ghost predicate GoodTrees(tr: Trees) {
    && tr.bl <= BMAX
    && (forall v: nat :: GoodLen(LookUp(tr.hp, tr.tl, tr.bl, v), BMAX) && Shallow(tr.hp, tr.tl, tr.bl, v, BMAX))
    && (GoodDistances(tr) || forall v: nat :: !HasBit(LookUp(tr.hp, tr.tl, tr.bl, v).entry.exop, 16))
  }

  lemma BitsOfLen(e: Huft)
    requires GoodLenEntry(e)
    ensures HasBit(e.exop, 16) <==> 80 <= e.exop <= 85
    ensures HasBit(e.exop, 16) ==> e.exop % 16 == e.exop - 80
    ensures HasBit(e.exop, 32) <==> e.exop == 96
  {
  }

  lemma BitsOfDist(e: Huft)
    requires GoodDistEntry(e)
    ensures HasBit(e.exop, 16) <==> 80 <= e.exop <= 93
    ensures HasBit(e.exop, 16) ==> e.exop % 16 == e.exop - 80
  {
  }

  /** Every token of good trees is in range. */
  lemma TokensAreOk(tr: Trees, v: nat)
    requires GoodTrees(tr)
    ensures TokenAt(tr, v).Tok? ==> TokenOk(TokenAt(tr, v).token)
  {
    hide Low, Shr, Pow2, LookUp;
    var f := LookUp(tr.hp, tr.tl, tr.bl, v);
    assert GoodLen(f, BMAX);
    var e := f.entry;
    BitsOfLen(e);
    if HasBit(e.exop, 16) {
      var w := Shr(v, f.used);
      var get := e.exop % 16;
      var d := LookUp(tr.hp, tr.td, tr.bd, Shr(w, get));
      assert GoodDist(d, BMAX);
      BitsOfDist(d.entry);
    }
  }
}
