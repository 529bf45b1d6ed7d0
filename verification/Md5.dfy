/**
 The streaming part of MD5Checksum.cpp: Update and Final, for any block function. The padded message
 is that of sections 3.1 and 3.2 of RFC 1321, and the output that of section 3.5.
 */
module Md5 {
  import opened Bits

  const W: nat := 0x1_0000_0000

  type Word = w: nat | w < W

  datatype Words = Words(a: Word, b: Word, c: Word, d: Word)

  type BlockFunction = (Words, seq<Byte>) -> Words

  const Initial: Words := Words(0x67452301, 0xefcdab89, 0x98badcfe, 0x10325476)

  // ----- the reference: one pass over the whole message

  ghost predicate Aligned(n: nat) {
    n % 64 == 0
  }

  ghost function Chain(f: BlockFunction, s: Words, data: seq<Byte>): Words
    requires Aligned(|data|)
    decreases |data|
  {
    if data == [] then s else Chain(f, f(s, data[..64]), data[64..])
  }

  lemma {:induction false} ChainAppend(f: BlockFunction, s: Words, x: seq<Byte>, y: seq<Byte>)
    requires Aligned(|x|) && Aligned(|y|)
    ensures Chain(f, s, x + y) == Chain(f, Chain(f, s, x), y)
    decreases |x|
  {
    if x == [] {
      assert x + y == y;
    } else {
      assert (x + y)[..64] == x[..64] && (x + y)[64..] == x[64..] + y;
      ChainAppend(f, f(s, x[..64]), x[64..], y);
    }
  }

  lemma ChainBlock(f: BlockFunction, s: Words, b: seq<Byte>)
    requires |b| == 64
    ensures Chain(f, s, b) == f(s, b)
  {
    assert b[..64] == b && b[64..] == [];
    assert Chain(f, f(s, b), []) == f(s, b);
  }

  /** Little-endian bytes of a word. */
  function Bytes4(w: Word): (r: seq<Byte>)
    ensures |r| == 4
  {
    [w % 256, w / 256 % 256, w / 0x1_0000 % 256, w / 0x100_0000]
  }

  function Zeros(n: nat): (r: seq<Byte>)
    ensures |r| == n
  {
    seq(n, i => 0)
  }

  /** The number of padding bytes: one to sixty-four, to 56 modulo 64. */
  function PadLength(n: nat): (k: nat)
    ensures 1 <= k <= 64 && (n + k) % 64 == 56
  {
    if n % 64 < 56 then 56 - n % 64 else 120 - n % 64
  }

  function Padding(n: nat): (r: seq<Byte>)
    ensures |r| == PadLength(n)
  {
    [0x80] + Zeros(PadLength(n) - 1)
  }

  /** A length in bits modulo 2^64, low word first. */
  function Trailer(n: nat): (r: seq<Byte>)
    ensures |r| == 8
  {
    Bytes4(8 * n % W) + Bytes4(8 * n / W % W)
  }

  function Padded(msg: seq<Byte>): (r: seq<Byte>)
    ensures Aligned(|r|)
  {
    var n := |msg| + PadLength(|msg|);
    assert (n + 8) % 64 == 0;
    msg + Padding(|msg|) + Trailer(|msg|)
  }

  ghost function Digest(f: BlockFunction, msg: seq<Byte>): seq<Byte> {
    var s := Chain(f, Initial, Padded(msg));
    Bytes4(s.a) + Bytes4(s.b) + Bytes4(s.c) + Bytes4(s.d)
  }

  // ----- what the bytes of the padded message and of the digest are

  /** Bytes read as a number, low byte first. */
  function Number(b: seq<Byte>): nat {
    if b == [] then 0 else b[0] + 256 * Number(b[1..])
  }

  function Pow256(k: nat): (p: nat)
    ensures p > 0
  {
    if k == 0 then 1 else 256 * Pow256(k - 1)
  }

  lemma Number4(b: seq<Byte>, rest: seq<Byte>)
    requires |b| == 4
    ensures var b0: nat, b1: nat, b2: nat, b3: nat := b[0], b[1], b[2], b[3];
      Number(b + rest) == b0 + 256 * b1 + 0x1_0000 * b2 + 0x100_0000 * b3 + W * Number(rest)
  {
    var s := b + rest;
    assert s[1..][1..] == s[2..] && s[2..][1..] == s[3..] && s[3..][1..] == rest;
    assert Number(s[3..]) == s[3] + 256 * Number(rest);
    assert Number(s[2..]) == s[2] + 256 * Number(s[3..]);
    assert Number(s[1..]) == s[1] + 256 * Number(s[2..]);
  }

  /** A word comes out low byte first: reading it back so gives the word, and byte k has the weight 256^k. */
  lemma Bytes4Is(w: Word)
    ensures Number(Bytes4(w)) == w
    ensures forall k :: 0 <= k < 4 ==> Bytes4(w)[k] == w / Pow256(k) % 256
  {
    Number4(Bytes4(w), []);
    assert Bytes4(w) + [] == Bytes4(w);
    assert w == w % 256 + 256 * (w / 256) && w / 256 / 256 == w / 0x1_0000 && w / 0x1_0000 / 256 == w / 0x100_0000;
    assert Pow256(1) == 256 && Pow256(2) == 0x1_0000 && Pow256(3) == 0x100_0000;
  }

  /** The trailer is the length in bits modulo 2^64, low byte first. */
  lemma TrailerIs(n: nat)
    ensures Number(Trailer(n)) == 8 * n % (W * W)
  {
    hide Number, Bytes4;
    var lo, hi := 8 * n % W, 8 * n / W % W;
    Bytes4Is(lo);
    Bytes4Is(hi);
    Number4(Bytes4(lo), []);
    Number4(Bytes4(lo), Bytes4(hi));
    assert Bytes4(lo) + [] == Bytes4(lo);
    TwoWords(8 * n);
  }

  lemma TwoWords(x: nat)
    ensures x % (W * W) == x % W + W * (x / W % W)
  {
    var q := x / W;
    assert x == x % W + W * (q % W) + W * W * (q / W);
  }

  /** Padding by sections 3.1 and 3.2 of RFC 1321: a one bit, zeros up to 56 modulo 64, and the length in bits. */
  lemma PaddedParts(msg: seq<Byte>)
    ensures var p, n := Padded(msg), |msg|;
      && |p| % 64 == 0 && n + 9 <= |p| < n + 9 + 64
      && p[..n] == msg && p[n] == 0x80 && (forall i :: n < i < |p| - 8 ==> p[i] == 0)
      && Number(p[|p| - 8..]) == 8 * n % (W * W)
  {
    hide Number, Trailer;
    TrailerIs(|msg|);
    var p := Padded(msg);
    assert p[|p| - 8..] == Trailer(|msg|);
  }

  /** The words of the state start as section 3.3 of RFC 1321 lists their bytes, low byte first. */
  lemma InitialBytes()
    ensures Bytes4(Initial.a) == [0x01, 0x23, 0x45, 0x67] && Bytes4(Initial.b) == [0x89, 0xab, 0xcd, 0xef]
    ensures Bytes4(Initial.c) == [0xfe, 0xdc, 0xba, 0x98] && Bytes4(Initial.d) == [0x76, 0x54, 0x32, 0x10]
  {
  }

  /** The words of the state in the order in which they come out. */
  function WordAt(s: Words, i: nat): Word
    requires i < 4
  {
    if i == 0 then s.a else if i == 1 then s.b else if i == 2 then s.c else s.d
  }

  /** Byte 4 i + k of the digest is byte k of word i of the last state. */
  lemma DigestBytes(f: BlockFunction, msg: seq<Byte>, i: nat, k: nat)
    requires i < 4 && k < 4
    ensures |Digest(f, msg)| == 16
    ensures Digest(f, msg)[4 * i + k] == WordAt(Chain(f, Initial, Padded(msg)), i) / Pow256(k) % 256
  {
    hide Bytes4, Padded, Pow256, Chain;
    var s := Chain(f, Initial, Padded(msg));
    assert Digest(f, msg)[4 * i + k] == Bytes4(WordAt(s, i))[k];
    Bytes4Is(WordAt(s, i));
  }

  // ----- the bit counter

  /** The two counter words hold the length in bits modulo 2^64. */
  ghost predicate CountsBits(lo: Word, hi: Word, n: nat) {
    exists k: nat :: lo + hi * W + k * (W * W) == 8 * n
  }

  lemma {:induction false} Unique(lo: nat, hi: nat, k: nat, n: nat)
    requires lo < W && hi < W && lo + hi * W + k * (W * W) == n
    ensures lo == n % W && hi == n / W % W
  {
    assert n == lo + W * (hi + W * k);
    DivMod(lo, hi + W * k);
    DivMod(hi, k);
  }

  lemma DivMod(r: nat, q: nat)
    requires r < W
    ensures (r + W * q) % W == r && (r + W * q) / W == q
  {
  }

  /** The split addition: the low word, its carry, and the bits shifted out of the length. */
  function AddLow(lo: Word, len: nat): Word {
    (lo + len * 8 % W) % W
  }

  function AddHigh(lo: Word, hi: Word, len: nat): Word {
    var carried := if AddLow(lo, len) < len * 8 % W then (hi + 1) % W else hi;
    (carried + len / 0x2000_0000) % W
  }

  lemma CountMore(lo: Word, hi: Word, n: nat, len: nat)
    requires CountsBits(lo, hi, n) && len < W
    ensures CountsBits(AddLow(lo, len), AddHigh(lo, hi, len), n + len)
  {
    var k: nat :| lo + hi * W + k * (W * W) == 8 * n;
    var a, b := len * 8 % W, len / 0x2000_0000;
    assert len * 8 == a + b * W;
    var carry := if lo + a >= W then 1 else 0;
    assert AddLow(lo, len) == lo + a - carry * W;
    var total := hi + carry + b;
    var over := if total >= W then 1 else 0;
    assert total < 2 * W;
    HighIs(lo, hi, len, carry);
    assert AddLow(lo, len) + AddHigh(lo, hi, len) * W + (k + over) * (W * W) == 8 * (n + len);
  }

  lemma HighIs(lo: Word, hi: Word, len: nat, carry: nat)
    requires len < W && carry == if lo + len * 8 % W >= W then 1 else 0
    ensures var total := hi + carry + len / 0x2000_0000;
      AddHigh(lo, hi, len) == if total >= W then total - W else total
  {
  }

  /** The buffer index comes from the low word alone. */
  lemma IndexIs(lo: Word, hi: Word, n: nat)
    requires CountsBits(lo, hi, n)
    ensures lo / 8 % 64 == n % 64
  {
    var k: nat :| lo + hi * W + k * (W * W) == 8 * n;
    var q := hi + k * W;
    assert lo + q * W == 8 * n;
    assert lo == 8 * (n - q * 0x2000_0000);
    assert n == lo / 8 + 64 * (q * 0x80_0000);
    Mod64(lo / 8, q * 0x80_0000);
  }

  lemma Mod64(x: nat, q: nat)
    ensures (x + 64 * q) % 64 == x % 64
  {
  }

  // ----- the object

  /** The bytes of the last, incomplete block. */
  function Rest(n: nat): nat {
    n % 64
  }

  lemma Whole(n: nat)
    ensures Rest(n) <= n && Aligned(n - Rest(n)) && Rest(n) < 64
  {
  }

  lemma RestIs(n: nat, k: nat)
    requires k <= n && Aligned(n - k) && k < 64
    ensures Rest(n) == k
  {
  }

  /** State and buffer after the message: whole blocks are chained, the rest is buffered. */
  ghost predicate Absorbed(f: BlockFunction, state: Words, buffered: seq<Byte>, msg: seq<Byte>) {
    && |buffered| <= |msg| && Aligned(|msg| - |buffered|)
    && state == Chain(f, Initial, msg[..|msg| - |buffered|])
    && buffered == msg[|msg| - |buffered|..]
  }

  /** One more block taken from the front of what is not yet chained. */
  lemma Absorb(f: BlockFunction, msg: seq<Byte>, done: nat)
    requires done + 64 <= |msg| && Aligned(done)
    ensures Aligned(done + 64)
    ensures Chain(f, Initial, msg[..done + 64]) == f(Chain(f, Initial, msg[..done]), msg[done..done + 64])
  {
    assert msg[..done + 64] == msg[..done] + msg[done..done + 64];
    ChainAppend(f, Initial, msg[..done], msg[done..done + 64]);
    ChainBlock(f, Chain(f, Initial, msg[..done]), msg[done..done + 64]);
  }

  lemma SliceOf(a: seq<Byte>, b: seq<Byte>, i: nat, j: nat)
    requires i <= j <= |b|
    ensures (a + b)[|a| + i..|a| + j] == b[i..j]
  {
  }

  lemma Straddle(a: seq<Byte>, b: seq<Byte>, i: nat, j: nat)
    requires i <= |a| && j <= |b|
    ensures (a + b)[i..|a| + j] == a[i..] + b[..j]
  {
  }

  /** The block that the buffer and the beginning of an input make up. */
  lemma FilledUp(f: BlockFunction, state: Words, buffered: seq<Byte>, before: seq<Byte>, input: seq<Byte>, i: nat)
    requires Absorbed(f, state, buffered, before) && |buffered| + i == 64 && i <= |input|
    ensures Aligned(|before| + i) && f(state, buffered + input[..i]) == Chain(f, Initial, (before + input)[..|before| + i])
  {
    hide Chain, Aligned;
    var whole, base := before + input, |before| - |buffered|;
    Straddle(before, input, base, i);
    assert whole[..base] == before[..base];
    Absorb(f, whole, base);
  }

  lemma AbsorbedBlocks(f: BlockFunction, state: Words, before: seq<Byte>, input: seq<Byte>, i: nat)
    requires i <= |input| && |input| - i < 64 && Aligned(|before| + i)
    requires state == Chain(f, Initial, (before + input)[..|before| + i])
    ensures Rest(|before + input|) == |input| - i && Absorbed(f, state, input[i..], before + input)
  {
    hide Rest, Chain, Aligned;
    RestIs(|before + input|, |input| - i);
  }

  /** An input that does not fill the buffer up is only buffered. */
  lemma AbsorbedMore(f: BlockFunction, state: Words, buffered: seq<Byte>, before: seq<Byte>, input: seq<Byte>)
    requires Absorbed(f, state, buffered, before) && |buffered| + |input| < 64
    ensures Rest(|before + input|) == |buffered| + |input| && Absorbed(f, state, buffered + input, before + input)
  {
    hide Rest, Chain, Aligned;
    var all, done := before + input, |before| - |buffered|;
    RestIs(|all|, |buffered| + |input|);
    assert all[..done] == before[..done];
    assert all[done..] == before[done..] + input;
  }

  method CopyTo(buffer: array<Byte>, at: nat, source: seq<Byte>)
    requires at + |source| <= buffer.Length
    modifies buffer
    ensures buffer[..] == old(buffer[..at]) + source + old(buffer[at + |source|..])
  {
    for k := 0 to |source|
      invariant forall i :: 0 <= i < buffer.Length ==> buffer[i] == if at <= i < at + k then source[i - at] else old(buffer[i])
    {
      buffer[at + k] := source[k];
    }
  }

  /** The 32-bit index of the loop over the blocks does not wrap around. */
  predicate NoWrap(n: nat, len: nat) {
    len < W && (len >= 64 - Rest(n) ==> len - Rest(n + len) + 63 < W)
  }

  /** No block starts after the last whole one. */
  lemma LastBlock(n: nat, len: nat, i: nat)
    requires NoWrap(n, len) && len >= 64 - Rest(n) && i <= len && Aligned(n + i)
    ensures i + 63 < W
  {
  }

  /** The loop over the blocks, begun at index i, comes to index j. */
  ghost predicate ComesTo(len: nat, i: nat, j: nat)
    decreases j - i
  {
    i == j || (i < j && (i + 63) % W < len && ComesTo(len, i + 64, j))
  }

  lemma {:induction false} ComesToLast(n: nat, len: nat, i: nat)
    requires len < W && i <= len - Rest(n + len) && Aligned(n + i)
    ensures ComesTo(len, i, len - Rest(n + len))
    decreases len - i
  {
    var last := len - Rest(n + len);
    if i < last {
      OneMoreBlock(n, len, i);
      ComesToLast(n, len, i + 64);
    }
  }

  lemma OneMoreBlock(n: nat, len: nat, i: nat)
    requires len < W && i < len - Rest(n + len) && Aligned(n + i)
    ensures i + 64 <= len - Rest(n + len) && Aligned(n + (i + 64)) && (i + 63) % W < len
  {
  }

  /**
   With enough input for a block the loop always comes to the end of the last whole block.  There,
   with less than a block left, it goes on exactly when its index wraps around.
   */
  lemma WrapGoesOn(n: nat, len: nat)
    requires 64 - Rest(n) <= len < W
    ensures Rest(n + len) <= len
    ensures var i := len - Rest(n + len);
      ComesTo(len, 64 - Rest(n), i) && len - i < 64 && ((i + 63) % W < len <==> !NoWrap(n, len))
  {
    FirstBlock(n, len);
    ComesToLast(n, len, 64 - Rest(n));
  }

  lemma FirstBlock(n: nat, len: nat)
    requires 64 - Rest(n) <= len
    ensures 64 - Rest(n) <= len - Rest(n + len) && Aligned(n + (64 - Rest(n)))
  {
  }

  /** One byte and then the longest input a call can have: the loop goes on after the last of its bytes. */
  lemma WrapExample()
    ensures !NoWrap(1, W - 1) && ComesTo(W - 1, 63, W - 1) && (W - 1 + 63) % W < W - 1
  {
    hide ComesTo;
    WrapGoesOn(1, W - 1);
  }

  lemma InputBound(n: nat, len: nat)
    requires NoWrap(n, len)
    ensures len < W
  {
  }

  lemma ShortFits(n: nat, len: nat)
    requires len <= W - 64
    ensures NoWrap(n, len)
  {
  }

  class Checksum {
    const f: BlockFunction
    const buffer: array<Byte>
    var lo: Word
    var hi: Word
    var state: Words
    ghost var msg: seq<Byte>

    ghost predicate Valid()
      reads this, buffer
    {
      && buffer.Length == 64 && CountsBits(lo, hi, |msg|)
      && Absorbed(f, state, buffer[..Rest(|msg|)], msg)
    }

    constructor (f: BlockFunction)
      ensures Valid() && msg == [] && this.f == f && fresh(buffer)
    {
      this.f := f;
      buffer := new Byte[64](i => 0);
      lo, hi, state, msg := 0, 0, Initial, [];
      new;
      assert lo + hi * W + 0 * (W * W) == 0;
    }

    /** The blocks of an input that fills the buffer up: returns how much of the input was used. */
    method Blocks(ghost before: seq<Byte>, input: seq<Byte>, index: nat) returns (i: nat)
      requires buffer.Length == 64 && index == Rest(|before|) && |input| >= 64 - index
      requires Absorbed(f, state, buffer[..index], before) && NoWrap(|before|, |input|)
      modifies this`state, buffer
      ensures i <= |input| && |input| - i < 64 && Aligned(|before| + i)
      ensures state == Chain(f, Initial, (before + input)[..|before| + i])
    {
      hide Rest, Chain, Aligned, NoWrap, Absorbed;
      Whole(|before|);
      ghost var whole, buffered := before + input, buffer[..index];
      i := 64 - index;
      FilledUp(f, state, buffered, before, input, i);
      CopyTo(buffer, index, input[..i]);
      assert buffer[..] == buffered + input[..i];
      state := f(state, buffer[..]);
      LastBlock(|before|, |input|, i);
      while (i + 63) % W < |input|
        invariant i <= |input| && Aligned(|before| + i) && i + 63 < W
        invariant state == Chain(f, Initial, whole[..|before| + i])
      {
        SliceOf(before, input, i, i + 64);
        Absorb(f, whole, |before| + i);
        state := f(state, input[i..i + 64]);
        i := i + 64;
        LastBlock(|before|, |input|, i);
      }
    }

    /** The bytes of an input: whole blocks are chained, the rest is buffered. */
    method TakeIn(ghost before: seq<Byte>, input: seq<Byte>, index: nat)
      requires buffer.Length == 64 && index == Rest(|before|) < 64
      requires Absorbed(f, state, buffer[..index], before) && NoWrap(|before|, |input|)
      modifies this`state, buffer
      ensures Rest(|before + input|) <= 64
      ensures Absorbed(f, state, buffer[..Rest(|before + input|)], before + input)
    {
      hide Rest, Chain, NoWrap, Absorbed;
      if |input| >= 64 - index {
        var i := Blocks(before, input, index);
        CopyTo(buffer, 0, input[i..]);
        assert buffer[..|input| - i] == input[i..];
        AbsorbedBlocks(f, state, before, input, i);
      } else {
        ghost var buffered := buffer[..index];
        CopyTo(buffer, index, input);
        assert buffer[..index + |input|] == buffered + input;
        AbsorbedMore(f, state, buffered, before, input);
      }
    }

    /** Update: the object has then seen the input after everything before. */
    method Update(input: seq<Byte>)
      requires Valid() && NoWrap(|msg|, |input|)
      modifies this`lo, this`hi, this`state, this`msg, buffer
      ensures Valid() && msg == old(msg) + input
    {
      hide Rest, CountsBits, NoWrap, Absorbed;
      InputBound(|msg|, |input|);
      var index := lo / 8 % 64;
      IndexIs(lo, hi, |msg|);
      RestOf(|msg|);
      CountMore(lo, hi, |msg|, |input|);
      lo, hi := AddLow(lo, |input|), AddHigh(lo, hi, |input|);
      TakeIn(msg, input, index);
      msg := msg + input;
    }

    /** Final: the digest of everything seen. */
    method Final() returns (digest: seq<Byte>)
      requires Valid()
      modifies this`lo, this`hi, this`state, this`msg, buffer
      ensures digest == Digest(f, old(msg))
    {
      hide Rest, CountsBits, Chain, Bytes4, Padded, PadLength, Trailer, Zeros, Absorbed;
      var bits := Bytes4(lo) + Bytes4(hi);
      CountIs(lo, hi, |msg|);
      var index := lo / 8 % 64;
      IndexIs(lo, hi, |msg|);
      var padLen := if index < 56 then 56 - index else 120 - index;
      PaddedIs(msg, bits, padLen);
      ShortFits(|msg|, padLen);
      Update([0x80] + Zeros(padLen - 1));
      ShortFits(|msg|, 8);
      Update(bits);
      Whole(|msg|);
      Finished(f, state, buffer[..Rest(|msg|)], msg);
      digest := Bytes4(state.a) + Bytes4(state.b) + Bytes4(state.c) + Bytes4(state.d);
    }
  }

  lemma PaddedIs(msg: seq<Byte>, bits: seq<Byte>, padLen: nat)
    requires padLen == if |msg| % 64 < 56 then 56 - |msg| % 64 else 120 - |msg| % 64
    requires bits == Bytes4(8 * |msg| % W) + Bytes4(8 * |msg| / W % W)
    ensures Padded(msg) == msg + ([0x80] + Zeros(padLen - 1)) + bits
  {
    hide Bytes4, Zeros;
  }

  lemma RestOf(n: nat)
    ensures Rest(n) == n % 64
  {
  }

  lemma CountIs(lo: Word, hi: Word, n: nat)
    requires CountsBits(lo, hi, n)
    ensures lo == 8 * n % W && hi == 8 * n / W % W
  {
    var k: nat :| lo + hi * W + k * (W * W) == 8 * n;
    Unique(lo, hi, k, 8 * n);
  }

  /** After whole blocks nothing is buffered. */
  lemma Finished(f: BlockFunction, state: Words, buffered: seq<Byte>, msg: seq<Byte>)
    requires Absorbed(f, state, buffered, msg) && Aligned(|msg|) && |buffered| == Rest(|msg|)
    ensures state == Chain(f, Initial, msg)
  {
    RestIs(|msg|, 0);
    assert msg[..|msg|] == msg;
  }

  ghost function Joined(pieces: seq<seq<Byte>>): seq<Byte> {
    if pieces == [] then [] else Joined(pieces[..|pieces| - 1]) + pieces[|pieces| - 1]
  }

  lemma JoinedNone(pieces: seq<seq<Byte>>)
    requires pieces == []
    ensures Joined(pieces) == []
  {
  }

  lemma JoinedMore(pieces: seq<seq<Byte>>, i: nat)
    requires i < |pieces|
    ensures Joined(pieces[..i + 1]) == Joined(pieces[..i]) + pieces[i]
  {
    assert pieces[..i + 1][..i] == pieces[..i];
  }

  /** However the message is cut into pieces, the digest is that of one pass over the padded message. */
  method DigestOf(f: BlockFunction, pieces: seq<seq<Byte>>) returns (digest: seq<Byte>)
    requires forall i :: 0 <= i < |pieces| ==> NoWrap(|Joined(pieces[..i])|, |pieces[i]|)
    ensures digest == Digest(f, Joined(pieces))
  {
    hide Digest, Joined, CountsBits, Absorbed, Rest;
    var c := new Checksum(f);
    JoinedNone(pieces[..0]);
    for i := 0 to |pieces|
      invariant c.Valid() && fresh(c) && fresh(c.buffer) && c.f == f && c.msg == Joined(pieces[..i])
    {
      JoinedMore(pieces, i);
      c.Update(pieces[i]);
    }
    assert pieces[..|pieces|] == pieces;
    digest := c.Final();
  }
}
