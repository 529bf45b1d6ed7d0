/**
 The bit buffer of inflate: bits are taken from the input bytes least significant bit first, and
 whole bytes that were loaded too many are handed back.
 */
module BitReader {
  import opened Bits
  import opened Bitwise

  /** The input as one number, the first byte in the lowest bits. */
  function StreamVal(src: seq<Byte>): nat {
    if src == [] then 0 else src[0] + Shl(StreamVal(src[1..]), 8)
  }

  /** The bits of the input from bit position `pos` on. */
  function From(src: seq<Byte>, pos: nat): nat {
    Shr(StreamVal(src), pos)
  }

  lemma {:induction false} ByteAt(src: seq<Byte>, p: nat)
    requires p < |src|
    ensures Low(From(src, 8 * p), 8) == src[p]
    decreases p
  {
    var rest := StreamVal(src[1..]);
    Pow2Of8();
    Join(src[0], rest, 8);
    if p == 0 {
    } else {
      ByteAt(src[1..], p - 1);
      ShrShr(StreamVal(src), 8, 8 * (p - 1));
    }
  }

  lemma Pow2Of8()
    ensures Pow2(8) == 256
  {
    assert Pow2(2) == 4;
    assert Pow2(4) == 16;
    assert Pow2(6) == 64;
  }

  lemma FromFrom(src: seq<Byte>, pos: nat, n: nat)
    ensures From(src, pos + n) == Shr(From(src, pos), n)
  {
    ShrShr(StreamVal(src), pos, n);
  }

  lemma {:induction false} OrLow(x: nat, a: nat, b: nat)
    ensures Or(Low(x, a), Low(x, b)) == Low(x, if a < b then b else a)
    decreases a
  {
    hide Or;
    if a == 0 {
      OrZero(Low(x, b));
    } else if b == 0 {
      OrZero(Low(x, a));
    } else {
      OrLow(x / 2, a - 1, b - 1);
      OrHalves(x % 2, Low(x / 2, a - 1), Low(x / 2, b - 1));
    }
  }

  lemma OrHalves(bit: nat, x: nat, y: nat)
    requires bit < 2
    ensures Or(bit + 2 * x, bit + 2 * y) == bit + 2 * Or(x, y)
    ensures Or(bit + 2 * x, 2 * y) == bit + 2 * Or(x, y)
  {
    hide Or;
    OrParts(bit + 2 * x, bit + 2 * y);
    OrParts(bit + 2 * x, 2 * y);
    assert (bit + 2 * x) / 2 == x && (bit + 2 * y) / 2 == y && 2 * y / 2 == y;
  }

  /** Or-ing the next byte in above `k` bits extends the bits, also if some of it is there already. */
  lemma {:induction false} OrNextByte(x: nat, k: nat, s: nat)
    ensures Or(Low(x, k + s), Shl(Low(Shr(x, k), 8), k)) == Low(x, k + if s < 8 then 8 else s)
    decreases k
  {
    hide Or, Pow2;
    if k == 0 {
      OrLow(x, s, 8);
    } else {
      OrNextByte(x / 2, k - 1, s);
      OrHalves(x % 2, Low(x / 2, k - 1 + s), Shl(Low(Shr(x / 2, k - 1), 8), k - 1));
    }
  }

  class Reader {
    const src: seq<Byte>        // the whole compressed input
    var limit: nat              // how much of it the caller has supplied
    var p: nat                  // the next byte to load
    var b: nat                  // bit buffer
    var k: nat                  // bits in bit buffer
    /** Bits above the k valid ones that bytes handed back have left in the buffer. */
    ghost var stale: nat

    ghost predicate Valid()
      reads this
    {
      && p <= limit <= |src|
      && k <= 8 * p && k + stale <= 32
      && b == Low(From(src, Pos()), k + stale)
    }

    /** How many bits of the input have been consumed. */
    function Pos(): nat
      requires k <= 8 * p
      reads this
    {
      8 * p - k
    }

    /** The input that is still to be consumed. */
    ghost function Rest(): nat
      requires k <= 8 * p
      reads this
    {
      From(src, Pos())
    }

    constructor (input: seq<Byte>)
      ensures Valid() && src == input && Pos() == 0 && limit == 0 && k == 0
    {
      src := input;
      limit, p, b, k, stale := 0, 0, 0, 0, 0;
    }

    /** The caller supplies more input. */
    method Supply(n: nat)
      requires Valid() && limit + n <= |src|
      modifies this`limit
      ensures Valid() && limit == old(limit) + n
    {
      limit := limit + n;
    }

    /** b |= NEXTBYTE << k; k += 8. */
    method LoadByte()
      requires Valid() && p < limit && k <= 24
      modifies this`p, this`b, this`k, this`stale
      ensures Valid() && Pos() == old(Pos()) && p == old(p) + 1 && k == old(k) + 8
    {
      hide Low, Shr, Shl, Pow2, Or, StreamVal, From;
      ByteAt(src, p);
      FromFrom(src, Pos(), k);
      OrNextByte(From(src, Pos()), k, stale);
      b := Or(b, Shl(src[p], k));
      p, k := p + 1, k + 8;
      stale := if stale < 8 then 0 else stale - 8;
    }

    /** NEEDBITS: load bytes until j bits are there, or stop because the input is used up. */
    method NeedBits(j: nat) returns (ok: bool)
      requires Valid() && j <= 25
      modifies this`p, this`b, this`k, this`stale
      ensures Valid() && Pos() == old(Pos()) && p >= old(p)
      ensures ok ==> k >= j && Low(b, j) == Low(Rest(), j)
      ensures !ok ==> p == limit && k < j
      ensures k == old(k) || k < j + 8
    {
      hide Low, From;
      while k < j
        invariant Valid() && Pos() == old(Pos()) && p >= old(p)
        invariant k == old(k) || k < j + 8
        decreases j + 8 - k
      {
        if p == limit { return false; }
        LoadByte();
      }
      Peek(j);
      ok := true;
    }

    /** GRABBITS: load bytes until j bits are there, without looking whether there is input. */
    method GrabBits(j: nat)
      requires Valid() && j <= 25 && p + (j + 7) / 8 <= limit
      modifies this`p, this`b, this`k, this`stale
      ensures Valid() && Pos() == old(Pos()) && k >= j
      ensures old(p) <= p <= old(p) + (j + 7) / 8
      ensures k >= old(k) && (k == old(k) || k < j + 8)
    {
      hide Low, From;
      while k < j
        invariant Valid() && Pos() == old(Pos()) && k >= old(k)
        invariant k == old(k) || k < j + 8
        invariant k - old(k) == 8 * (p - old(p)) && p >= old(p)
        decreases j + 8 - k
      {
        LoadByte();
      }
    }

    /** The low bits of the buffer are the next bits of the input. */
    lemma Peek(j: nat)
      requires Valid() && j <= k
      ensures Low(b, j) == Low(Rest(), j)
    {
      LowSplit(Rest(), j, k + stale - j);
    }

    /** DUMPBITS. */
    method DumpBits(j: nat)
      requires Valid() && j <= k
      modifies this`b, this`k
      ensures Valid() && Pos() == old(Pos()) + j && k == old(k) - j
      ensures Rest() == Shr(old(Rest()), j)
    {
      hide Low, Shr, StreamVal;
      LowSplit(Rest(), j, k + stale - j);
      ShrShr(StreamVal(src), Pos(), j);
      b := Shr(b, j);
      k := k - j;
    }

    /** UNGRAB: hand whole unused bytes back, as far as they were loaded since `p0`. */
    method Ungrab(p0: nat)
      requires Valid() && p0 <= p
      modifies this`p, this`k, this`stale
      ensures Valid() && Pos() == old(Pos()) && p0 <= p <= old(p)
      ensures k < 8 || p == p0
    {
      var c := p - p0;
      if k / 8 < c { c := k / 8; }
      p, k := p - c, k - 8 * c;
      stale := stale + 8 * c;
    }

    /** The WASH state: hand one unused byte back, if there is one. */
    method ReturnByte()
      requires Valid()
      modifies this`p, this`k, this`stale
      ensures Valid() && Pos() == old(Pos()) && p <= old(p) && k == if old(k) > 7 then old(k) - 8 else old(k)
    {
      if k > 7 {
        p, k := p - 1, k - 8;
        stale := stale + 8;
      }
    }
  }
}
