/**
 Shifts, masks and bit reversal on unbounded naturals, shared by the inflate modules.

 Everything is defined by halving and doubling, so that `x >> k`, `x & ((1 << k) - 1)` and
 `x << k` of the source are `Shr(x, k)`, `Low(x, k)` and `Shl(x, k)` here and no proof needs
 division by a variable.

 DEFLATE packs Huffman codes starting with their most significant bit while every other
 value is packed least significant bit first, so a code seen in the stream is the reversal
 of the code as a number.  `Rev(n, x)` reverses the low `n` bits of `x`.
 */
module Bits {

  type Byte = b: nat | b < 256

  function Pow2(n: nat): (r: nat)
    ensures r >= 1
  {
    if n == 0 then 1 else 2 * Pow2(n - 1)
  }

  function Shl(x: nat, k: nat): nat {
    if k == 0 then x else 2 * Shl(x, k - 1)
  }

  function Shr(x: nat, k: nat): nat {
    if k == 0 then x else Shr(x / 2, k - 1)
  }

  function Low(x: nat, k: nat): (r: nat)
    ensures r < Pow2(k)
  {
    if k == 0 then 0 else x % 2 + 2 * Low(x / 2, k - 1)
  }

  /** The low `n` bits of `x` in reverse order. */
  function Rev(n: nat, x: nat): (r: nat)
    ensures r < Pow2(n)
  {
    if n == 0 then 0 else (if x % 2 == 1 then Pow2(n - 1) else 0) + Rev(n - 1, x / 2)
  }

  lemma {:induction false} Pow2Mono(a: nat, b: nat)
    requires a <= b
    ensures Pow2(a) <= Pow2(b)
    ensures a < b ==> 2 * Pow2(a) <= Pow2(b)
    decreases b
  {
    if a < b {
      Pow2Mono(a, b - 1);
    }
  }

  lemma Pow2Double(n: nat)
    ensures Pow2(n + 1) == 2 * Pow2(n)
  {
  }

  lemma {:induction false} ShlPow2(a: nat, b: nat)
    ensures Shl(Pow2(a), b) == Pow2(a + b)
    decreases b
  {
    if b > 0 { ShlPow2(a, b - 1); }
  }

  lemma {:induction false} ShlBit(b: nat, k: nat)
    requires b < 2
    ensures Shl(b, k) == if b == 1 then Pow2(k) else 0
    decreases k
  {
    if k > 0 { ShlBit(b, k - 1); }
  }

  lemma {:induction false} ShlAdd(x: nat, y: nat, k: nat)
    ensures Shl(x + y, k) == Shl(x, k) + Shl(y, k)
    decreases k
  {
    if k > 0 { ShlAdd(x, y, k - 1); }
  }

  lemma {:induction false} ShlShl(x: nat, a: nat, b: nat)
    ensures Shl(Shl(x, a), b) == Shl(x, a + b)
    decreases b
  {
    if b > 0 { ShlShl(x, a, b - 1); }
  }

  lemma {:induction false} ShlMono(x: nat, y: nat, k: nat)
    requires x <= y
    ensures Shl(x, k) <= Shl(y, k)
    ensures x < y ==> Shl(x, k) + Pow2(k) <= Shl(y, k)
    decreases k
  {
    if k > 0 { ShlMono(x, y, k - 1); }
  }

  lemma {:induction false} ShlDouble(x: nat, k: nat)
    ensures Shl(2 * x, k) == Shl(x, k + 1)
    decreases k
  {
    if k > 0 { ShlDouble(x, k - 1); }
  }

  lemma {:induction false} ShrShr(x: nat, a: nat, b: nat)
    ensures Shr(Shr(x, a), b) == Shr(x, a + b)
    decreases a
  {
    if a > 0 { ShrShr(x / 2, a - 1, b); }
  }

  /** A value is its low bits and its high bits put back together. */
  lemma {:induction false} Split(x: nat, k: nat)
    ensures x == Low(x, k) + Shl(Shr(x, k), k)
    decreases k
  {
    if k > 0 {
      Split(x / 2, k - 1);
    }
  }

  /** Low bits and high bits put together come apart again. */
  lemma {:induction false} Join(lo: nat, hi: nat, k: nat)
    requires lo < Pow2(k)
    ensures Low(lo + Shl(hi, k), k) == lo
    ensures Shr(lo + Shl(hi, k), k) == hi
    decreases k
  {
    if k > 0 {
      Join(lo / 2, hi, k - 1);
      assert (lo + Shl(hi, k)) / 2 == lo / 2 + Shl(hi, k - 1);
    }
  }

  /** The low `a + b` bits are the low `a` bits and then the next `b` bits. */
  lemma {:induction false} LowSplit(x: nat, a: nat, b: nat)
    ensures Low(x, a + b) == Low(x, a) + Shl(Low(Shr(x, a), b), a)
    ensures Low(Low(x, a + b), a) == Low(x, a)
    ensures Shr(Low(x, a + b), a) == Low(Shr(x, a), b)
    decreases a
  {
    if a > 0 {
      LowSplit(x / 2, a - 1, b);
      assert Low(x, a + b) / 2 == Low(x / 2, a - 1 + b);
    }
  }

  lemma {:induction false} LowSmall(x: nat, k: nat)
    requires x < Pow2(k)
    ensures Low(x, k) == x && Shr(x, k) == 0
    decreases k
  {
    if k > 0 { LowSmall(x / 2, k - 1); }
  }

  lemma {:induction false} ShrBound(x: nat, a: nat, b: nat)
    requires x < Pow2(a + b)
    ensures Shr(x, a) < Pow2(b)
    decreases a
  {
    if a > 0 { ShrBound(x / 2, a - 1, b); }
  }

  lemma {:induction false} JoinBound(lo: nat, hi: nat, a: nat, b: nat)
    requires lo < Pow2(a) && hi < Pow2(b)
    ensures lo + Shl(hi, a) < Pow2(a + b)
  {
    ShlMono(hi + 1, Pow2(b), a);
    ShlAdd(hi, 1, a);
    ShlPow2(0, a);
    ShlPow2(b, a);
    assert Pow2(0) == 1;
  }

  lemma {:induction false} RevZero(n: nat)
    ensures Rev(n, 0) == 0
  {
    if n > 0 { RevZero(n - 1); }
  }

  /** Reversal reads the bits of `x` from the top: the last bit becomes the lowest. */
  lemma {:induction false} RevTop(k: nat, x: nat)
    requires x < Pow2(k + 1)
    ensures Shr(x, k) < 2
    ensures Rev(k + 1, x) == Shr(x, k) + 2 * Rev(k, Low(x, k))
    decreases k
  {
    if k == 0 {
    } else {
      RevTop(k - 1, x / 2);
      assert Low(x, k) / 2 == Low(x / 2, k - 1);
      assert Rev(k + 1, x) == (if x % 2 == 1 then Pow2(k) else 0) + Rev(k, x / 2);
      assert Rev(k, Low(x, k)) == (if x % 2 == 1 then Pow2(k - 1) else 0) + Rev(k - 1, Low(x / 2, k - 1));
    }
  }

  /** A `k`-bit value reversed in a field of `g` bits is its own reversal shifted up. */
  lemma {:induction false} RevScale(k: nat, g: nat, x: nat)
    requires k <= g && x < Pow2(k)
    ensures Rev(g, x) == Shl(Rev(k, x), g - k)
    decreases g - k
  {
    if k < g {
      Pow2Mono(k, g - 1);
      RevTop(g - 1, x);
      LowSmall(x, g - 1);
      RevScale(k, g - 1, x);
    }
  }

  /** Reversal is an involution on `k`-bit values. */
  lemma {:induction false} RevRev(k: nat, x: nat)
    requires x < Pow2(k)
    ensures Rev(k, Rev(k, x)) == x
    decreases k
  {
    if k > 0 {
      RevTop(k - 1, x);
      var low, top := Low(x, k - 1), Shr(x, k - 1);
      RevRev(k - 1, low);
      Split(x, k - 1);
      ShlBit(top, k - 1);
      hide Low, Shr, Shl, Pow2;
      assert Rev(k, x) / 2 == Rev(k - 1, low);
      assert Rev(k, x) % 2 == top;
    }
  }

  /**
   A code of `k` bits owns a contiguous range of the `g`-bit code space: a stream value `v`
   begins with the code `i` exactly when its reversal lies in that range.
   */
  lemma {:induction false} Cover(k: nat, g: nat, i: nat, v: nat)
    requires k <= g && i < Pow2(k)
    ensures Rev(g, i) + Pow2(g - k) <= Pow2(g)
    ensures Low(v, k) == i <==> Rev(g, i) <= Rev(g, v) < Rev(g, i) + Pow2(g - k)
    decreases k
  {
    if k == 0 {
      RevZero(g);
    } else {
      Cover(k - 1, g - 1, i / 2, v / 2);
      assert Low(v, k) == i <==> v % 2 == i % 2 && Low(v / 2, k - 1) == i / 2;
    }
  }
}
