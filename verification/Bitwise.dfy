/**
 The bitwise operations `|` and `^` on naturals, bit by bit.
 */
module Bitwise {
  import opened Bits

  /** Bitwise or. */
  function Or(x: nat, y: nat): nat
    decreases x + y
  {
    if x == 0 then y else if y == 0 then x
    else (if x % 2 == 1 || y % 2 == 1 then 1 else 0) + 2 * Or(x / 2, y / 2)
  }

  lemma OrZero(x: nat)
    ensures Or(0, x) == x && Or(x, 0) == x
  {
  }

  lemma OrParts(x: nat, y: nat)
    ensures Or(x, y) == (if x % 2 == 1 || y % 2 == 1 then 1 else 0) + 2 * Or(x / 2, y / 2)
  {
    OrZero(x / 2);
    OrZero(y / 2);
  }

  function Xor(a: nat, b: nat): nat
    decreases a + b
  {
    if a == 0 && b == 0 then 0 else (if a % 2 == b % 2 then 0 else 1) + 2 * Xor(a / 2, b / 2)
  }

  lemma XorParts(a: nat, b: nat)
    ensures Xor(a, b) % 2 == if a % 2 == b % 2 then 0 else 1
    ensures Xor(a, b) / 2 == Xor(a / 2, b / 2)
  {
  }

  lemma Same(x: nat, y: nat)
    requires x % 2 == y % 2 && x / 2 == y / 2
    ensures x == y
  {
  }

  lemma {:induction false} XorSwaps(a: nat, b: nat)
    ensures Xor(a, b) == Xor(b, a)
    decreases a + b
  {
    if a + b > 0 { XorSwaps(a / 2, b / 2); }
  }

  lemma {:induction false} XorGroups(a: nat, b: nat, c: nat)
    ensures Xor(Xor(a, b), c) == Xor(a, Xor(b, c))
    decreases a + b + c
  {
    hide Xor;
    XorParts(a, b);
    XorParts(b, c);
    XorParts(Xor(a, b), c);
    XorParts(a, Xor(b, c));
    if a + b + c > 0 {
      XorGroups(a / 2, b / 2, c / 2);
      Same(Xor(Xor(a, b), c), Xor(a, Xor(b, c)));
    } else {
      XorZero(0);
    }
  }

  lemma {:induction false} XorZero(a: nat)
    ensures Xor(a, 0) == a
  {
    if a > 0 { XorZero(a / 2); }
  }

  lemma {:induction false} XorSelf(a: nat)
    ensures Xor(a, a) == 0
  {
    if a > 0 { XorSelf(a / 2); }
  }

  /** The two sides of a split can be exchanged. */
  lemma XorOrder(a: nat, b: nat, p: nat)
    ensures Xor(Xor(a, p), b) == Xor(Xor(a, b), p)
    ensures Xor(a, Xor(b, p)) == Xor(Xor(a, b), p)
    ensures Xor(Xor(a, p), Xor(b, p)) == Xor(a, b)
  {
    hide Xor;
    XorGroups(a, p, b);
    XorSwaps(p, b);
    XorGroups(a, b, p);
    XorGroups(a, p, Xor(b, p));
    XorGroups(p, p, b);
    XorSelf(p);
    XorSwaps(b, 0);
    XorZero(b);
  }

  lemma {:induction false} XorBound(a: nat, b: nat, n: nat)
    requires a < Pow2(n) && b < Pow2(n)
    ensures Xor(a, b) < Pow2(n)
    decreases n
  {
    if n > 0 { XorBound(a / 2, b / 2, n - 1); }
  }

  /** Bit i. */
  function Bit(x: nat, i: nat): bool {
    Shr(x, i) % 2 == 1
  }

  lemma XorBit(a: nat, b: nat, i: nat)
    ensures Bit(Xor(a, b), i) <==> Bit(a, i) != Bit(b, i)
  {
    hide Xor, Shr;
    XorLow(a, b, i);
    XorParts(Shr(a, i), Shr(b, i));
  }

  lemma {:induction false} BitOfAllOnes(n: nat, i: nat)
    requires i < n
    ensures Bit(Pow2(n) - 1, i)
    decreases i
  {
    if i > 0 {
      BitOfAllOnes(n - 1, i - 1);
      assert (Pow2(n) - 1) / 2 == Pow2(n - 1) - 1;
    }
  }

  /** Exclusive or with n ones is the complement in n bits. */
  lemma {:induction false} XorOnes(a: nat, n: nat)
    requires a < Pow2(n)
    ensures Xor(a, Pow2(n) - 1) == Pow2(n) - 1 - a
    decreases n
  {
    if n > 0 {
      XorOnes(a / 2, n - 1);
      XorParts(a, Pow2(n) - 1);
      assert (Pow2(n) - 1) / 2 == Pow2(n - 1) - 1 && (Pow2(n) - 1) % 2 == 1;
    }
  }

  lemma {:induction false} XorDisjoint(lo: nat, hi: nat, k: nat)
    requires lo < Pow2(k)
    ensures Xor(lo, Shl(hi, k)) == lo + Shl(hi, k)
    decreases k
  {
    if k == 0 {
      XorSwaps(0, hi);
      XorZero(hi);
    } else {
      XorDisjoint(lo / 2, hi, k - 1);
      XorParts(lo, Shl(hi, k));
    }
  }

  lemma {:induction false} XorLow(a: nat, b: nat, k: nat)
    ensures Low(Xor(a, b), k) == Xor(Low(a, k), Low(b, k))
    ensures Shr(Xor(a, b), k) == Xor(Shr(a, k), Shr(b, k))
    decreases k
  {
    hide Xor;
    if k == 0 {
      XorZero(0);
    } else {
      XorParts(a, b);
      XorParts(Low(a, k), Low(b, k));
      XorLow(a / 2, b / 2, k - 1);
    }
  }
}
