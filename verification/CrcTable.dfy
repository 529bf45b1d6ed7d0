/**
 CRCHash.cpp: the table is built most significant bit first between two reflections, and comes out as
 the table of the least-significant-bit-first definition.
 */
module CrcTable {
  import opened Bits
  import opened Bitwise
  import opened Crc32

  // ----- reflection

  lemma {:induction false} OrDisjoint(w: nat, k: nat)
    ensures Or(Shl(w, k + 1), Pow2(k)) == Shl(w, k + 1) + Pow2(k)
    decreases k
  {
    if k == 0 {
      OrZero(w);
      assert Shl(w, 1) == 2 * w;
    } else {
      OrDisjoint(w, k - 1);
      assert Shl(w, k + 1) / 2 == Shl(w, k) && Pow2(k) / 2 == Pow2(k - 1);
    }
  }

  /** CCRCHash::Reflect reverses the low ch bits. */
  method Reflect(ulRef: nat, ch: nat) returns (value: nat)
    ensures value == Rev(ch, ulRef)
  {
    hide Or;
    value := 0;
    var x := ulRef;
    ghost var w: nat := 0;
    ShlNone(ch);
    for i := 1 to ch + 1
      invariant value == Shl(w, ch + 1 - i)
      invariant value + Rev(ch + 1 - i, x) == Rev(ch, ulRef)
    {
      var k := ch - i;
      OrDisjoint(w, k);
      ShlDouble(w, k);
      ShlAdd(2 * w, 1, k);
      ShlBit(1, k);
      if x % 2 == 1 {
        value := Or(value, Pow2(k));
        w := 2 * w + 1;
      } else {
        w := 2 * w;
      }
      x := x / 2;
    }
  }

  lemma {:induction false} ShlNone(k: nat)
    ensures Shl(0, k) == 0
  {
    if k > 0 { ShlNone(k - 1); }
  }

  /** Exclusive or above a common bit position. */
  lemma {:induction false} XorTop(r: nat, s: nat, p: bool, q: bool, k: nat)
    requires r < Pow2(k) && s < Pow2(k)
    ensures Xor((if p then Pow2(k) else 0) + r, (if q then Pow2(k) else 0) + s) ==
            (if p != q then Pow2(k) else 0) + Xor(r, s)
    decreases k
  {
    var a, b := (if p then Pow2(k) else 0) + r, (if q then Pow2(k) else 0) + s;
    hide Xor;
    if k == 0 {
      XorBits();
    } else {
      HalfTop(r, p, k);
      HalfTop(s, q, k);
      XorTop(r / 2, s / 2, p, q, k - 1);
      XorParts(a, b);
      XorParts(r, s);
      HalfTop(Xor(r, s), p != q, k);
      hide Pow2;
      Same(Xor(a, b), (if p != q then Pow2(k) else 0) + Xor(r, s));
    }
  }

  lemma XorBits()
    ensures Xor(0, 0) == 0 && Xor(1, 0) == 1 && Xor(0, 1) == 1 && Xor(1, 1) == 0
  {
  }

  lemma HalfTop(r: nat, p: bool, k: nat)
    requires k > 0
    ensures ((if p then Pow2(k) else 0) + r) / 2 == (if p then Pow2(k - 1) else 0) + r / 2
    ensures ((if p then Pow2(k) else 0) + r) % 2 == r % 2
    ensures r < Pow2(k) ==> r / 2 < Pow2(k - 1)
  {
  }

  /** Reflection is linear. */
  lemma {:induction false} RevXor(n: nat, a: nat, b: nat)
    ensures Rev(n, Xor(a, b)) == Xor(Rev(n, a), Rev(n, b))
  {
    hide Xor;
    if n == 0 {
      XorZero(0);
    } else {
      RevXor(n - 1, a / 2, b / 2);
      XorParts(a, b);
      XorTop(Rev(n - 1, a / 2), Rev(n - 1, b / 2), a % 2 == 1, b % 2 == 1, n - 1);
    }
  }

  // ----- the table

  /** One round of the inner loop of InitCRC32Table, on 32 bits. */
  function Forward(x: nat): nat {
    Xor(Low(2 * x, 32), if Shr(x, 31) % 2 == 1 then 0x04c1_1db7 else 0)
  }

  function Forwards(x: nat, n: nat): nat {
    if n == 0 then x else Forward(Forwards(x, n - 1))
  }

  /** Reversing two fields exchanges them. */
  lemma {:induction false} RevFields(a: nat, b: nat, lo: nat, hi: nat)
    requires lo < Pow2(a)
    ensures Rev(a + b, lo + Shl(hi, a)) == Shl(Rev(a, lo), b) + Rev(b, hi)
    decreases a
  {
    if a == 0 {
      ShlNone(b);
    } else {
      HalfField(lo, hi, a);
      RevFields(a - 1, b, lo / 2, hi);
      ShlPow2(a - 1, b);
      ShlNone(b);
      ShlAdd(if lo % 2 == 1 then Pow2(a - 1) else 0, Rev(a - 1, lo / 2), b);
      hide Pow2, Shl;
    }
  }

  lemma HalfField(lo: nat, hi: nat, a: nat)
    requires a > 0
    ensures (lo + Shl(hi, a)) / 2 == lo / 2 + Shl(hi, a - 1) && (lo + Shl(hi, a)) % 2 == lo % 2
    ensures lo < Pow2(a) ==> lo / 2 < Pow2(a - 1)
  {
  }

  lemma Shl8(x: nat)
    ensures Shl(x, 8) == 256 * x
  {
    hide Shl;
    Shl4(x);
    Shl4(16 * x);
    ShlShl(x, 4, 4);
  }

  lemma Powers()
    ensures Pow2(8) == 256 && Pow2(32) == 0x1_0000_0000
  {
    assert Pow2(8) == 256;
    hide Pow2;
    Shl8(256);
    Shl8(0x1_0000);
    Shl8(0x100_0000);
    ShlPow2(8, 8);
    ShlPow2(16, 8);
    ShlPow2(24, 8);
  }

  /** Exclusive or with the register's ones complements its 32 bits. */
  lemma OnesComplement(c: nat)
    requires c <= Ones
    ensures Xor(c, Ones) == Ones - c
  {
    hide Pow2, Xor;
    Powers();
    XorOnes(c, 32);
  }

  lemma RevFour(x: nat)
    ensures Rev(4, x) ==
            8 * (x % 2) + 4 * (x / 2 % 2) + 2 * (x / 2 / 2 % 2) + x / 2 / 2 / 2 % 2
  {
    hide Pow2;
    assert Rev(1, x / 2 / 2 / 2) == x / 2 / 2 / 2 % 2 by { SmallPowers(); }
    assert Rev(2, x / 2 / 2) == 2 * (x / 2 / 2 % 2) + Rev(1, x / 2 / 2 / 2) by { SmallPowers(); }
    assert Rev(3, x / 2) == 4 * (x / 2 % 2) + Rev(2, x / 2 / 2) by { SmallPowers(); }
    SmallPowers();
  }

  lemma SmallPowers()
    ensures Pow2(0) == 1 && Pow2(1) == 2 && Pow2(2) == 4 && Pow2(3) == 8
  {
  }

  lemma RevByte(lo: nat, hi: nat)
    requires lo < 16 && hi < 16
    ensures Rev(8, lo + 16 * hi) == 16 * Rev(4, lo) + Rev(4, hi)
  {
    assert Pow2(4) == 16;
    hide Pow2, Rev;
    RevFields(4, 4, lo, hi);
    Shl4(hi);
    Shl4(Rev(4, lo));
  }

  lemma Shl4(x: nat)
    ensures Shl(x, 4) == 16 * x
  {
    assert Shl(x, 1) == 2 * Shl(x, 0);
    assert Shl(x, 2) == 2 * Shl(x, 1);
    assert Shl(x, 3) == 2 * Shl(x, 2);
  }

  lemma HighReversals()
    ensures Rev(8, 0xc1) == 0x83 && Rev(8, 0x04) == 0x20
  {
    hide Rev;
    RevFour(0x0);
    RevFour(0x1);
    RevFour(0x4);
    RevFour(0xc);
    RevByte(0x1, 0xc);
    RevByte(0x4, 0x0);
  }

  lemma LowReversals()
    ensures Rev(8, 0xb7) == 0xed && Rev(8, 0x1d) == 0xb8
  {
    hide Rev;
    RevFour(0x1);
    RevFour(0x7);
    RevFour(0xb);
    RevFour(0xd);
    RevByte(0x7, 0xb);
    RevByte(0xd, 0x1);
  }

  /** The polynomial of one direction is the mirror image of the other's. */
  lemma PolynomialsMirror()
    ensures Rev(32, 0x04c1_1db7) == Polynomial
  {
    hide Rev, Shl, Pow2;
    Powers();
    HighReversals();
    LowReversals();
    Shl8(0x04_c11d);
    RevFields(8, 24, 0xb7, 0x04_c11d);
    Shl8(0x04c1);
    RevFields(8, 16, 0x1d, 0x04c1);
    Shl8(0x04);
    RevFields(8, 8, 0xc1, 0x04);
    Shl8(0x83);
    Shl16(0xb8);
    Shl24(0xed);
  }

  lemma Shl16(x: nat)
    ensures Shl(x, 16) == 0x1_0000 * x
  {
    hide Shl;
    Shl8(x);
    Shl8(256 * x);
    ShlShl(x, 8, 8);
  }

  lemma Shl24(x: nat)
    ensures Shl(x, 24) == 0x100_0000 * x
  {
    hide Shl;
    Shl16(x);
    Shl8(0x1_0000 * x);
    ShlShl(x, 16, 8);
  }

  lemma LowDouble(x: nat, k: nat)
    ensures Low(2 * x, k + 1) == 2 * Low(x, k)
  {
  }

  /** Under reflection, a step from the top is a step from the bottom. */
  lemma RevForward(x: nat)
    requires x < Pow2(32)
    ensures Rev(32, Forward(x)) == Shift(Rev(32, x)) && Forward(x) < Pow2(32)
  {
    hide Xor, Low, Shr, Pow2, Rev;
    RevTop(31, x);
    LowDouble(x, 31);
    RevEven(31, Low(x, 31));
    RevXor(32, Low(2 * x, 32), 0x04c1_1db7);
    PolynomialsMirror();
    XorZero(Low(2 * x, 32));
    ForwardBound(x);
  }

  lemma RevEven(n: nat, y: nat)
    ensures Rev(n + 1, 2 * y) == Rev(n, y)
  {
  }

  lemma ForwardBound(x: nat)
    ensures Forward(x) < Pow2(32)
  {
    hide Xor, Low, Shr, Pow2;
    Powers();
    XorBound(Low(2 * x, 32), if Shr(x, 31) % 2 == 1 then 0x04c1_1db7 else 0, 32);
  }

  lemma {:induction false} RevForwards(x: nat, n: nat)
    requires x < Pow2(32)
    ensures Rev(32, Forwards(x, n)) == Shifts(Rev(32, x), n) && Forwards(x, n) < Pow2(32)
  {
    hide Rev, Forward, Shift, Pow2;
    if n > 0 {
      RevForwards(x, n - 1);
      RevForward(Forwards(x, n - 1));
      ShiftsLast(Rev(32, x), n);
    }
  }

  lemma {:induction false} ShiftsLast(c: nat, n: nat)
    requires n > 0
    ensures Shifts(c, n) == Shift(Shifts(c, n - 1))
    decreases n
  {
    hide Shift;
    if n > 1 { ShiftsLast(Shift(c), n - 1); }
  }

  /** The entry for byte i, as InitCRC32Table computes it. */
  lemma EntryIs(i: Byte)
    ensures Shl(Rev(8, i), 24) < Pow2(32)
    ensures Rev(32, Forwards(Shl(Rev(8, i), 24), 8)) == Shifts(i, 8)
  {
    hide Rev, Forwards, Shifts, Shl;
    hide Pow2;
    Powers();
    RevScale(8, 32, i);
    Pow2Mono(8, 32);
    RevRev(32, i);
    RevForwards(Shl(Rev(8, i), 24), 8);
  }

  class CrcHash {
    const table: array<nat>

    ghost predicate Valid()
      reads table
    {
      IsTable(table[..])
    }

    constructor ()
      ensures Valid() && fresh(table)
    {
      table := new nat[256](i => 0);
      new;
      InitCRC32Table();
    }

    method InitCRC32Table()
      requires table.Length == 256
      modifies table
      ensures Valid()
    {
      hide Shifts;
      for i := 0 to 256
        invariant forall k :: 0 <= k < i ==> table[k] == Shifts(k, 8)
      {
        table[i] := Entry(i);
      }
    }

    /** GetCRC: the bit-serial CRC-32 of the data. */
    method GetCRC(data: seq<Byte>) returns (r: nat)
      requires Valid()
      ensures r == Resumed(0, data)
    {
      hide Serial, Shifts, Xor, Low, Shr;
      var crc := Ones;
      XorSwaps(0, Ones);
      XorZero(Ones);
      SerialNone(Ones, data[..0]);
      for k := 0 to |data|
        invariant crc == Serial(Ones, data[..k])
      {
        LookUp(table[..], crc, data[k]);
        SerialMore(Ones, data, k);
        crc := Xor(Shr(crc, 8), table[Xor(Low(crc, 8), data[k])]);
      }
      assert data[..|data|] == data;
      r := Xor(crc, Ones);
    }
  }

  /** The body of the outer loop of InitCRC32Table. */
  method Entry(i: Byte) returns (t: nat)
    ensures t == Shifts(i, 8)
  {
    hide Shifts, Rev, Shl, Forward;
    t := Reflect(i, 8);
    t := Shl(t, 24);
    ghost var start := t;
    for j := 0 to 8
      invariant t == Forwards(start, j)
    {
      t := Forward(t);
    }
    t := Reflect(t, 32);
    EntryIs(i);
  }
}
