/**
 CRC-32 as CRCHash.cpp and XUnzip.cpp compute it, against the bit-serial definition in section 8 of
 RFC 1952. Words are naturals below 2^32; `^` and `|` work bit by bit.
 */
module Crc32 {
  import opened Bits
  import opened Bitwise

  // ----- the bit-serial definition, least significant bit first

  const Polynomial: nat := 0xedb8_8320
  const Ones: nat := 0xffff_ffff

  function Shift(c: nat): nat {
    if c % 2 == 1 then Xor(c / 2, Polynomial) else c / 2
  }

  function Shifts(c: nat, n: nat): nat
    decreases n
  {
    if n == 0 then c else Shifts(Shift(c), n - 1)
  }

  /** The register after the bytes of the data. */
  function Serial(c: nat, data: seq<Byte>): nat
    decreases |data|
  {
    if data == [] then c else Serial(Shifts(Xor(c, data[0]), 8), data[1..])
  }

  /** The checksum of data that continues data with checksum `crc`. */
  function Resumed(crc: nat, data: seq<Byte>): nat {
    Xor(Serial(Xor(crc, Ones), data), Ones)
  }

  lemma {:induction false} SerialAppend(c: nat, x: seq<Byte>, y: seq<Byte>)
    ensures Serial(c, x + y) == Serial(Serial(c, x), y)
    decreases |x|
  {
    hide Shifts, Xor;
    if x == [] {
      assert x + y == y;
    } else {
      assert (x + y)[1..] == x[1..] + y;
      SerialAppend(Shifts(Xor(c, x[0]), 8), x[1..], y);
    }
  }

  /** However the data are split, resuming gives the checksum of the whole. */
  lemma ResumedAppend(crc: nat, x: seq<Byte>, y: seq<Byte>)
    ensures Resumed(Resumed(crc, x), y) == Resumed(crc, x + y)
  {
    hide Serial, Xor;
    var m := Serial(Xor(crc, Ones), x);
    SerialAppend(Xor(crc, Ones), x, y);
    XorGroups(m, Ones, Ones);
    XorSelf(Ones);
    XorZero(m);
  }

  // ----- a byte at a time

  /** Shifting is linear. */
  lemma ShiftXor(x: nat, y: nat)
    ensures Shift(Xor(x, y)) == Xor(Shift(x), Shift(y))
  {
    hide Xor;
    XorParts(x, y);
    XorOrder(x / 2, y / 2, Polynomial);
  }

  lemma {:induction false} ShiftsXor(x: nat, y: nat, n: nat)
    ensures Shifts(Xor(x, y), n) == Xor(Shifts(x, n), Shifts(y, n))
    decreases n
  {
    hide Shift, Xor;
    if n > 0 {
      ShiftXor(x, y);
      ShiftsXor(Shift(x), Shift(y), n - 1);
    }
  }

  /** Zero bits at the bottom are only shifted out. */
  lemma {:induction false} ShiftsShl(hi: nat, k: nat)
    ensures Shifts(Shl(hi, k), k) == hi
    decreases k
  {
    hide Xor;
    if k > 0 {
      assert Shift(Shl(hi, k)) == Shl(hi, k - 1);
      ShiftsShl(hi, k - 1);
    }
  }

  /** Eight shifts are one look-up by the low byte. */
  lemma ByteStep(c: nat)
    ensures Shifts(c, 8) == Xor(Shr(c, 8), Shifts(Low(c, 8), 8))
  {
    hide Xor, Shifts, Shr, Low, Shl, Pow2;
    var lo, hi := Low(c, 8), Shr(c, 8);
    Split(c, 8);
    XorDisjoint(lo, hi, 8);
    ShiftsXor(lo, Shl(hi, 8), 8);
    ShiftsShl(hi, 8);
    XorSwaps(hi, Shifts(lo, 8));
  }

  /** Every entry of the table is eight shifts of its index. */
  ghost predicate IsTable(table: seq<nat>) {
    |table| == 256 && forall i :: 0 <= i < 256 ==> table[i] == Shifts(i, 8)
  }

  lemma ByteIndex(c: nat, b: Byte)
    ensures Low(Xor(c, b), 8) == Xor(Low(c, 8), b) < 256
    ensures Shr(Xor(c, b), 8) == Shr(c, 8)
  {
    hide Xor, Shr, Low;
    XorLow(c, b, 8);
    assert Pow2(8) == 256;
    LowSmall(b, 8);
    XorZero(Shr(c, 8));
  }

  /** One byte of the table-driven loops. */
  lemma LookUp(table: seq<nat>, c: nat, b: Byte)
    requires IsTable(table)
    ensures Low(Xor(c, b), 8) < 256 && Low(Xor(c, b), 8) == Xor(Low(c, 8), b)
    ensures Xor(Shr(c, 8), table[Low(Xor(c, b), 8)]) == Shifts(Xor(c, b), 8)
  {
    hide Xor, Shr, Low, Shifts;
    ByteIndex(c, b);
    ByteStep(Xor(c, b));
  }

  lemma SerialMore(c: nat, data: seq<Byte>, k: nat)
    requires k < |data|
    ensures Serial(c, data[..k + 1]) == Shifts(Xor(Serial(c, data[..k]), data[k]), 8)
  {
    hide Shifts, Xor;
    assert data[..k + 1] == data[..k] + [data[k]];
    SerialAppend(c, data[..k], [data[k]]);
    SerialOne(Serial(c, data[..k]), data[k]);
  }

  lemma SerialOne(x: nat, b: Byte)
    ensures Serial(x, [b]) == Shifts(Xor(x, b), 8)
  {
    hide Shifts, Xor;
    assert [b][1..] == [];
    SerialNone(Shifts(Xor(x, b), 8), []);
  }

  lemma SerialNone(c: nat, data: seq<Byte>)
    requires data == []
    ensures Serial(c, data) == c
  {
  }

  // ----- ucrc32 of XUnzip.cpp

  /** CRC_DO1, n times. */
  method Bytes(table: seq<nat>, ghost start: nat, buf: seq<Byte>, from: nat, n: nat, c: nat) returns (r: nat)
    requires IsTable(table) && from + n <= |buf| && c == Serial(start, buf[..from])
    ensures r == Serial(start, buf[..from + n])
  {
    hide Serial, Shifts, Xor, Low, Shr;
    r := c;
    for i := 0 to n
      invariant r == Serial(start, buf[..from + i])
    {
      LookUp(table, r, buf[from + i]);
      SerialMore(start, buf, from + i);
      r := Xor(table[Low(Xor(r, buf[from + i]), 8)], Shr(r, 8));
      XorSwaps(table[Low(Xor(Serial(start, buf[..from + i]), buf[from + i]), 8)], Shr(Serial(start, buf[..from + i]), 8));
    }
  }

  /** Eight bytes at a time, then the rest; resumable. */
  method UCrc32(table: seq<nat>, crc: nat, buf: seq<Byte>) returns (r: nat)
    requires IsTable(table)
    ensures r == Resumed(crc, buf)
  {
    hide Serial, Xor, IsTable;
    var start := Xor(crc, Ones);
    var c, k := start, 0;
    SerialNone(start, buf[..0]);
    while |buf| - k >= 8
      invariant k <= |buf| && c == Serial(start, buf[..k])
    {
      c := Bytes(table, start, buf, k, 8, c);
      k := k + 8;
    }
    if k < |buf| { c := Bytes(table, start, buf, k, |buf| - k, c); }
    assert buf[..|buf|] == buf;
    r := Xor(c, Ones);
  }
}
