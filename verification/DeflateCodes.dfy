/**
 The length and distance symbols of section 3.2.5 of RFC 1951 by their rule: each symbol stands for the
 numbers that follow those of the symbol before it, as many as its extra bits can tell apart.
 */
module DeflateCodes {
  import opened Bits

  /** Extra bits of the length symbol 257 + i; the last symbol, 285, has none. */
  function LengthBits(i: nat): nat {
    if i < 8 || i == 28 then 0 else (i - 4) / 4
  }

  /** The smallest length of the symbol 257 + i; the last symbol, 285, is 258. */
  function LengthBase(i: nat): nat {
    if i == 0 then 3 else if i == 28 then 258 else LengthBase(i - 1) + Pow2(LengthBits(i - 1))
  }

  function DistanceBits(i: nat): nat {
    if i < 4 then 0 else (i - 2) / 2
  }

  function DistanceBase(i: nat): nat {
    if i == 0 then 1 else DistanceBase(i - 1) + Pow2(DistanceBits(i - 1))
  }

  // ----- the constant tables follow the rule

  /** Copy lengths for the codes 257..285. */
  function CopyLengths(): seq<nat> {
    [3, 4, 5, 6, 7, 8, 9, 10, 11, 13, 15, 17, 19, 23, 27, 31,
     35, 43, 51, 59, 67, 83, 99, 115, 131, 163, 195, 227, 258, 0, 0]
  }

  /** Extra bits for the codes 257..285; 112 marks an invalid code. */
  function LengthExtra(): seq<nat> {
    [0, 0, 0, 0, 0, 0, 0, 0, 1, 1, 1, 1, 2, 2, 2, 2,
     3, 3, 3, 3, 4, 4, 4, 4, 5, 5, 5, 5, 0, 112, 112]
  }

  /** Copy offsets for the distance codes 0..29. */
  function CopyOffsets(): seq<nat> {
    [1, 2, 3, 4, 5, 7, 9, 13, 17, 25, 33, 49, 65, 97, 129, 193,
     257, 385, 513, 769, 1025, 1537, 2049, 3073, 4097, 6145, 8193, 12289, 16385, 24577]
  }

  /** Extra bits for the distance codes 0..29. */
  function OffsetExtra(): seq<nat> {
    [0, 0, 0, 0, 1, 1, 2, 2, 3, 3, 4, 4, 5, 5, 6, 6,
     7, 7, 8, 8, 9, 9, 10, 10, 11, 11, 12, 12, 13, 13]
  }

  lemma Powers()
    ensures Pow2(0) == 1 && Pow2(1) == 2 && Pow2(2) == 4 && Pow2(3) == 8 && Pow2(4) == 16 && Pow2(5) == 32
    ensures Pow2(6) == 64 && Pow2(7) == 128 && Pow2(8) == 256 && Pow2(9) == 512 && Pow2(10) == 1024
    ensures Pow2(11) == 2048 && Pow2(12) == 4096 && Pow2(13) == 8192
  {
  }

  lemma LengthStep(i: nat)
    requires i < 27
    ensures |CopyLengths()| == |LengthExtra()| == 31
    ensures CopyLengths()[i + 1] == CopyLengths()[i] + Pow2(LengthExtra()[i])
  {
    hide Pow2;
    Powers();
  }

  lemma LengthTableBits(i: nat)
    requires i < 29
    ensures |CopyLengths()| == |LengthExtra()| == 31 && CopyLengths()[0] == 3 && CopyLengths()[28] == 258
    ensures LengthExtra()[i] == LengthBits(i)
  {
  }

  lemma {:induction false} LengthTable(i: nat)
    requires i < 29
    ensures |CopyLengths()| == |LengthExtra()| == 31
    ensures CopyLengths()[i] == LengthBase(i) && LengthExtra()[i] == LengthBits(i)
  {
    hide CopyLengths, LengthExtra, Pow2, LengthBits;
    LengthTableBits(i);
    if 0 < i < 28 {
      LengthTable(i - 1);
      LengthStep(i - 1);
    }
  }

  lemma OffsetStep(i: nat)
    requires i < 29
    ensures |CopyOffsets()| == |OffsetExtra()| == 30
    ensures CopyOffsets()[i + 1] == CopyOffsets()[i] + Pow2(OffsetExtra()[i])
  {
    hide Pow2;
    Powers();
  }

  lemma OffsetBits(i: nat)
    requires i < 30
    ensures |CopyOffsets()| == |OffsetExtra()| == 30 && CopyOffsets()[0] == 1 && OffsetExtra()[i] == DistanceBits(i)
  {
  }

  lemma {:induction false} OffsetTable(i: nat)
    requires i < 30
    ensures |CopyOffsets()| == |OffsetExtra()| == 30
    ensures CopyOffsets()[i] == DistanceBase(i) && OffsetExtra()[i] == DistanceBits(i)
  {
    hide CopyOffsets, OffsetExtra, Pow2, DistanceBits;
    OffsetBits(i);
    if i > 0 {
      OffsetTable(i - 1);
      OffsetStep(i - 1);
    }
  }

  lemma LastSymbols()
    ensures LengthBase(0) == 3 && LengthBase(27) + Pow2(LengthBits(27)) == 259
    ensures DistanceBase(0) == 1 && DistanceBase(29) + Pow2(DistanceBits(29)) == 32769
  {
    Powers();
    hide Pow2;
    LengthTable(27);
    OffsetTable(29);
  }

  // ----- the symbols cover the lengths and distances once

  lemma {:induction false} LengthsApart(i: nat, j: nat)
    requires i < j < 28
    ensures LengthBase(i) + Pow2(LengthBits(i)) <= LengthBase(j)
    decreases j
  {
    hide Pow2, LengthBits;
    if i + 1 < j { LengthsApart(i, j - 1); }
  }

  /** Two spellings of a length with the symbols 257..284 are the same. */
  lemma LengthOnce(i: nat, x: nat, j: nat, y: nat)
    requires i < 28 && x < Pow2(LengthBits(i)) && j < 28 && y < Pow2(LengthBits(j))
    requires LengthBase(i) + x == LengthBase(j) + y
    ensures i == j && x == y
  {
    hide Pow2, LengthBits, LengthBase;
    if i < j { LengthsApart(i, j); }
    if j < i { LengthsApart(j, i); }
  }

  lemma {:induction false} LengthUpTo(n: nat, k: nat) returns (i: nat, x: nat)
    requires k < 28 && 3 <= n < LengthBase(k) + Pow2(LengthBits(k))
    ensures i <= k && x < Pow2(LengthBits(i)) && LengthBase(i) + x == n
    decreases k
  {
    hide Pow2, LengthBits;
    if n >= LengthBase(k) {
      i, x := k, n - LengthBase(k);
    } else {
      i, x := LengthUpTo(n, k - 1);
    }
  }

  /** Every length from 3 to 258 is spelled by a symbol 257..284 and its extra bits. */
  lemma LengthSpelled(n: nat) returns (i: nat, x: nat)
    requires 3 <= n <= 258
    ensures i < 28 && x < Pow2(LengthBits(i)) && LengthBase(i) + x == n
  {
    LastSymbols();
    hide Pow2, LengthBase, LengthBits;
    i, x := LengthUpTo(n, 27);
  }

  lemma {:induction false} DistancesApart(i: nat, j: nat)
    requires i < j
    ensures DistanceBase(i) + Pow2(DistanceBits(i)) <= DistanceBase(j)
    decreases j
  {
    hide Pow2, DistanceBits;
    if i + 1 < j { DistancesApart(i, j - 1); }
  }

  /** Two spellings of a distance are the same. */
  lemma DistanceOnce(i: nat, x: nat, j: nat, y: nat)
    requires x < Pow2(DistanceBits(i)) && y < Pow2(DistanceBits(j))
    requires DistanceBase(i) + x == DistanceBase(j) + y
    ensures i == j && x == y
  {
    hide Pow2, DistanceBits, DistanceBase;
    if i < j { DistancesApart(i, j); }
    if j < i { DistancesApart(j, i); }
  }

  lemma {:induction false} DistanceUpTo(n: nat, k: nat) returns (i: nat, x: nat)
    requires 1 <= n < DistanceBase(k) + Pow2(DistanceBits(k))
    ensures i <= k && x < Pow2(DistanceBits(i)) && DistanceBase(i) + x == n
    decreases k
  {
    hide Pow2, DistanceBits;
    if n >= DistanceBase(k) {
      i, x := k, n - DistanceBase(k);
    } else {
      i, x := DistanceUpTo(n, k - 1);
    }
  }

  /** The symbols 0..29 spell exactly the distances from 1 to 32768. */
  lemma DistanceSpelled(n: nat) returns (i: nat, x: nat)
    requires 1 <= n <= 32768
    ensures i < 30 && x < Pow2(DistanceBits(i)) && DistanceBase(i) + x == n
  {
    LastSymbols();
    hide Pow2, DistanceBase, DistanceBits;
    i, x := DistanceUpTo(n, 29);
  }

  /** No symbol reaches further. */
  lemma Reach(i: nat)
    ensures i < 28 ==> 3 <= LengthBase(i) && LengthBase(i) + Pow2(LengthBits(i)) <= 259
    ensures i < 30 ==> 1 <= DistanceBase(i) && DistanceBase(i) + Pow2(DistanceBits(i)) <= 32769
  {
    LastSymbols();
    hide Pow2, LengthBits, LengthBase, DistanceBits, DistanceBase;
    if i < 27 { LengthsApart(i, 27); }
    if i < 29 { DistancesApart(i, 29); }
    if 0 < i < 28 { LengthsApart(0, i); }
    if 0 < i < 30 { DistancesApart(0, i); }
  }
}
