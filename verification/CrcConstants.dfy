/**
 The constant table of XUnzip.cpp is the table of the bit-serial definition. Machine words are taken
 apart into bytes, on which the bitwise operations agree with those on numbers.
 */
module CrcConstants {
  import opened Wrappers
  import opened Bits
  import opened Bitwise
  import opened Crc32
  import opened CrcTable

  // ----- bytes

  /** The number that a byte stands for. */
  function N(x: bv8): (n: nat)
    ensures n < 256
  {
    x as nat
  }

  function HalfOf(x: bv8): bv8 { x >> 1 }

  predicate LowBit(x: bv8) { x & 1 == 1 }

  function Both(x: bv8, y: bv8): bv8 { x ^ y }

  lemma HalfN(x: bv8)
    ensures N(x) == (if LowBit(x) then 1 else 0) + 2 * N(HalfOf(x))
    ensures N(x) == 0 <==> x == 0
  {
  }

  lemma BothParts(x: bv8, y: bv8)
    ensures HalfOf(Both(x, y)) == Both(HalfOf(x), HalfOf(y))
    ensures LowBit(Both(x, y)) <==> LowBit(x) != LowBit(y)
    ensures x == 0 && y == 0 ==> Both(x, y) == 0
  {
  }

  /** On bytes the operator is the one on numbers. */
  lemma {:induction false} XorByte(x: bv8, y: bv8)
    ensures Xor(N(x), N(y)) == N(Both(x, y))
    decreases N(x) + N(y)
  {
    hide N, HalfOf, LowBit, Both, Xor;
    HalfN(x);
    HalfN(y);
    HalfN(Both(x, y));
    BothParts(x, y);
    XorParts(N(x), N(y));
    if N(x) + N(y) > 0 {
      XorByte(HalfOf(x), HalfOf(y));
      Same(Xor(N(x), N(y)), N(Both(x, y)));
    } else {
      XorZero(0);
    }
  }

  // ----- words

  function Part0(w: bv32): bv8 { (w & 0xff) as bv8 }
  function Part1(w: bv32): bv8 { ((w >> 8) & 0xff) as bv8 }
  function Part2(w: bv32): bv8 { ((w >> 16) & 0xff) as bv8 }
  function Part3(w: bv32): bv8 { (w >> 24) as bv8 }

  /** The number that a word stands for. */
  function Num(w: bv32): nat {
    N(Part0(w)) + 256 * (N(Part1(w)) + 256 * (N(Part2(w)) + 256 * N(Part3(w))))
  }

  function BothWords(a: bv32, b: bv32): bv32 { a ^ b }

  function HalfWord(w: bv32): bv32 { w >> 1 }

  predicate OddWord(w: bv32) { w & 1 == 1 }

  lemma {:induction false} XorJoin(lo: nat, hi: nat, lo': nat, hi': nat)
    requires lo < 256 && lo' < 256
    ensures Xor(lo + 256 * hi, lo' + 256 * hi') == Xor(lo, lo') + 256 * Xor(hi, hi')
  {
    JoinIs(lo, hi);
    JoinIs(lo', hi');
    XorLow(lo + 256 * hi, lo' + 256 * hi', 8);
    var x := Xor(lo + 256 * hi, lo' + 256 * hi');
    Split(x, 8);
    Shl8(Shr(x, 8));
  }

  lemma JoinIs(lo: nat, hi: nat)
    requires lo < 256
    ensures Low(lo + 256 * hi, 8) == lo && Shr(lo + 256 * hi, 8) == hi
  {
    assert Pow2(8) == 256;
    hide Pow2;
    Shl8(hi);
    Join(lo, hi, 8);
  }

  lemma PartsOfXor(a: bv32, b: bv32)
    ensures Part0(a ^ b) == Part0(a) ^ Part0(b) && Part1(a ^ b) == Part1(a) ^ Part1(b)
    ensures Part2(a ^ b) == Part2(a) ^ Part2(b) && Part3(a ^ b) == Part3(a) ^ Part3(b)
  {
  }

  lemma PartsOfBoth(a: bv32, b: bv32)
    ensures Part0(BothWords(a, b)) == Both(Part0(a), Part0(b)) && Part1(BothWords(a, b)) == Both(Part1(a), Part1(b))
    ensures Part2(BothWords(a, b)) == Both(Part2(a), Part2(b)) && Part3(BothWords(a, b)) == Both(Part3(a), Part3(b))
  {
    hide Part0, Part1, Part2, Part3;
    PartsOfXor(a, b);
  }

  lemma XorNum(a: bv32, b: bv32)
    ensures Xor(Num(a), Num(b)) == Num(BothWords(a, b))
  {
    hide Part0, Part1, Part2, Part3, Xor, N, Both, BothWords;
    var a3, b3 := N(Part3(a)), N(Part3(b));
    var a2, b2 := N(Part2(a)) + 256 * a3, N(Part2(b)) + 256 * b3;
    var a1, b1 := N(Part1(a)) + 256 * a2, N(Part1(b)) + 256 * b2;
    XorJoin(N(Part0(a)), a1, N(Part0(b)), b1);
    XorJoin(N(Part1(a)), a2, N(Part1(b)), b2);
    XorJoin(N(Part2(a)), a3, N(Part2(b)), b3);
    XorByte(Part0(a), Part0(b));
    XorByte(Part1(a), Part1(b));
    XorByte(Part2(a), Part2(b));
    XorByte(Part3(a), Part3(b));
    PartsOfBoth(a, b);
  }

  /** The low bit of the next byte comes in at the top. */
  function ShiftIn(lo: bv8, hi: bv8): bv8 {
    (lo >> 1) | (if hi & 1 == 1 then 0x80 else 0)
  }

  lemma TopBit(x: bv8)
    requires x < 0x80
    ensures N(x | 0x80) == N(x) + 128 && x | 0 == x
  {
  }

  lemma ShiftInNum(lo: bv8, hi: bv8)
    ensures N(ShiftIn(lo, hi)) == N(HalfOf(lo)) + if LowBit(hi) then 128 else 0
  {
    assert HalfOf(lo) < 0x80;
    TopBit(HalfOf(lo));
    hide N;
  }

  lemma PartsOfHalf(w: bv32)
    ensures Part0(HalfWord(w)) == ShiftIn(Part0(w), Part1(w)) && Part1(HalfWord(w)) == ShiftIn(Part1(w), Part2(w))
    ensures Part2(HalfWord(w)) == ShiftIn(Part2(w), Part3(w)) && Part3(HalfWord(w)) == HalfOf(Part3(w))
    ensures LowBit(Part0(w)) <==> OddWord(w)
  {
  }

  function Low1(x: bv8): (n: nat)
    ensures n < 2
  {
    if LowBit(x) then 1 else 0
  }

  lemma HalfNum(w: bv32)
    ensures Num(HalfWord(w)) == Num(w) / 2 && (Num(w) % 2 == 1 <==> OddWord(w))
  {
    HalvesOfParts(w);
    hide Part0, Part1, Part2, Part3, N, HalfOf, Low1, HalfWord, OddWord;
    HalfSum(N(HalfOf(Part0(w))), Low1(Part0(w)), N(HalfOf(Part1(w))), Low1(Part1(w)),
            N(HalfOf(Part2(w))), Low1(Part2(w)), N(HalfOf(Part3(w))), Low1(Part3(w)));
  }

  lemma HalvesOfParts(w: bv32)
    ensures N(Part0(w)) == Low1(Part0(w)) + 2 * N(HalfOf(Part0(w))) && N(Part1(w)) == Low1(Part1(w)) + 2 * N(HalfOf(Part1(w)))
    ensures N(Part2(w)) == Low1(Part2(w)) + 2 * N(HalfOf(Part2(w))) && N(Part3(w)) == Low1(Part3(w)) + 2 * N(HalfOf(Part3(w)))
    ensures N(Part0(HalfWord(w))) == N(HalfOf(Part0(w))) + 128 * Low1(Part1(w))
    ensures N(Part1(HalfWord(w))) == N(HalfOf(Part1(w))) + 128 * Low1(Part2(w))
    ensures N(Part2(HalfWord(w))) == N(HalfOf(Part2(w))) + 128 * Low1(Part3(w))
    ensures N(Part3(HalfWord(w))) == N(HalfOf(Part3(w)))
    ensures Low1(Part0(w)) == 1 <==> OddWord(w)
  {
    hide Part0, Part1, Part2, Part3, ShiftIn, N, HalfOf, LowBit, HalfWord, OddWord;
    PartsOfHalf(w);
    ShiftInNum(Part0(w), Part1(w));
    ShiftInNum(Part1(w), Part2(w));
    ShiftInNum(Part2(w), Part3(w));
    HalfN(Part0(w));
    HalfN(Part1(w));
    HalfN(Part2(w));
    HalfN(Part3(w));
  }

  lemma HalfSum(a: nat, p: nat, b: nat, q: nat, c: nat, r: nat, d: nat, s: nat)
    requires p < 2
    ensures var n := (p + 2 * a) + 256 * ((q + 2 * b) + 256 * ((r + 2 * c) + 256 * (s + 2 * d)));
      && n % 2 == p
      && n / 2 == (a + 128 * q) + 256 * ((b + 128 * r) + 256 * ((c + 128 * s) + 256 * d))
  {
  }

  // ----- the register

  function ShiftWord(c: bv32): bv32 {
    if c & 1 == 1 then (c >> 1) ^ 0xedb8_8320 else c >> 1
  }

  lemma ShiftWordIs(c: bv32)
    ensures ShiftWord(c) == if OddWord(c) then BothWords(HalfWord(c), 0xedb8_8320) else HalfWord(c)
  {
  }

  lemma PolynomialNum()
    ensures Num(0xedb8_8320) == Polynomial
  {
  }

  lemma ShiftNum(w: bv32)
    ensures Shift(Num(w)) == Num(ShiftWord(w))
  {
    hide Num, Xor, BothWords, HalfWord, OddWord, ShiftWord;
    ShiftWordIs(w);
    HalfNum(w);
    XorNum(HalfWord(w), 0xedb8_8320);
    PolynomialNum();
  }

  function Shift8(c: bv32): bv32 {
    ShiftWord(ShiftWord(ShiftWord(ShiftWord(ShiftWord(ShiftWord(ShiftWord(ShiftWord(c))))))))
  }

  lemma Shift8Num(w: bv32)
    ensures Shifts(Num(w), 8) == Num(Shift8(w))
  {
    hide Num, Shift, ShiftWord;
    var w1 := ShiftWord(w);
    var w2 := ShiftWord(w1);
    var w3 := ShiftWord(w2);
    var w4 := ShiftWord(w3);
    var w5 := ShiftWord(w4);
    var w6 := ShiftWord(w5);
    var w7 := ShiftWord(w6);
    ShiftNum(w);
    ShiftNum(w1);
    ShiftNum(w2);
    ShiftNum(w3);
    ShiftNum(w4);
    ShiftNum(w5);
    ShiftNum(w6);
    ShiftNum(w7);
    assert Shifts(Num(w), 8) == Shifts(Num(w1), 7) == Shifts(Num(w2), 6) == Shifts(Num(w3), 5);
    assert Shifts(Num(w3), 5) == Shifts(Num(w4), 4) == Shifts(Num(w5), 3) == Shifts(Num(w6), 2);
    assert Shifts(Num(w6), 2) == Shifts(Num(w7), 1) == Shifts(Num(Shift8(w)), 0);
  }

  // ----- crc_table, sixteen entries at a time

  function Row0(i: bv8): bv32 {
    if i == 0x0 then 0x0000_0000
    else if i == 0x1 then 0x7707_3096
    else if i == 0x2 then 0xee0e_612c
    else if i == 0x3 then 0x9909_51ba
    else if i == 0x4 then 0x076d_c419
    else if i == 0x5 then 0x706a_f48f
    else if i == 0x6 then 0xe963_a535
    else if i == 0x7 then 0x9e64_95a3
    else if i == 0x8 then 0x0edb_8832
    else if i == 0x9 then 0x79dc_b8a4
    else if i == 0xa then 0xe0d5_e91e
    else if i == 0xb then 0x97d2_d988
    else if i == 0xc then 0x09b6_4c2b
    else if i == 0xd then 0x7eb1_7cbd
    else if i == 0xe then 0xe7b8_2d07
    else 0x90bf_1d91
  }

  function Row1(i: bv8): bv32 {
    if i == 0x0 then 0x1db7_1064
    else if i == 0x1 then 0x6ab0_20f2
    else if i == 0x2 then 0xf3b9_7148
    else if i == 0x3 then 0x84be_41de
    else if i == 0x4 then 0x1ada_d47d
    else if i == 0x5 then 0x6ddd_e4eb
    else if i == 0x6 then 0xf4d4_b551
    else if i == 0x7 then 0x83d3_85c7
    else if i == 0x8 then 0x136c_9856
    else if i == 0x9 then 0x646b_a8c0
    else if i == 0xa then 0xfd62_f97a
    else if i == 0xb then 0x8a65_c9ec
    else if i == 0xc then 0x1401_5c4f
    else if i == 0xd then 0x6306_6cd9
    else if i == 0xe then 0xfa0f_3d63
    else 0x8d08_0df5
  }

  function Row2(i: bv8): bv32 {
    if i == 0x0 then 0x3b6e_20c8
    else if i == 0x1 then 0x4c69_105e
    else if i == 0x2 then 0xd560_41e4
    else if i == 0x3 then 0xa267_7172
    else if i == 0x4 then 0x3c03_e4d1
    else if i == 0x5 then 0x4b04_d447
    else if i == 0x6 then 0xd20d_85fd
    else if i == 0x7 then 0xa50a_b56b
    else if i == 0x8 then 0x35b5_a8fa
    else if i == 0x9 then 0x42b2_986c
    else if i == 0xa then 0xdbbb_c9d6
    else if i == 0xb then 0xacbc_f940
    else if i == 0xc then 0x32d8_6ce3
    else if i == 0xd then 0x45df_5c75
    else if i == 0xe then 0xdcd6_0dcf
    else 0xabd1_3d59
  }

  function Row3(i: bv8): bv32 {
    if i == 0x0 then 0x26d9_30ac
    else if i == 0x1 then 0x51de_003a
    else if i == 0x2 then 0xc8d7_5180
    else if i == 0x3 then 0xbfd0_6116
    else if i == 0x4 then 0x21b4_f4b5
    else if i == 0x5 then 0x56b3_c423
    else if i == 0x6 then 0xcfba_9599
    else if i == 0x7 then 0xb8bd_a50f
    else if i == 0x8 then 0x2802_b89e
    else if i == 0x9 then 0x5f05_8808
    else if i == 0xa then 0xc60c_d9b2
    else if i == 0xb then 0xb10b_e924
    else if i == 0xc then 0x2f6f_7c87
    else if i == 0xd then 0x5868_4c11
    else if i == 0xe then 0xc161_1dab
    else 0xb666_2d3d
  }

  function Row4(i: bv8): bv32 {
    if i == 0x0 then 0x76dc_4190
    else if i == 0x1 then 0x01db_7106
    else if i == 0x2 then 0x98d2_20bc
    else if i == 0x3 then 0xefd5_102a
    else if i == 0x4 then 0x71b1_8589
    else if i == 0x5 then 0x06b6_b51f
    else if i == 0x6 then 0x9fbf_e4a5
    else if i == 0x7 then 0xe8b8_d433
    else if i == 0x8 then 0x7807_c9a2
    else if i == 0x9 then 0x0f00_f934
    else if i == 0xa then 0x9609_a88e
    else if i == 0xb then 0xe10e_9818
    else if i == 0xc then 0x7f6a_0dbb
    else if i == 0xd then 0x086d_3d2d
    else if i == 0xe then 0x9164_6c97
    else 0xe663_5c01
  }

  function Row5(i: bv8): bv32 {
    if i == 0x0 then 0x6b6b_51f4
    else if i == 0x1 then 0x1c6c_6162
    else if i == 0x2 then 0x8565_30d8
    else if i == 0x3 then 0xf262_004e
    else if i == 0x4 then 0x6c06_95ed
    else if i == 0x5 then 0x1b01_a57b
    else if i == 0x6 then 0x8208_f4c1
    else if i == 0x7 then 0xf50f_c457
    else if i == 0x8 then 0x65b0_d9c6
    else if i == 0x9 then 0x12b7_e950
    else if i == 0xa then 0x8bbe_b8ea
    else if i == 0xb then 0xfcb9_887c
    else if i == 0xc then 0x62dd_1ddf
    else if i == 0xd then 0x15da_2d49
    else if i == 0xe then 0x8cd3_7cf3
    else 0xfbd4_4c65
  }

  function Row6(i: bv8): bv32 {
    if i == 0x0 then 0x4db2_6158
    else if i == 0x1 then 0x3ab5_51ce
    else if i == 0x2 then 0xa3bc_0074
    else if i == 0x3 then 0xd4bb_30e2
    else if i == 0x4 then 0x4adf_a541
    else if i == 0x5 then 0x3dd8_95d7
    else if i == 0x6 then 0xa4d1_c46d
    else if i == 0x7 then 0xd3d6_f4fb
    else if i == 0x8 then 0x4369_e96a
    else if i == 0x9 then 0x346e_d9fc
    else if i == 0xa then 0xad67_8846
    else if i == 0xb then 0xda60_b8d0
    else if i == 0xc then 0x4404_2d73
    else if i == 0xd then 0x3303_1de5
    else if i == 0xe then 0xaa0a_4c5f
    else 0xdd0d_7cc9
  }

  function Row7(i: bv8): bv32 {
    if i == 0x0 then 0x5005_713c
    else if i == 0x1 then 0x2702_41aa
    else if i == 0x2 then 0xbe0b_1010
    else if i == 0x3 then 0xc90c_2086
    else if i == 0x4 then 0x5768_b525
    else if i == 0x5 then 0x206f_85b3
    else if i == 0x6 then 0xb966_d409
    else if i == 0x7 then 0xce61_e49f
    else if i == 0x8 then 0x5ede_f90e
    else if i == 0x9 then 0x29d9_c998
    else if i == 0xa then 0xb0d0_9822
    else if i == 0xb then 0xc7d7_a8b4
    else if i == 0xc then 0x59b3_3d17
    else if i == 0xd then 0x2eb4_0d81
    else if i == 0xe then 0xb7bd_5c3b
    else 0xc0ba_6cad
  }

  function Row8(i: bv8): bv32 {
    if i == 0x0 then 0xedb8_8320
    else if i == 0x1 then 0x9abf_b3b6
    else if i == 0x2 then 0x03b6_e20c
    else if i == 0x3 then 0x74b1_d29a
    else if i == 0x4 then 0xead5_4739
    else if i == 0x5 then 0x9dd2_77af
    else if i == 0x6 then 0x04db_2615
    else if i == 0x7 then 0x73dc_1683
    else if i == 0x8 then 0xe363_0b12
    else if i == 0x9 then 0x9464_3b84
    else if i == 0xa then 0x0d6d_6a3e
    else if i == 0xb then 0x7a6a_5aa8
    else if i == 0xc then 0xe40e_cf0b
    else if i == 0xd then 0x9309_ff9d
    else if i == 0xe then 0x0a00_ae27
    else 0x7d07_9eb1
  }

  function Row9(i: bv8): bv32 {
    if i == 0x0 then 0xf00f_9344
    else if i == 0x1 then 0x8708_a3d2
    else if i == 0x2 then 0x1e01_f268
    else if i == 0x3 then 0x6906_c2fe
    else if i == 0x4 then 0xf762_575d
    else if i == 0x5 then 0x8065_67cb
    else if i == 0x6 then 0x196c_3671
    else if i == 0x7 then 0x6e6b_06e7
    else if i == 0x8 then 0xfed4_1b76
    else if i == 0x9 then 0x89d3_2be0
    else if i == 0xa then 0x10da_7a5a
    else if i == 0xb then 0x67dd_4acc
    else if i == 0xc then 0xf9b9_df6f
    else if i == 0xd then 0x8ebe_eff9
    else if i == 0xe then 0x17b7_be43
    else 0x60b0_8ed5
  }

  function Rowa(i: bv8): bv32 {
    if i == 0x0 then 0xd6d6_a3e8
    else if i == 0x1 then 0xa1d1_937e
    else if i == 0x2 then 0x38d8_c2c4
    else if i == 0x3 then 0x4fdf_f252
    else if i == 0x4 then 0xd1bb_67f1
    else if i == 0x5 then 0xa6bc_5767
    else if i == 0x6 then 0x3fb5_06dd
    else if i == 0x7 then 0x48b2_364b
    else if i == 0x8 then 0xd80d_2bda
    else if i == 0x9 then 0xaf0a_1b4c
    else if i == 0xa then 0x3603_4af6
    else if i == 0xb then 0x4104_7a60
    else if i == 0xc then 0xdf60_efc3
    else if i == 0xd then 0xa867_df55
    else if i == 0xe then 0x316e_8eef
    else 0x4669_be79
  }

  function Rowb(i: bv8): bv32 {
    if i == 0x0 then 0xcb61_b38c
    else if i == 0x1 then 0xbc66_831a
    else if i == 0x2 then 0x256f_d2a0
    else if i == 0x3 then 0x5268_e236
    else if i == 0x4 then 0xcc0c_7795
    else if i == 0x5 then 0xbb0b_4703
    else if i == 0x6 then 0x2202_16b9
    else if i == 0x7 then 0x5505_262f
    else if i == 0x8 then 0xc5ba_3bbe
    else if i == 0x9 then 0xb2bd_0b28
    else if i == 0xa then 0x2bb4_5a92
    else if i == 0xb then 0x5cb3_6a04
    else if i == 0xc then 0xc2d7_ffa7
    else if i == 0xd then 0xb5d0_cf31
    else if i == 0xe then 0x2cd9_9e8b
    else 0x5bde_ae1d
  }

  function Rowc(i: bv8): bv32 {
    if i == 0x0 then 0x9b64_c2b0
    else if i == 0x1 then 0xec63_f226
    else if i == 0x2 then 0x756a_a39c
    else if i == 0x3 then 0x026d_930a
    else if i == 0x4 then 0x9c09_06a9
    else if i == 0x5 then 0xeb0e_363f
    else if i == 0x6 then 0x7207_6785
    else if i == 0x7 then 0x0500_5713
    else if i == 0x8 then 0x95bf_4a82
    else if i == 0x9 then 0xe2b8_7a14
    else if i == 0xa then 0x7bb1_2bae
    else if i == 0xb then 0x0cb6_1b38
    else if i == 0xc then 0x92d2_8e9b
    else if i == 0xd then 0xe5d5_be0d
    else if i == 0xe then 0x7cdc_efb7
    else 0x0bdb_df21
  }

  function Rowd(i: bv8): bv32 {
    if i == 0x0 then 0x86d3_d2d4
    else if i == 0x1 then 0xf1d4_e242
    else if i == 0x2 then 0x68dd_b3f8
    else if i == 0x3 then 0x1fda_836e
    else if i == 0x4 then 0x81be_16cd
    else if i == 0x5 then 0xf6b9_265b
    else if i == 0x6 then 0x6fb0_77e1
    else if i == 0x7 then 0x18b7_4777
    else if i == 0x8 then 0x8808_5ae6
    else if i == 0x9 then 0xff0f_6a70
    else if i == 0xa then 0x6606_3bca
    else if i == 0xb then 0x1101_0b5c
    else if i == 0xc then 0x8f65_9eff
    else if i == 0xd then 0xf862_ae69
    else if i == 0xe then 0x616b_ffd3
    else 0x166c_cf45
  }

  function Rowe(i: bv8): bv32 {
    if i == 0x0 then 0xa00a_e278
    else if i == 0x1 then 0xd70d_d2ee
    else if i == 0x2 then 0x4e04_8354
    else if i == 0x3 then 0x3903_b3c2
    else if i == 0x4 then 0xa767_2661
    else if i == 0x5 then 0xd060_16f7
    else if i == 0x6 then 0x4969_474d
    else if i == 0x7 then 0x3e6e_77db
    else if i == 0x8 then 0xaed1_6a4a
    else if i == 0x9 then 0xd9d6_5adc
    else if i == 0xa then 0x40df_0b66
    else if i == 0xb then 0x37d8_3bf0
    else if i == 0xc then 0xa9bc_ae53
    else if i == 0xd then 0xdebb_9ec5
    else if i == 0xe then 0x47b2_cf7f
    else 0x30b5_ffe9
  }

  function Rowf(i: bv8): bv32 {
    if i == 0x0 then 0xbdbd_f21c
    else if i == 0x1 then 0xcaba_c28a
    else if i == 0x2 then 0x53b3_9330
    else if i == 0x3 then 0x24b4_a3a6
    else if i == 0x4 then 0xbad0_3605
    else if i == 0x5 then 0xcdd7_0693
    else if i == 0x6 then 0x54de_5729
    else if i == 0x7 then 0x23d9_67bf
    else if i == 0x8 then 0xb366_7a2e
    else if i == 0x9 then 0xc461_4ab8
    else if i == 0xa then 0x5d68_1b02
    else if i == 0xb then 0x2a6f_2b94
    else if i == 0xc then 0xb40b_be37
    else if i == 0xd then 0xc30c_8ea1
    else if i == 0xe then 0x5a05_df1b
    else 0x2d02_ef8d
  }

  function Entry(i: bv8): bv32 {
    if i < 0x10 then Row0(i)
    else if i < 0x20 then Row1(i - 0x10)
    else if i < 0x30 then Row2(i - 0x20)
    else if i < 0x40 then Row3(i - 0x30)
    else if i < 0x50 then Row4(i - 0x40)
    else if i < 0x60 then Row5(i - 0x50)
    else if i < 0x70 then Row6(i - 0x60)
    else if i < 0x80 then Row7(i - 0x70)
    else if i < 0x90 then Row8(i - 0x80)
    else if i < 0xa0 then Row9(i - 0x90)
    else if i < 0xb0 then Rowa(i - 0xa0)
    else if i < 0xc0 then Rowb(i - 0xb0)
    else if i < 0xd0 then Rowc(i - 0xc0)
    else if i < 0xe0 then Rowd(i - 0xd0)
    else if i < 0xf0 then Rowe(i - 0xe0)
    else Rowf(i - 0xf0)
  }

  lemma IsRow0(i: bv8)
    requires i < 16
    ensures Row0(i) == Shift8(0x00 + (i as bv32))
  {
  }

  lemma IsRow1(i: bv8)
    requires i < 16
    ensures Row1(i) == Shift8(0x10 + (i as bv32))
  {
  }

  lemma IsRow2(i: bv8)
    requires i < 16
    ensures Row2(i) == Shift8(0x20 + (i as bv32))
  {
  }

  lemma IsRow3(i: bv8)
    requires i < 16
    ensures Row3(i) == Shift8(0x30 + (i as bv32))
  {
  }

  lemma IsRow4(i: bv8)
    requires i < 16
    ensures Row4(i) == Shift8(0x40 + (i as bv32))
  {
  }

  lemma IsRow5(i: bv8)
    requires i < 16
    ensures Row5(i) == Shift8(0x50 + (i as bv32))
  {
  }

  lemma IsRow6(i: bv8)
    requires i < 16
    ensures Row6(i) == Shift8(0x60 + (i as bv32))
  {
  }

  lemma IsRow7(i: bv8)
    requires i < 16
    ensures Row7(i) == Shift8(0x70 + (i as bv32))
  {
  }

  lemma IsRow8(i: bv8)
    requires i < 16
    ensures Row8(i) == Shift8(0x80 + (i as bv32))
  {
  }

  lemma IsRow9(i: bv8)
    requires i < 16
    ensures Row9(i) == Shift8(0x90 + (i as bv32))
  {
  }

  lemma IsRowa(i: bv8)
    requires i < 16
    ensures Rowa(i) == Shift8(0xa0 + (i as bv32))
  {
  }

  lemma IsRowb(i: bv8)
    requires i < 16
    ensures Rowb(i) == Shift8(0xb0 + (i as bv32))
  {
  }

  lemma IsRowc(i: bv8)
    requires i < 16
    ensures Rowc(i) == Shift8(0xc0 + (i as bv32))
  {
  }

  lemma IsRowd(i: bv8)
    requires i < 16
    ensures Rowd(i) == Shift8(0xd0 + (i as bv32))
  {
  }

  lemma IsRowe(i: bv8)
    requires i < 16
    ensures Rowe(i) == Shift8(0xe0 + (i as bv32))
  {
  }

  lemma IsRowf(i: bv8)
    requires i < 16
    ensures Rowf(i) == Shift8(0xf0 + (i as bv32))
  {
  }

  /** An index in the row that begins at `first`. */
  lemma InRow(i: bv8, first: bv8)
    requires first <= i
    ensures (first as bv32) + ((i - first) as bv32) == i as bv32
  {
  }

  lemma LowEntries(i: bv8)
    requires i < 0x80
    ensures Entry(i) == Shift8(i as bv32)
  {
    hide Shift8, Row0, Row1, Row2, Row3, Row4, Row5, Row6, Row7;
    if i < 0x10 { InRow(i, 0); IsRow0(i); }
    else if i < 0x20 { InRow(i, 0x10); IsRow1(i - 0x10); }
    else if i < 0x30 { InRow(i, 0x20); IsRow2(i - 0x20); }
    else if i < 0x40 { InRow(i, 0x30); IsRow3(i - 0x30); }
    else if i < 0x50 { InRow(i, 0x40); IsRow4(i - 0x40); }
    else if i < 0x60 { InRow(i, 0x50); IsRow5(i - 0x50); }
    else if i < 0x70 { InRow(i, 0x60); IsRow6(i - 0x60); }
    else { InRow(i, 0x70); IsRow7(i - 0x70); }
  }

  lemma HighEntries(i: bv8)
    requires i >= 0x80
    ensures Entry(i) == Shift8(i as bv32)
  {
    hide Shift8, Row8, Row9, Rowa, Rowb, Rowc, Rowd, Rowe, Rowf;
    if i < 0x90 { InRow(i, 0x80); IsRow8(i - 0x80); }
    else if i < 0xa0 { InRow(i, 0x90); IsRow9(i - 0x90); }
    else if i < 0xb0 { InRow(i, 0xa0); IsRowa(i - 0xa0); }
    else if i < 0xc0 { InRow(i, 0xb0); IsRowb(i - 0xb0); }
    else if i < 0xd0 { InRow(i, 0xc0); IsRowc(i - 0xc0); }
    else if i < 0xe0 { InRow(i, 0xd0); IsRowd(i - 0xd0); }
    else if i < 0xf0 { InRow(i, 0xe0); IsRowe(i - 0xe0); }
    else { InRow(i, 0xf0); IsRowf(i - 0xf0); }
  }

  lemma NumOfByte(b: bv8)
    ensures Num(b as bv32) == N(b)
  {
    assert Part0(b as bv32) == b && Part1(b as bv32) == 0 && Part2(b as bv32) == 0 && Part3(b as bv32) == 0;
  }

  lemma ByteOf(i: nat)
    requires i < 256
    ensures N(i as bv8) == i
  {
  }

  /** crc_table. */
  function Constants(): (r: seq<nat>)
    ensures |r| == 256
  {
    seq(256, i requires 0 <= i < 256 => Num(Entry(i as bv8)))
  }

  /** Every constant of the table is eight bit-serial shifts of its index. */
  lemma ConstantsAreTable()
    ensures IsTable(Constants())
  {
    hide Num, Entry, Shift8, Shifts, N;
    forall i | 0 <= i < 256
      ensures Constants()[i] == Shifts(i, 8)
    {
      var b := i as bv8;
      if b < 0x80 { LowEntries(b); } else { HighEntries(b); }
      Shift8Num(b as bv32);
      NumOfByte(b);
      ByteOf(i);
    }
  }

  // ----- the check value

  /** One byte on a word. */
  lemma ByteNum(w: bv32, b: bv8, next: bv32, data: seq<Byte>)
    requires next == Shift8(BothWords(w, b as bv32)) && data != [] && data[0] == N(b)
    ensures Serial(Num(w), data) == Serial(Num(next), data[1..])
  {
    hide Num, Xor, Shift8, Shifts, BothWords, N;
    NumOfByte(b);
    XorNum(w, b as bv32);
    Shift8Num(BothWords(w, b as bv32));
  }

  lemma CheckWords()
    ensures Num(0xffff_ffff) == Ones && Num(0x340b_c6d9) == 0x340b_c6d9
  {
  }

  /** The checksum of the digits 1 to 9, by which CRCs are told apart. */
  lemma CheckValue(d: seq<Byte>)
    requires |d| == 9 && forall i :: 0 <= i < 9 ==> d[i] == 0x31 + i
    ensures Resumed(0, d) == 0xcbf4_3926
  {
    hide Num, Xor, Serial;
    CheckWords();
    OnesComplement(0);
    OnesComplement(0x340b_c6d9);
    DigitSteps(d);
  }

  lemma DigitSteps(d: seq<Byte>)
    requires |d| == 9 && forall i :: 0 <= i < 9 ==> d[i] == 0x31 + i
    ensures Serial(Num(0xffff_ffff), d) == Num(0x340b_c6d9)
  {
    hide Num, Serial;
    ByteNum(0xffff_ffff, 0x31, 0x7c23_1048, d[0..]);
    ByteNum(0x7c23_1048, 0x32, 0xb0ac_bb32, d[1..]);
    ByteNum(0xb0ac_bb32, 0x33, 0x77b7_9c2d, d[2..]);
    ByteNum(0x77b7_9c2d, 0x34, 0x641c_1f5c, d[3..]);
    ByteNum(0x641c_1f5c, 0x35, 0x340a_c5e3, d[4..]);
    ByteNum(0x340a_c5e3, 0x36, 0xf68d_2c9e, d[5..]);
    ByteNum(0xf68d_2c9e, 0x37, 0xaffc_9660, d[6..]);
    ByteNum(0xaffc_9660, 0x38, 0x651f_2550, d[7..]);
    ByteNum(0x651f_2550, 0x39, 0x340b_c6d9, d[8..]);
    SerialNone(Num(0x340b_c6d9), d[9..]);
  }

  /** ucrc32 with the table it ships with; a null buffer gives 0. */
  method Ucrc32(crc: nat, buf: Option<seq<Byte>>) returns (r: nat)
    ensures r == if buf.None? then 0 else Resumed(crc, buf.value)
  {
    if buf.None? { return 0; }
    ConstantsAreTable();
    r := UCrc32(Constants(), crc, buf.value);
  }
}
