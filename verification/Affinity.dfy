/**
 sqlite3AffinityType of build.c: a one-pass scan with a rolling 32-bit word, against the documented
 table of substrings and their priorities.
 */
module Affinity {
  import opened Bits

  datatype Affinity = TextAff | NoneAff | NumericAff | IntegerAff | RealAff

  type Bytes = seq<Byte>

  /** sqlite3UpperToLower for the ASCII letters. */
  function Lower(c: Byte): Byte {
    if 0x41 <= c <= 0x5a then c + 0x20 else c
  }

  function Lowered(z: Bytes): (r: Bytes)
    ensures |r| == |z|
    ensures forall i :: 0 <= i < |z| ==> r[i] == Lower(z[i])
  {
    seq(|z|, i requires 0 <= i < |z| => Lower(z[i]))
  }

  /** Two bytes that are the same letter, or the same byte. */
  predicate SameLetter(x: Byte, y: Byte) {
    x == y || (0x41 <= x <= 0x5a && y == x + 0x20) || (0x41 <= y <= 0x5a && x == y + 0x20)
  }

  /** Names that differ only in the case of their letters have the same affinity. */
  lemma CaseDoesNotMatter(x: Bytes, y: Bytes)
    requires |x| == |y| && forall i :: 0 <= i < |x| ==> SameLetter(x[i], y[i])
    ensures ByTable(Lowered(x)) == ByTable(Lowered(y))
  {
    assert Lowered(x) == Lowered(y);
  }

  /** A name without capital letters is compared as it is. */
  lemma LowerCaseStays(z: Bytes)
    requires forall i :: 0 <= i < |z| ==> !(0x41 <= z[i] <= 0x5a)
    ensures Lowered(z) == z
  {
  }

  // ----- the documented table

  const INT: Bytes := [0x69, 0x6e, 0x74]
  const CHAR: Bytes := [0x63, 0x68, 0x61, 0x72]
  const CLOB: Bytes := [0x63, 0x6c, 0x6f, 0x62]
  const TEXT: Bytes := [0x74, 0x65, 0x78, 0x74]
  const BLOB: Bytes := [0x62, 0x6c, 0x6f, 0x62]
  const REAL: Bytes := [0x72, 0x65, 0x61, 0x6c]
  const FLOA: Bytes := [0x66, 0x6c, 0x6f, 0x61]
  const DOUB: Bytes := [0x64, 0x6f, 0x75, 0x62]

  function Ascii(s: string): (r: seq<nat>)
    ensures |r| == |s|
  {
    seq(|s|, i requires 0 <= i < |s| => s[i] as int)
  }

  /** The words of the table, spelled out. */
  lemma Letters()
    ensures INT == Ascii("int") && CHAR == Ascii("char") && CLOB == Ascii("clob") && TEXT == Ascii("text")
    ensures BLOB == Ascii("blob") && REAL == Ascii("real") && FLOA == Ascii("floa") && DOUB == Ascii("doub")
  {
  }

  ghost predicate OccursAt(z: Bytes, w: Bytes, i: nat) {
    i + |w| <= |z| && z[i..i + |w|] == w
  }

  ghost predicate Has(z: Bytes, w: Bytes) {
    exists i: nat :: OccursAt(z, w, i)
  }

  /** Entries further up in the table take priority, wherever the substrings occur. */
  ghost function ByTable(z: Bytes): Affinity {
    if Has(z, INT) then IntegerAff
    else if Has(z, CHAR) || Has(z, CLOB) || Has(z, TEXT) then TextAff
    else if Has(z, BLOB) then NoneAff
    else if Has(z, REAL) || Has(z, FLOA) || Has(z, DOUB) then RealAff
    else NumericAff
  }

  predicate EndsWith(z: Bytes, w: Bytes) {
    |w| <= |z| && z[|z| - |w|..] == w
  }

  /** One more byte: a word occurs if it did before or ends here. */
  lemma HasMore(z: Bytes, c: Byte, w: Bytes)
    requires w != []
    ensures Has(z + [c], w) <==> Has(z, w) || EndsWith(z + [c], w)
  {
    var z' := z + [c];
    if Has(z, w) {
      var i: nat :| OccursAt(z, w, i);
      assert z'[i..i + |w|] == z[i..i + |w|];
      assert OccursAt(z', w, i);
    }
    if EndsWith(z', w) {
      assert OccursAt(z', w, |z'| - |w|);
    }
    if i: nat :| OccursAt(z', w, i) {
      if i + |w| < |z'| {
        assert z[i..i + |w|] == z'[i..i + |w|];
        assert OccursAt(z, w, i);
      }
    }
  }

  // ----- the rolling word

  function Pack(a: Byte, b: Byte, c: Byte, d: Byte): (r: nat)
    ensures r < 0x1_0000_0000
  {
    ((a * 0x100 + b) * 0x100 + c) * 0x100 + d
  }

  /** (h << 8) + c in 32 bits. */
  function Roll(h: nat, c: Byte): nat {
    (h * 0x100 + c) % 0x1_0000_0000
  }

  lemma PackRolls(a: Byte, b: Byte, c: Byte, d: Byte, e: Byte)
    ensures Roll(Pack(a, b, c, d), e) == Pack(b, c, d, e)
  {
    assert Pack(a, b, c, d) * 0x100 + e == a * 0x1_0000_0000 + Pack(b, c, d, e);
  }

  lemma PackEqual(a: Byte, b: Byte, c: Byte, d: Byte, e: Byte, f: Byte, g: Byte, h: Byte)
    ensures Pack(a, b, c, d) == Pack(e, f, g, h) <==> a == e && b == f && c == g && d == h
    ensures Pack(a, b, c, d) % 0x100_0000 == Pack(0, f, g, h) <==> b == f && c == g && d == h
  {
    PairEqual(a, b, e, f);
    PairEqual(a * 0x100 + b, c, e * 0x100 + f, g);
    PairEqual((a * 0x100 + b) * 0x100 + c, d, (e * 0x100 + f) * 0x100 + g, h);
    PairEqual(b, c, f, g);
    PairEqual(b * 0x100 + c, d, f * 0x100 + g, h);
    LowPart(a, b, c, d);
  }

  lemma PairEqual(x: nat, c: Byte, y: nat, d: Byte)
    ensures x * 0x100 + c == y * 0x100 + d <==> x == y && c == d
  {
  }

  lemma LowPart(a: Byte, b: Byte, c: Byte, d: Byte)
    ensures Pack(a, b, c, d) % 0x100_0000 == Pack(0, b, c, d)
  {
    assert Pack(a, b, c, d) == a * 0x100_0000 + Pack(0, b, c, d);
  }

  /** The k-th byte from the end, zero when there are not so many. */
  function Back(z: Bytes, k: nat): Byte {
    if k < |z| then z[|z| - 1 - k] else 0
  }

  /** The word h after the bytes z. */
  ghost predicate Rolled(h: nat, z: Bytes) {
    h == Pack(Back(z, 3), Back(z, 2), Back(z, 1), Back(z, 0))
  }

  lemma Rolls(h: nat, z: Bytes, c: Byte)
    requires Rolled(h, z)
    ensures Rolled(Roll(h, c), z + [c])
  {
    hide Pack;
    PackRolls(Back(z, 3), Back(z, 2), Back(z, 1), Back(z, 0), c);
  }

  /** The word of four non-zero bytes. */
  function Word(w: Bytes): nat
    requires |w| == 4
  {
    Pack(w[0], w[1], w[2], w[3])
  }

  lemma WordMatches(h: nat, z: Bytes, w: Bytes)
    requires Rolled(h, z) && |w| == 4 && w[0] != 0
    ensures h == Word(w) <==> EndsWith(z, w)
  {
    hide Pack;
    PackEqual(Back(z, 3), Back(z, 2), Back(z, 1), Back(z, 0), w[0], w[1], w[2], w[3]);
    if |z| >= 4 {
      var y := z[|z| - 4..];
      assert y[0] == Back(z, 3) && y[1] == Back(z, 2) && y[2] == Back(z, 1) && y[3] == Back(z, 0);
    }
  }

  lemma IntMatches(h: nat, z: Bytes)
    requires Rolled(h, z)
    ensures h % 0x100_0000 == Pack(0, 0x69, 0x6e, 0x74) <==> EndsWith(z, INT)
  {
    hide Pack;
    PackEqual(Back(z, 3), Back(z, 2), Back(z, 1), Back(z, 0), 0, 0x69, 0x6e, 0x74);
    if |z| >= 3 {
      var y := z[|z| - 3..];
      assert y[0] == Back(z, 2) && y[1] == Back(z, 1) && y[2] == Back(z, 0);
    }
  }

  /** The effect of one byte, in terms of the words that end there. */
  function Next(aff: Affinity, z: Bytes): Affinity {
    if EndsWith(z, CHAR) || EndsWith(z, CLOB) || EndsWith(z, TEXT) then TextAff
    else if EndsWith(z, BLOB) && (aff == NumericAff || aff == RealAff) then NoneAff
    else if (EndsWith(z, REAL) || EndsWith(z, FLOA) || EndsWith(z, DOUB)) && aff == NumericAff then RealAff
    else if EndsWith(z, INT) then IntegerAff
    else aff
  }

  /** Words that end in the same place are the same, and none of the longer ones ends in INT. */
  lemma OneWord(z: Bytes)
    ensures EndsWith(z, INT) ==> !EndsWith(z, CHAR) && !EndsWith(z, CLOB) && !EndsWith(z, TEXT) && !EndsWith(z, BLOB)
    ensures EndsWith(z, INT) ==> !EndsWith(z, REAL) && !EndsWith(z, FLOA) && !EndsWith(z, DOUB)
  {
    if |z| >= 4 {
      var y := z[|z| - 4..];
      assert EndsWith(z, INT) ==> y[3] == z[|z| - 3..][2] == 0x74 && y[2] == z[|z| - 3..][1] == 0x6e;
    }
  }

  lemma Step(z: Bytes, c: Byte)
    requires !Has(z, INT)
    ensures ByTable(z + [c]) == Next(ByTable(z), z + [c])
    ensures Has(z + [c], INT) <==> EndsWith(z + [c], INT)
  {
    hide Has, EndsWith;
    HasMore(z, c, INT);
    HasMore(z, c, CHAR);
    HasMore(z, c, CLOB);
    HasMore(z, c, TEXT);
    HasMore(z, c, BLOB);
    HasMore(z, c, REAL);
    HasMore(z, c, FLOA);
    HasMore(z, c, DOUB);
    OneWord(z + [c]);
  }

  /** A name that contains INT has integer affinity, whatever follows. */
  lemma IntDecides(z: Bytes, k: nat)
    requires k <= |z| && Has(z[..k], INT)
    ensures Has(z, INT)
  {
    var i: nat :| OccursAt(z[..k], INT, i);
    assert z[i..i + 3] == z[..k][i..i + 3];
    assert OccursAt(z, INT, i);
  }

  lemma IntFirst(z: Bytes)
    requires Has(z, INT)
    ensures ByTable(z) == IntegerAff
  {
  }

  /** The tests on the rolling word; only INT ends the scan. */
  method Judge(h: nat, aff: Affinity, ghost z: Bytes) returns (r: Affinity, stop: bool)
    requires Rolled(h, z)
    ensures r == Next(aff, z) && stop == EndsWith(z, INT)
  {
    hide EndsWith, Rolled, Word;
    WordMatches(h, z, CHAR);
    WordMatches(h, z, CLOB);
    WordMatches(h, z, TEXT);
    WordMatches(h, z, BLOB);
    WordMatches(h, z, REAL);
    WordMatches(h, z, FLOA);
    WordMatches(h, z, DOUB);
    IntMatches(h, z);
    OneWord(z);
    r, stop := aff, false;
    if h == Word(CHAR) {
      r := TextAff;
    } else if h == Word(CLOB) {
      r := TextAff;
    } else if h == Word(TEXT) {
      r := TextAff;
    } else if h == Word(BLOB) && (aff == NumericAff || aff == RealAff) {
      r := NoneAff;
    } else if h == Word(REAL) && aff == NumericAff {
      r := RealAff;
    } else if h == Word(FLOA) && aff == NumericAff {
      r := RealAff;
    } else if h == Word(DOUB) && aff == NumericAff {
      r := RealAff;
    } else if h % 0x100_0000 == Pack(0, 0x69, 0x6e, 0x74) {
      r, stop := IntegerAff, true;
    }
  }

  method AffinityType(zIn: Bytes) returns (aff: Affinity)
    ensures aff == ByTable(Lowered(zIn))
  {
    hide Has, ByTable, Rolled, EndsWith;
    ghost var z := Lowered(zIn);
    var h: nat := 0;
    aff := NumericAff;
    Start();
    for i := 0 to |zIn|
      invariant Rolled(h, z[..i]) && aff == ByTable(z[..i]) && !Has(z[..i], INT)
    {
      ghost var y := z[..i + 1];
      assert y == z[..i] + [z[i]];
      Rolls(h, z[..i], z[i]);
      h := Roll(h, Lower(zIn[i]));
      Step(z[..i], z[i]);
      var stop;
      aff, stop := Judge(h, aff, y);
      if stop {
        IntDecides(z, i + 1);
        IntFirst(z);
        IntFirst(y);
        return;
      }
    }
    assert z[..|zIn|] == z;
  }

  lemma Start()
    ensures Rolled(0, []) && ByTable([]) == NumericAff && !Has([], INT)
  {
    hide Has;
    NotInEmpty(INT);
    NotInEmpty(CHAR);
    NotInEmpty(CLOB);
    NotInEmpty(TEXT);
    NotInEmpty(BLOB);
    NotInEmpty(REAL);
    NotInEmpty(FLOA);
    NotInEmpty(DOUB);
  }

  lemma NotInEmpty(w: Bytes)
    requires w != []
    ensures !Has([], w)
  {
  }
}
