/**
 adler32 of XUnzip.cpp: sums are reduced only once per run of 5552 bytes, and agree with the
 byte-by-byte definition in section 2.2 of RFC 1950.
 */
module Adler32 {
  import opened Wrappers
  import opened Bits

  const BASE: nat := 65521
  const NMAX: nat := 5552

  type Sum = s: nat | s < 65521

  // ----- the definition

  /** Both sums, reduced after every byte. */
  function Sums(s1: Sum, s2: Sum, data: seq<Byte>): (Sum, Sum)
    decreases |data|
  {
    if data == [] then (s1, s2)
    else
      var t1 := (s1 + data[0]) % BASE;
      Sums(t1, (s2 + t1) % BASE, data[1..])
  }

  function Joined(s1: Sum, s2: Sum): nat {
    s2 * 0x1_0000 + s1
  }

  /** The checksum of data that continues data with checksum `adler`. */
  function Resumed(adler: nat, data: seq<Byte>): (r: nat)
    requires adler % 0x1_0000 < BASE && adler / 0x1_0000 < BASE
    ensures r % 0x1_0000 < BASE && r / 0x1_0000 < BASE
  {
    var (t1, t2) := Sums(adler % 0x1_0000, adler / 0x1_0000, data);
    Joined(t1, t2)
  }

  /** However the data are split, resuming gives the checksum of the whole. */
  lemma ResumedAppend(adler: nat, x: seq<Byte>, y: seq<Byte>)
    requires adler % 0x1_0000 < BASE && adler / 0x1_0000 < BASE
    ensures Resumed(Resumed(adler, x), y) == Resumed(adler, x + y)
  {
    hide Sums, Joined;
    SumsCompose(adler % 0x1_0000, adler / 0x1_0000, x, y);
    var (t1, t2) := Sums(adler % 0x1_0000, adler / 0x1_0000, x);
    Halves(t1, t2);
  }

  lemma Halves(s1: Sum, s2: Sum)
    ensures Joined(s1, s2) % 0x1_0000 == s1 && Joined(s1, s2) / 0x1_0000 == s2
  {
  }

  /** The checksum of "ab": the plain sum is in the low half, the sum of sums in the high half. */
  lemma ResumedExample()
    ensures Resumed(1, [0x61, 0x62]) == 0x0126_00c4
  {
    assert [0x61, 0x62][1..] == [0x62] && [0x62][1..] == [];
    assert Sums(98, 98, [0x62]) == Sums(196, 294, []);
  }

  /** Checksums of pieces compose. */
  lemma {:induction false} SumsCompose(s1: Sum, s2: Sum, x: seq<Byte>, y: seq<Byte>)
    ensures var (t1, t2) := Sums(s1, s2, x); Sums(s1, s2, x + y) == Sums(t1, t2, y)
    decreases |x|
  {
    if x == [] {
      assert x + y == y;
    } else {
      assert (x + y)[1..] == x[1..] + y;
      var t1 := (s1 + x[0]) % BASE;
      SumsCompose(t1, (s2 + t1) % BASE, x[1..], y);
    }
  }

  // ----- sums that are not reduced

  function Raw(s1: nat, s2: nat, data: seq<Byte>): (nat, nat)
    decreases |data|
  {
    if data == [] then (s1, s2)
    else
      var (r1, r2) := Raw(s1, s2, data[..|data| - 1]);
      var t1 := r1 + data[|data| - 1];
      (t1, r2 + t1)
  }

  function Triangle(n: nat): nat {
    if n == 0 then 0 else n + Triangle(n - 1)
  }

  lemma {:induction false} TriangleIs(n: nat)
    ensures 2 * Triangle(n) == n * (n + 1)
  {
    if n > 0 {
      TriangleIs(n - 1);
      assert n * (n + 1) == (n - 1) * n + 2 * n;
    }
  }

  lemma {:induction false} RawBound(s1: Sum, s2: Sum, data: seq<Byte>)
    ensures var (r1, r2) := Raw(s1, s2, data);
      && r1 <= 65520 + 255 * |data|
      && r2 <= 65520 * (|data| + 1) + 255 * Triangle(|data|)
    decreases |data|
  {
    if data != [] { RawBound(s1, s2, data[..|data| - 1]); }
  }

  /** Within a run neither sum leaves 32 bits. */
  lemma RawFits(s1: Sum, s2: Sum, data: seq<Byte>)
    requires |data| <= NMAX
    ensures var (r1, r2) := Raw(s1, s2, data); r1 < 0x1_0000_0000 && r2 < 0x1_0000_0000
  {
    hide Raw, Triangle;
    RawBound(s1, s2, data);
    TriangleIs(|data|);
    Square(|data|);
  }

  lemma Square(n: nat)
    requires n <= NMAX
    ensures n * (n + 1) <= NMAX * (NMAX + 1)
  {
    assert n * (n + 1) <= NMAX * (n + 1) by { Times(n, NMAX, n + 1); }
  }

  lemma Times(a: nat, b: nat, c: nat)
    requires a <= b
    ensures a * c <= b * c
  {
  }

  /** Reducing at the end is reducing after every byte. */
  lemma {:induction false} RawReduces(s1: Sum, s2: Sum, data: seq<Byte>)
    ensures var (r1, r2) := Raw(s1, s2, data); Sums(s1, s2, data) == (r1 % BASE, r2 % BASE)
    decreases |data|
  {
    hide Sums;
    if data == [] {
      SumsNone(s1, s2, data);
    } else {
      var front, c := data[..|data| - 1], data[|data| - 1];
      RawReduces(s1, s2, front);
      SumsCompose(s1, s2, front, [c]);
      assert data == front + [c];
      var (r1, r2) := Raw(s1, s2, front);
      OneMore(r1, r2, c);
    }
  }

  lemma OneMore(r1: nat, r2: nat, c: Byte)
    ensures Sums(r1 % BASE, r2 % BASE, [c]) == ((r1 + c) % BASE, (r2 + (r1 + c)) % BASE)
  {
    hide Sums;
    SumsOne(r1 % BASE, r2 % BASE, c);
    ModAdd(r1, c);
    ModAdd2(r2, r1 + c);
  }

  lemma SumsOne(s1: Sum, s2: Sum, c: Byte)
    ensures Sums(s1, s2, [c]) == ((s1 + c) % BASE, (s2 + (s1 + c) % BASE) % BASE)
  {
    var t1 := (s1 + c) % BASE;
    assert [c][1..] == [];
    assert Sums(t1, (s2 + t1) % BASE, []) == (t1, (s2 + t1) % BASE);
  }

  lemma ModAdd(a: nat, b: nat)
    ensures (a % BASE + b) % BASE == (a + b) % BASE
  {
    var q := a / BASE;
    assert a + b == (a % BASE + b) + q * BASE;
    ModPlus(a % BASE + b, q);
  }

  lemma ModAdd2(a: nat, b: nat)
    ensures (a % BASE + b % BASE) % BASE == (a + b) % BASE
  {
    ModAdd(a, b % BASE);
    ModAdd(b, a);
  }

  lemma {:induction false} ModPlus(x: nat, q: nat)
    ensures (x + q * BASE) % BASE == x % BASE
    decreases q
  {
    if q > 0 {
      ModPlus(x, q - 1);
      assert x + q * BASE == (x + (q - 1) * BASE) + BASE;
    }
  }

  // ----- the program

  lemma RawMore(s1: nat, s2: nat, data: seq<Byte>, k: nat)
    requires k < |data|
    ensures var (r1, r2) := Raw(s1, s2, data[..k]);
      Raw(s1, s2, data[..k + 1]) == (r1 + data[k], r2 + (r1 + data[k]))
  {
    assert data[..k + 1][..k] == data[..k];
  }

  /** n bytes from position `from` of a run; 32-bit sums that never wrap. */
  method Steps(ghost s1: Sum, ghost s2: Sum, run: seq<Byte>, from: nat, n: nat, a1: nat, a2: nat) returns (r1: nat, r2: nat)
    requires |run| <= NMAX && from + n <= |run| && (a1, a2) == Raw(s1, s2, run[..from])
    ensures (r1, r2) == Raw(s1, s2, run[..from + n])
  {
    hide Raw;
    r1, r2 := a1, a2;
    for i := 0 to n
      invariant (r1, r2) == Raw(s1, s2, run[..from + i])
    {
      RawMore(s1, s2, run, from + i);
      RawFits(s1, s2, run[..from + i + 1]);
      r1 := (r1 + run[from + i]) % 0x1_0000_0000;
      r2 := (r2 + r1) % 0x1_0000_0000;
    }
  }

  /** One run: sixteen bytes at a time, then the rest, then the reduction. */
  method Run(s1: Sum, s2: Sum, run: seq<Byte>) returns (t1: Sum, t2: Sum)
    requires |run| <= NMAX
    ensures (t1, t2) == Sums(s1, s2, run)
  {
    hide Raw, Sums;
    var r1, r2, k := s1, s2, 0;
    assert Raw(s1, s2, run[..0]) == (s1, s2) by { RawNone(s1, s2, run[..0]); }
    while |run| - k >= 16
      invariant k <= |run| && (r1, r2) == Raw(s1, s2, run[..k])
    {
      r1, r2 := Steps(s1, s2, run, k, 16, r1, r2);
      k := k + 16;
    }
    if k < |run| { r1, r2 := Steps(s1, s2, run, k, |run| - k, r1, r2); }
    assert run[..|run|] == run;
    RawReduces(s1, s2, run);
    t1, t2 := r1 % BASE, r2 % BASE;
  }

  lemma RawNone(s1: nat, s2: nat, data: seq<Byte>)
    requires data == []
    ensures Raw(s1, s2, data) == (s1, s2)
  {
  }

  /** adler32: the checksum is resumed from an earlier one; a null buffer gives the first one. */
  method Adler(adler: nat, bytes: Option<seq<Byte>>) returns (r: nat)
    requires adler % 0x1_0000 < BASE && adler / 0x1_0000 < BASE
    ensures r == if bytes.None? then 1 else Resumed(adler, bytes.value)
  {
    hide Sums;
    if bytes.None? { return 1; }
    var buf := bytes.value;
    var s1, s2 := adler % 0x1_0000, adler / 0x1_0000;
    var pos := 0;
    assert Sums(s1, s2, buf[..0]) == (s1, s2) by { SumsNone(s1, s2, buf[..0]); }
    while pos < |buf|
      invariant pos <= |buf| && s1 < BASE && s2 < BASE
      invariant (s1, s2) == Sums(adler % 0x1_0000, adler / 0x1_0000, buf[..pos])
    {
      var k := if |buf| - pos < NMAX then |buf| - pos else NMAX;
      assert buf[..pos + k] == buf[..pos] + buf[pos..pos + k];
      SumsCompose(adler % 0x1_0000, adler / 0x1_0000, buf[..pos], buf[pos..pos + k]);
      s1, s2 := Run(s1, s2, buf[pos..pos + k]);
      pos := pos + k;
    }
    assert buf[..|buf|] == buf;
    r := s2 * 0x1_0000 + s1;
  }

  lemma SumsNone(s1: Sum, s2: Sum, data: seq<Byte>)
    requires data == []
    ensures Sums(s1, s2, data) == (s1, s2)
  {
  }
}
