/**
 Canonical Huffman codes as section 3.2.2 of RFC 1951 defines them, stated on the list of
 code lengths alone and independently of any decoding table.
 */
module Canonical {
  import opened Bits

  const BMAX := 15

  ghost predicate Lengths(lens: seq<nat>) {
    forall i :: 0 <= i < |lens| ==> lens[i] <= BMAX
  }

  /** How many of the first `m` symbols have code length `len`. */
  function CountUpTo(lens: seq<nat>, len: nat, m: nat): (r: nat)
    requires m <= |lens|
    ensures r <= m
  {
    if m == 0 then 0
    else CountUpTo(lens, len, m - 1) + if lens[m - 1] == len then 1 else 0
  }

  function Counts(lens: seq<nat>): (c: seq<nat>)
    ensures |c| == BMAX + 1
    ensures forall k :: 0 <= k <= BMAX ==> c[k] == CountUpTo(lens, k, |lens|)
  {
    seq(BMAX + 1, k requires 0 <= k => CountUpTo(lens, k, |lens|))
  }

  /** Step 2 of section 3.2.2: the numerically smallest code of length `k`. */
  function FirstCode(c: seq<nat>, k: nat): nat
    requires |c| == BMAX + 1 && k <= BMAX
  {
    if k == 0 then 0 else 2 * (FirstCode(c, k - 1) + if k == 1 then 0 else c[k - 1])
  }

  /** Step 3 of section 3.2.2: the code of one symbol. */
  function Code(lens: seq<nat>, sym: nat): nat
    requires Lengths(lens) && sym < |lens|
  {
    FirstCode(Counts(lens), lens[sym]) + CountUpTo(lens, lens[sym], sym)
  }

  /** The Kraft sum of the first `m` symbols in units of 2^-15. */
  function Kraft(lens: seq<nat>, m: nat): nat
    requires Lengths(lens) && m <= |lens|
  {
    if m == 0 then 0
    else Kraft(lens, m - 1) + if lens[m - 1] == 0 then 0 else Pow2(BMAX - lens[m - 1])
  }

  /** How many codes are shorter than `k`: where the codes of length `k` start when sorted. */
  function Offset(c: seq<nat>, k: nat): nat
    requires |c| == BMAX + 1 && k <= BMAX + 1
  {
    if k <= 1 then 0 else Offset(c, k - 1) + c[k - 1]
  }

  /** The Kraft sum by length, for lengths up to `k`, in units of 2^-15. */
  function KraftByLength(c: seq<nat>, k: nat): nat
    requires |c| == BMAX + 1 && k <= BMAX
  {
    if k == 0 then 0 else KraftByLength(c, k - 1) + Shl(c[k], BMAX - k)
  }

  lemma {:induction false} OffsetMono(c: seq<nat>, j: nat, k: nat)
    requires |c| == BMAX + 1 && 1 <= j < k <= BMAX + 1
    ensures Offset(c, j) + c[j] <= Offset(c, k)
    decreases k
  {
    if j + 1 < k {
      OffsetMono(c, j, k - 1);
    }
  }

  lemma {:induction false} FirstCodeAgrees(c: seq<nat>, c': seq<nat>, g: nat, k: nat)
    requires |c| == |c'| == BMAX + 1 && k <= g <= BMAX
    requires forall j :: 1 <= j < g ==> c[j] == c'[j]
    ensures FirstCode(c, k) == FirstCode(c', k)
    ensures Offset(c, k) == Offset(c', k)
    decreases k
  {
    if k > 0 {
      FirstCodeAgrees(c, c', g, k - 1);
    }
  }

  /** The codes up to length `k` end where the Kraft sum up to `k` says. */
  lemma {:induction false} FirstCodeKraft(c: seq<nat>, k: nat)
    requires |c| == BMAX + 1 && 1 <= k <= BMAX
    ensures Shl(FirstCode(c, k) + c[k], BMAX - k) == KraftByLength(c, k)
    decreases k
  {
    ShlAdd(FirstCode(c, k), c[k], BMAX - k);
    if k == 1 {
      assert FirstCode(c, 1) == 0;
      ShlAdd(0, 0, BMAX - 1);
      assert KraftByLength(c, 0) == 0;
      assert KraftByLength(c, 1) == Shl(c[1], BMAX - 1);
    } else {
      FirstCodeKraft(c, k - 1);
      ShlDouble(FirstCode(c, k - 1) + c[k - 1], BMAX - k);
    }
  }

  lemma {:induction false} KraftByLengthMono(c: seq<nat>, j: nat, k: nat)
    requires |c| == BMAX + 1 && j <= k <= BMAX
    ensures KraftByLength(c, j) <= KraftByLength(c, k)
    ensures (forall i :: j < i <= k ==> c[i] == 0) ==> KraftByLength(c, j) == KraftByLength(c, k)
    decreases k
  {
    if j < k {
      KraftByLengthMono(c, j, k - 1);
      ShlAdd(0, 0, BMAX - k);
    }
  }

  /** Counts of the first `m` symbols, used to add up the Kraft sum symbol by symbol. */
  function CountsUpTo(lens: seq<nat>, m: nat): (c: seq<nat>)
    requires m <= |lens|
    ensures |c| == BMAX + 1
  {
    seq(BMAX + 1, k requires 0 <= k => CountUpTo(lens, k, m))
  }

  lemma {:induction false} KraftStep(lens: seq<nat>, m: nat, k: nat)
    requires Lengths(lens) && 0 < m <= |lens| && k <= BMAX
    ensures KraftByLength(CountsUpTo(lens, m), k)
         == KraftByLength(CountsUpTo(lens, m - 1), k)
            + if 1 <= lens[m - 1] <= k then Pow2(BMAX - lens[m - 1]) else 0
    decreases k
  {
    if k > 0 {
      KraftStep(lens, m, k - 1);
      var c, c' := CountsUpTo(lens, m - 1), CountsUpTo(lens, m);
      if lens[m - 1] == k {
        ShlAdd(c[k], 1, BMAX - k);
        ShlPow2(0, BMAX - k);
        assert Pow2(0) == 1;
      }
    }
  }

  /** Adding the Kraft sum by symbol or by length gives the same value. */
  lemma {:induction false} KraftBySymbol(lens: seq<nat>, m: nat)
    requires Lengths(lens) && m <= |lens|
    ensures Kraft(lens, m) == KraftByLength(CountsUpTo(lens, m), BMAX)
    decreases m
  {
    if m == 0 {
      KraftNothing(CountsUpTo(lens, 0), BMAX);
    } else {
      KraftBySymbol(lens, m - 1);
      KraftStep(lens, m, BMAX);
    }
  }

  lemma {:induction false} KraftNothing(c: seq<nat>, k: nat)
    requires |c| == BMAX + 1 && k <= BMAX && forall j :: 0 <= j <= BMAX ==> c[j] == 0
    ensures KraftByLength(c, k) == 0
    decreases k
  {
    if k > 0 {
      KraftNothing(c, k - 1);
      ShlAdd(0, 0, BMAX - k);
    }
  }

  lemma {:induction false} CountMono(lens: seq<nat>, len: nat, a: nat, b: nat)
    requires a <= b <= |lens|
    ensures CountUpTo(lens, len, a) <= CountUpTo(lens, len, b)
    decreases b
  {
    if a < b { CountMono(lens, len, a, b - 1); }
  }

  /** Every rank below the count belongs to a symbol. */
  lemma {:induction false} SymbolOfRank(lens: seq<nat>, len: nat, r: nat, m: nat) returns (sym: nat)
    requires m <= |lens| && r < CountUpTo(lens, len, m)
    ensures sym < m && lens[sym] == len && CountUpTo(lens, len, sym) == r
    decreases m
  {
    if lens[m - 1] == len && CountUpTo(lens, len, m - 1) == r {
      sym := m - 1;
    } else {
      sym := SymbolOfRank(lens, len, r, m - 1);
    }
  }
}
