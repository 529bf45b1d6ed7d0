/**
 How many table entries a code needs, from the counts of its lengths alone: every table is opened by
 the first code with its leading bits, and its width is the least that this code and the codes after it
 allow.
 */
module TableSpace {
  import opened Bits
  import opened Canonical

  /** Counts per length, the longest length and the bits per table. */
  ghost predicate Shape(c: seq<nat>, g: nat, l: nat) {
    |c| == BMAX + 1 && g <= BMAX && l > 0
  }

  /** The r-th code of k bits is the first one with its first w bits: the others are zero. */
  ghost predicate Opens(c: seq<nat>, k: nat, r: nat, w: nat)
    requires |c| == BMAX + 1 && k <= BMAX
  {
    Rev(k, FirstCode(c, k) + r) < Pow2(w)
  }

  /** The codes of up to w + j bits use up all patterns that begin with those w bits. */
  ghost predicate UsesUp(c: seq<nat>, g: nat, k: nat, r: nat, w: nat, j: nat)
    requires |c| == BMAX + 1 && k <= g && w + j <= g <= BMAX
  {
    Shl(FirstCode(c, k) + r, g - k) + Pow2(g - w) <= Shl(FirstCode(c, w + j) + c[w + j], g - w - j)
  }

  /** The least width from j on that is a full level, reaches the longest code, or is used up. */
  ghost function TableWidth(c: seq<nat>, g: nat, l: nat, k: nat, r: nat, w: nat, j: nat): nat
    requires Shape(c, g, l) && k <= g && w + j <= g
    decreases g - w - j
  {
    if j >= l || w + j == g || UsesUp(c, g, k, r, w, j) then j else TableWidth(c, g, l, k, r, w, j + 1)
  }

  /** The entries of the tables at level w and below that the r-th code of k bits opens. */
  ghost function OpenedBy(c: seq<nat>, g: nat, l: nat, k: nat, r: nat, w: nat): nat
    requires Shape(c, g, l) && k <= g
    decreases k - w
  {
    if w >= k then 0
    else
      (if Opens(c, k, r, w) then Pow2(TableWidth(c, g, l, k, r, w, k - w)) else 0) + OpenedBy(c, g, l, k, r, w + l)
  }

  /** The entries that the first n codes of k bits open. */
  ghost function OpenedByCodes(c: seq<nat>, g: nat, l: nat, k: nat, n: nat): nat
    requires Shape(c, g, l) && k <= g
  {
    if n == 0 then 0 else OpenedByCodes(c, g, l, k, n - 1) + OpenedBy(c, g, l, k, n - 1, 0)
  }

  /** The entries that the codes of up to k bits open. */
  ghost function OpenedUpTo(c: seq<nat>, g: nat, l: nat, k: nat): nat
    requires Shape(c, g, l) && k <= g
  {
    if k == 0 then 0 else OpenedUpTo(c, g, l, k - 1) + OpenedByCodes(c, g, l, k, c[k])
  }

  predicate Multiple(l: nat, w: nat)
    requires l > 0
    decreases w
  {
    w == 0 || (w >= l && Multiple(l, w - l))
  }

  lemma {:induction false} CodesMono(c: seq<nat>, g: nat, l: nat, k: nat, n: nat, m: nat)
    requires Shape(c, g, l) && k <= g && n <= m
    ensures OpenedByCodes(c, g, l, k, n) <= OpenedByCodes(c, g, l, k, m)
    decreases m
  {
    hide OpenedBy;
    if n < m { CodesMono(c, g, l, k, n, m - 1); }
  }

  lemma {:induction false} LengthsMono(c: seq<nat>, g: nat, l: nat, k: nat, k': nat)
    requires Shape(c, g, l) && k <= k' <= g
    ensures OpenedUpTo(c, g, l, k) <= OpenedUpTo(c, g, l, k')
    decreases k'
  {
    hide OpenedByCodes;
    if k < k' { LengthsMono(c, g, l, k, k' - 1); }
  }

  /** Lengths without codes open nothing. */
  lemma {:induction false} NothingOpened(c: seq<nat>, g: nat, l: nat, k: nat)
    requires Shape(c, g, l) && k <= g && forall j :: 1 <= j <= k ==> c[j] == 0
    ensures OpenedUpTo(c, g, l, k) == 0
  {
    if k > 0 { NothingOpened(c, g, l, k - 1); }
  }

  /** A code that is not the first in a group is not the first in the larger groups around it. */
  lemma {:induction false} SkipLevels(c: seq<nat>, g: nat, l: nat, k: nat, r: nat, w: nat)
    requires Shape(c, g, l) && k <= g && w < k && Multiple(l, w) && !Opens(c, k, r, w)
    ensures OpenedBy(c, g, l, k, r, 0) == OpenedBy(c, g, l, k, r, w + l)
    decreases w
  {
    hide TableWidth, Rev, FirstCode, Pow2;
    if w > 0 {
      Pow2Mono(w - l, w);
      SkipLevels(c, g, l, k, r, w - l);
    }
  }
}
