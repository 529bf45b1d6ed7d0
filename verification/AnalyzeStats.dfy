/**
 What the statistics mean: on a sorted index without NULLs the counters are numbers of distinct
 prefixes, and the estimates made from them are rows per prefix rounded up.
 */
module AnalyzeStats {
  import opened Vdbe
  import opened Analyze
  import opened AnalyzeReport

  // ----- distinct prefixes

  ghost predicate NoNulls(rows: seq<Row>, n: nat)
    requires Wide(rows, n)
  {
    forall r, c :: 0 <= r < |rows| && 0 <= c < n ==> rows[r][c] != Null
  }

  /** The different values that the first c + 1 columns take in the first r rows. */
  ghost function Prefixes(rows: seq<Row>, n: nat, r: nat, c: nat): set<Row>
    requires Wide(rows, n) && r <= |rows| && c < n
  {
    set i | 0 <= i < r :: rows[i][..c + 1]
  }

  /** An order of values for each column (columns may differ in direction and collation). */
  ghost predicate Orders(le: (nat, Value, Value) -> bool) {
    && (forall c, a, b :: le(c, a, b) || le(c, b, a))
    && (forall c, a, b :: le(c, a, b) && le(c, b, a) ==> a == b)
    && (forall c, a, b, d :: le(c, a, b) && le(c, b, d) ==> le(c, a, d))
  }

  /** a comes before b, or is equal to it, in columns c up to n. */
  ghost predicate Before(le: (nat, Value, Value) -> bool, a: Row, b: Row, c: nat, n: nat)
    requires n <= |a| && n <= |b|
    decreases n - c
  {
    c >= n || (le(c, a[c], b[c]) && (a[c] == b[c] ==> Before(le, a, b, c + 1, n)))
  }

  ghost predicate Sorted(le: (nat, Value, Value) -> bool, rows: seq<Row>, n: nat)
    requires Wide(rows, n)
  {
    forall r, s :: 0 <= r < s < |rows| ==> Before(le, rows[r], rows[s], 0, n)
  }

  /** Rows between two rows with the same prefix have that prefix too. */
  lemma {:induction false} Grouped(le: (nat, Value, Value) -> bool, x: Row, y: Row, z: Row, c: nat, p: nat, n: nat)
    requires Orders(le) && n <= |x| && n <= |y| && n <= |z| && c <= p <= n
    requires Before(le, x, y, c, n) && Before(le, y, z, c, n)
    requires x[c..p] == z[c..p]
    ensures x[c..p] == y[c..p]
    decreases p - c
  {
    if c < p {
      assert x[c] == x[c..p][0] == z[c..p][0] == z[c];
      assert y[c] == x[c];
      assert x[c + 1..p] == x[c..p][1..] == z[c..p][1..] == z[c + 1..p];
      Grouped(le, x, y, z, c + 1, p, n);
      assert x[c..p] == [x[c]] + x[c + 1..p];
      assert y[c..p] == [y[c]] + y[c + 1..p];
    }
  }

  /** Without NULLs a row is fresh exactly when its prefix differs from the one before. */
  lemma FreshIsDifferent(rows: seq<Row>, n: nat, r: nat, c: nat)
    requires Wide(rows, n) && NoNulls(rows, n) && 0 < r < |rows| && c < n
    ensures Fresh(rows, n, r, c) <==> rows[r - 1][..c + 1] != rows[r][..c + 1]
  {
    var a, b := rows[r - 1], rows[r];
    if Fresh(rows, n, r, c) {
      var i :| 0 <= i <= c && New(rows, n, r, i);
      assert a[..c + 1][i] != b[..c + 1][i];
    } else {
      forall i | 0 <= i <= c
        ensures a[i] == b[i]
      {
        assert !New(rows, n, r, i);
      }
      assert a[..c + 1] == b[..c + 1];
    }
  }

  /** In a sorted index a prefix not equal to the one before has not occurred at all. */
  lemma FreshIsUnseen(le: (nat, Value, Value) -> bool, rows: seq<Row>, n: nat, r: nat, c: nat)
    requires Wide(rows, n) && NoNulls(rows, n) && r < |rows| && c < n && Orders(le) && Sorted(le, rows, n)
    ensures Fresh(rows, n, r, c) <==> rows[r][..c + 1] !in Prefixes(rows, n, r, c)
  {
    if r == 0 {
      assert New(rows, n, 0, c);
    } else {
      FreshIsDifferent(rows, n, r, c);
      hide Fresh;
      if rows[r][..c + 1] in Prefixes(rows, n, r, c) {
        var i :| 0 <= i < r && rows[i][..c + 1] == rows[r][..c + 1];
        SameAsLast(le, rows, n, i, r, c);
      } else {
        assert rows[r - 1][..c + 1] in Prefixes(rows, n, r, c);
      }
    }
  }

  lemma SameAsLast(le: (nat, Value, Value) -> bool, rows: seq<Row>, n: nat, i: nat, r: nat, c: nat)
    requires Wide(rows, n) && i < r < |rows| && c < n && Orders(le) && Sorted(le, rows, n)
    requires rows[i][..c + 1] == rows[r][..c + 1]
    ensures rows[r - 1][..c + 1] == rows[r][..c + 1]
  {
    hide Before, Orders;
    if i < r - 1 {
      var x, y, z := rows[i], rows[r - 1], rows[r];
      assert x[0..c + 1] == x[..c + 1] && y[0..c + 1] == y[..c + 1] && z[0..c + 1] == z[..c + 1];
      Grouped(le, x, y, z, 0, c + 1, n);
    }
  }

  /** The counter of column c is the number of distinct (c + 1)-column prefixes. */
  lemma {:induction false} StartsAreDistinct(le: (nat, Value, Value) -> bool, rows: seq<Row>, n: nat, r: nat, c: nat)
    requires Wide(rows, n) && NoNulls(rows, n) && r <= |rows| && c < n && Orders(le) && Sorted(le, rows, n)
    ensures Starts(rows, n, r, c) == |Prefixes(rows, n, r, c)|
  {
    hide Fresh, Orders, Sorted, NoNulls;
    if r > 0 {
      StartsAreDistinct(le, rows, n, r - 1, c);
      FreshIsUnseen(le, rows, n, r - 1, c);
      assert Prefixes(rows, n, r, c) == Prefixes(rows, n, r - 1, c) + {rows[r - 1][..c + 1]};
    }
  }

  /** What the program counts on a sorted index without NULLs. */
  lemma TotalsAreDistinct(le: (nat, Value, Value) -> bool, rows: seq<Row>, n: nat, c: nat)
    requires Wide(rows, n) && NoNulls(rows, n) && c < n && Orders(le) && Sorted(le, rows, n)
    ensures TotalsOf(rows, n).k == |rows|
    ensures TotalsOf(rows, n).ds[c] == |Prefixes(rows, n, |rows|, c)|
  {
    hide Orders, Sorted, NoNulls, Starts;
    StartsAreDistinct(le, rows, n, |rows|, c);
  }

  // ----- the estimates

  lemma {:induction false} StartsGrow(rows: seq<Row>, n: nat, r: nat, c: nat)
    requires Wide(rows, n) && r <= |rows| && c + 1 < n
    ensures Starts(rows, n, r, c) <= Starts(rows, n, r, c + 1)
  {
    hide New;
    if r > 0 {
      StartsGrow(rows, n, r - 1, c);
      if Fresh(rows, n, r - 1, c) {
        var i :| 0 <= i <= c && New(rows, n, r - 1, i);
        assert Fresh(rows, n, r - 1, c + 1);
      }
    }
  }

  /** (K + D - 1) / D is K / D rounded up. */
  lemma EstimateRoundsUp(k: nat, d: nat)
    requires d > 0
    ensures var e := Estimate(k, d); (e - 1) * d < k <= e * d || (k == 0 && e == 0)
  {
    var a := k + d - 1;
    assert a == (a / d) * d + a % d;
  }

  lemma EstimateShrinks(k: nat, d: nat, d': nat)
    requires 0 < d <= d'
    ensures Estimate(k, d') <= Estimate(k, d)
  {
    EstimateRoundsUp(k, d);
    EstimateRoundsUp(k, d');
    var e, e' := Estimate(k, d), Estimate(k, d');
    hide Estimate;
    if e' > e {
      Scale(e, e' - 1, d');
      Scale2(d, d', e);
      assert false;
    }
  }

  lemma Scale(a: nat, b: nat, d: nat)
    requires a <= b
    ensures a * d <= b * d
  {
  }

  lemma Scale2(a: nat, b: nat, e: nat)
    requires a <= b
    ensures e * a <= e * b
  {
  }
}
