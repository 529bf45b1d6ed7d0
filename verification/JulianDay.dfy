/**
 computeJD and computeYMD of date.c. Doubles are modelled as exact reals; a conversion to int cuts off
 toward zero, and so does integer division.
 */
module JulianDay {

  // ----- C arithmetic

  function Trunc(x: real): int {
    if x < 0.0 then -((-x).Floor) else x.Floor
  }

  function Quot(a: int, b: int): int
    requires b > 0
  {
    if a < 0 then -((-a) / b) else a / b
  }

  /** Cutting off a quotient of integers is integer division. */
  lemma TruncQuot(a: int, b: int)
    requires b > 0
    ensures Trunc(a as real / b as real) == Quot(a, b)
  {
    if a < 0 {
      FloorQuot(-a, b);
      assert -(a as real / b as real) == (-a) as real / b as real;
    } else {
      FloorQuot(a, b);
    }
  }

  lemma TruncIs(x: real, a: int, b: int)
    requires b > 0 && x * b as real == a as real
    ensures Trunc(x) == Quot(a, b)
  {
    assert x == a as real / b as real;
    TruncQuot(a, b);
  }

  lemma FloorQuot(a: nat, b: int)
    requires b > 0
    ensures (a as real / b as real).Floor == a / b
    ensures a as real / b as real >= 0.0
  {
    var q, r := a / b, a % b;
    assert a == q * b + r;
    assert a as real == q as real * b as real + r as real;
    RealQuot(a as real, b as real, q as real, r as real);
  }

  lemma Below(x: real, b: real, r: real)
    requires b > 0.0 && x * b == r && r < b
    ensures x < 1.0
  {
    assert (x - 1.0) * b < 0.0;
  }

  lemma RealQuot(a: real, b: real, q: real, r: real)
    requires b > 0.0 && 0.0 <= r < b && a == q * b + r
    ensures q <= a / b < q + 1.0
  {
    var x := r / b;
    assert x * b == r;
    assert x < 1.0 by { Below(x, b, r); }
    assert a / b == q + x;
  }

  // ----- the calendar

  predicate IsLeap(y: int) {
    (y % 4 == 0 && y % 100 != 0) || y % 400 == 0
  }

  function DaysIn(y: int, m: int): int
    requires 1 <= m <= 12
  {
    if m == 2 then (if IsLeap(y) then 29 else 28)
    else if m == 4 || m == 6 || m == 9 || m == 11 then 30
    else 31
  }

  datatype Date = Date(y: int, m: int, d: int)

  /** A date of the (proleptic) Gregorian calendar. */
  predicate Valid(t: Date) {
    1 <= t.m <= 12 && 1 <= t.d <= DaysIn(t.y, t.m)
  }

  function NextDay(t: Date): Date
    requires Valid(t)
  {
    if t.d < DaysIn(t.y, t.m) then Date(t.y, t.m, t.d + 1)
    else if t.m < 12 then Date(t.y, t.m + 1, 1)
    else Date(t.y + 1, 1, 1)
  }

  // ----- the conversions

  /** The Julian day of the midnight that begins a date. */
  function ToJulian(t: Date): real {
    var Y := if t.m <= 2 then t.y - 1 else t.y;
    var M := if t.m <= 2 then t.m + 12 else t.m;
    var A := Quot(Y, 100);
    var B := 2 - A + Quot(A, 4);
    var X1 := Trunc(365.25 * (Y + 4716) as real);
    var X2 := Trunc(30.6001 * (M + 1) as real);
    (X1 + X2 + t.d + B) as real - 1524.5
  }

  function FromJulian(rJD: real): Date {
    var Z := Trunc(rJD + 0.5);
    var A0 := Trunc((Z as real - 1867216.25) / 36524.25);
    var A := Z + 1 + A0 - Quot(A0, 4);
    var B := A + 1524;
    var C := Trunc((B as real - 122.1) / 365.25);
    var D := Trunc(365.25 * C as real);
    var E := Trunc((B - D) as real / 30.6001);
    var X1 := Trunc(30.6001 * E as real);
    var d := B - D - X1;
    var m := if E < 14 then E - 1 else E - 13;
    Date(if m > 2 then C - 4716 else C - 4715, m, d)
  }

  // ----- the same in integers

  /** The March-based year of a date: January and February belong to the year before. */
  function YearOf(t: Date): int {
    if t.m <= 2 then t.y - 1 else t.y
  }

  /** 30.6001 times the month number, cut off, for March (3) to February (14). */
  function MonthStart(m: int): int {
    306001 * (m + 1) / 10000
  }

  /** The day within the March-based year, from 123 on. */
  function DayOf(t: Date): int {
    MonthStart(if t.m <= 2 then t.m + 12 else t.m) + t.d
  }

  /** 365.25 times the year, cut off. */
  function YearStart(c: int): int {
    1461 * c / 4
  }

  /** The days before the March-based year, counting every fourth year as a leap year, as computeJD cuts them off. */
  function YearSum(y: int): int {
    Quot(1461 * (y + 4716), 4)
  }

  function Century(y: int): int {
    Quot(Quot(y, 100), 4) - Quot(y, 100)
  }

  /** The day number: the Julian day plus one half. */
  function Number(t: Date): int {
    var y := YearOf(t);
    YearSum(y) + DayOf(t) + Century(y) + 2 - 1524
  }

  lemma Times30(m: int)
    requires m >= 0
    ensures Trunc(30.6001 * m as real) == 306001 * m / 10000
  {
    TruncIs(30.6001 * m as real, 306001 * m, 10000);
  }

  lemma ToJulianIs(t: Date)
    requires Valid(t)
    ensures ToJulian(t) == Number(t) as real - 0.5
  {
    hide Trunc, Quot, Valid;
    assert 1 <= t.m <= 12 by { ValidMonth(t); }
    YearDays(YearOf(t) + 4716);
    Times30((if t.m <= 2 then t.m + 12 else t.m) + 1);
  }

  lemma ValidMonth(t: Date)
    requires Valid(t)
    ensures 1 <= t.m <= 12
  {
  }

  /** FromJulian on day numbers. */
  function FromNumber(Z: int): Date {
    var a := Quot(4 * Z - 7468865, 146097);
    var B := Z + 1 + a - Quot(a, 4) + 1524;
    Split(B)
  }

  /** The year, month and day of a day count of March-based Julian years. */
  function Split(B: int): Date {
    var C := Quot(20 * B - 2442, 7305);
    var D := Quot(1461 * C, 4);
    var E := Quot(10000 * (B - D), 306001);
    var d := B - D - Quot(306001 * E, 10000);
    var m := if E < 14 then E - 1 else E - 13;
    Date(if m > 2 then C - 4716 else C - 4715, m, d)
  }

  /** The day number that is left when the time of day is cut off, which rounds up below zero. */
  function CutOff(n: int, f: real): int {
    if n >= 0 || f == 0.0 then n else n + 1
  }

  lemma FromJulianIs(n: int, f: real)
    requires 0.0 <= f < 1.0
    ensures FromJulian(n as real - 0.5 + f) == FromNumber(CutOff(n, f))
  {
    hide Trunc, Quot;
    var rJD, Z := n as real - 0.5 + f, CutOff(n, f);
    assert Trunc(rJD + 0.5) == Z by { Whole(n, f); }
    var A0 := Trunc((Z as real - 1867216.25) / 36524.25);
    Centuries(Z);
    var B := Z + 1 + A0 - Quot(A0, 4) + 1524;
    Years(B);
    var C := Quot(20 * B - 2442, 7305);
    YearDays(C);
    var D := Quot(1461 * C, 4);
    Months(B - D);
    MonthDays(Quot(10000 * (B - D), 306001));
  }

  lemma Whole(n: int, f: real)
    requires 0.0 <= f < 1.0
    ensures Trunc(n as real - 0.5 + f + 0.5) == CutOff(n, f)
  {
    var x := n as real + f;
    if n < 0 && f > 0.0 {
      assert (-x).Floor == -n - 1;
    }
  }

  lemma Centuries(Z: int)
    ensures Trunc((Z as real - 1867216.25) / 36524.25) == Quot(4 * Z - 7468865, 146097)
  {
    TruncIs((Z as real - 1867216.25) / 36524.25, 4 * Z - 7468865, 146097);
  }

  lemma Years(B: int)
    ensures Trunc((B as real - 122.1) / 365.25) == Quot(20 * B - 2442, 7305)
  {
    TruncIs((B as real - 122.1) / 365.25, 20 * B - 2442, 7305);
  }

  lemma YearDays(C: int)
    ensures Trunc(365.25 * C as real) == Quot(1461 * C, 4)
  {
    TruncIs(365.25 * C as real, 1461 * C, 4);
  }

  lemma Months(x: int)
    ensures Trunc(x as real / 30.6001) == Quot(10000 * x, 306001)
  {
    TruncIs(x as real / 30.6001, 10000 * x, 306001);
  }

  lemma MonthDays(E: int)
    ensures Trunc(30.6001 * E as real) == Quot(306001 * E, 10000)
  {
    TruncIs(30.6001 * E as real, 306001 * E, 10000);
  }

  // ----- years, months and days

  /** The day within the March-based year stays within the year. */
  lemma DayRange(t: Date)
    requires Valid(t)
    ensures 123 <= DayOf(t) <= 488
    ensures DayOf(t) == 488 ==> t.m == 2 && IsLeap(t.y)
    ensures t.m <= 2 ==> 429 <= DayOf(t)
  {
  }

  /** Month and day come back from the day within the year. */
  lemma MonthBack(t: Date)
    requires Valid(t)
    ensures var M := if t.m <= 2 then t.m + 12 else t.m;
      Quot(10000 * DayOf(t), 306001) == M + 1 && Quot(306001 * (M + 1), 10000) == MonthStart(M)
  {
  }

  /** The year comes back from the day count. */
  lemma YearBack(y: int, dd: int)
    requires y >= -4716 && 123 <= dd <= 488 && (dd == 488 ==> y % 4 == 3)
    ensures Quot(20 * (YearStart(y + 4716) + dd) - 2442, 7305) == y + 4716
  {
    var K := y + 4716;
    var q, r := K / 4, K % 4;
    assert K == 4 * q + r;
    assert YearStart(K) == 1461 * q + 1461 * r / 4;
  }

  /** A day count within March-based Julian years gives the date back. */
  lemma SplitBack(t: Date)
    requires Valid(t) && YearOf(t) >= -4716
    ensures Split(YearStart(YearOf(t) + 4716) + DayOf(t)) == t
  {
    hide DayOf, Quot, Valid, YearStart, MonthStart, IsLeap;
    assert Valid(t) && 1 <= t.m <= 12 by { ValidMonth(t); }
    var y, dd := YearOf(t), DayOf(t);
    DayRange(t);
    if dd == 488 { LeapYears(t); }
    YearBack(y, dd);
    YearDays0(y + 4716);
    MonthBack(t);
    DayIs(t);
  }

  lemma YearDays0(C: int)
    requires C >= 0
    ensures Quot(1461 * C, 4) == YearStart(C)
  {
  }

  lemma DayIs(t: Date)
    ensures DayOf(t) == MonthStart(if t.m <= 2 then t.m + 12 else t.m) + t.d
  {
  }

  // ----- centuries

  /** The only day whose century the code gets wrong: March 1 of the year 300. */
  function Odd(): Date { Date(300, 3, 1) }

  /** What FromNumber adds for the centuries, and what Number subtracted. */
  function Restored(Z: int): int {
    var a := Quot(4 * Z - 7468865, 146097);
    1 + a - Quot(a, 4)
  }

  /** Writing the year as 400 q + 100 e + c makes the quotient visible. */
  lemma Position(q: int, e: int, c: int, dd: int)
    requires q >= 0 && 0 <= e < 4 && 0 <= c < 100
    ensures var y := 400 * q + 100 * e + c;
      var Z := YearStart(y + 4716) + dd + Century(y) + 2 - 1524;
      4 * Z - 7468865 == 146097 * (4 * q + e - 4) + 4 * (365 * c + c / 4 + dd) - e - 489
  {
    var y := 400 * q + 100 * e + c;
    assert Quot(y, 100) == 4 * q + e;
    assert Quot(4 * q + e, 4) == q;
    assert 1461 * (y + 4716) == 4 * (36525 * (4 * q + e) + 365 * c + 1722519) + c;
    assert YearStart(y + 4716) == 36525 * (4 * q + e) + 365 * c + 1722519 + c / 4;
  }

  /** The remainder is a remainder; it is zero on the odd day of each fourth century only. */
  lemma Remainder(e: int, c: int, dd: int)
    requires 0 <= e < 4 && 0 <= c < 100 && 123 <= dd <= 488
    requires dd == 488 ==> c % 4 == 3 && (c == 99 ==> e == 3)
    ensures var R := 4 * (365 * c + c / 4 + dd) - e - 489;
      0 <= R < 146097 && (R == 0 <==> e == 3 && c == 0 && dd == 123)
  {
  }

  lemma QuotIs(k: int, R: int)
    requires 0 <= R < 146097
    ensures Quot(146097 * k + R, 146097) == if k >= 0 || R == 0 then k else k + 1
  {
    var a := 146097 * k + R;
    if k >= 0 {
      assert a / 146097 == k;
    } else if R == 0 {
      assert (-a) / 146097 == -k;
    } else {
      assert -a == 146097 * (-k - 1) + (146097 - R);
      assert (-a) / 146097 == -k - 1;
    }
  }

  /** Cutting off toward zero restores the century correction, except on the odd day. */
  lemma CorrectionBack(q: int, e: int, R: int)
    requires q >= 0 && 0 <= e < 4 && 0 <= R < 146097 && (R == 0 ==> e == 3)
    ensures var a := Quot(146097 * (4 * q + e - 4) + R, 146097);
      1 + a - Quot(a, 4) == (4 * q + e) - q - 2 - if q == 0 && R == 0 then 1 else 0
  {
    QuotIs(4 * q + e - 4, R);
  }

  lemma LeapYears(t: Date)
    requires Valid(t) && DayOf(t) == 488
    ensures YearOf(t) % 4 == 3 && (YearOf(t) % 100 == 99 ==> YearOf(t) % 400 == 399)
  {
    hide DayOf, Valid;
    DayRange(t);
    BeforeLeap(t.y);
  }

  lemma BeforeLeap(y: int)
    requires IsLeap(y)
    ensures (y - 1) % 4 == 3 && ((y - 1) % 100 == 99 ==> (y - 1) % 400 == 399)
  {
    Mod4(y);
    Mod100(y);
    Mod400(y);
  }

  lemma Mod4(y: int)
    ensures y % 4 == 0 <==> (y - 1) % 4 == 3
    ensures y % 100 == 0 ==> y % 4 == 0
  {
    if y % 100 == 0 { assert y == 4 * (25 * (y / 100)); }
  }

  lemma Mod100(y: int)
    ensures y % 100 == 0 <==> (y - 1) % 100 == 99
    ensures y % 400 == 0 ==> y % 100 == 0
  {
    if y % 400 == 0 { assert y == 100 * (4 * (y / 400)); }
  }

  lemma Mod400(y: int)
    ensures y % 400 == 0 <==> (y - 1) % 400 == 399
  {
  }

  lemma Parts(y: int) returns (q: int, e: int, c: int)
    requires y >= 0
    ensures q >= 0 && 0 <= e < 4 && 0 <= c < 100 && y == 400 * q + 100 * e + c
  {
    q, e, c := y / 400, y % 400 / 100, y % 100;
  }

  lemma PartsMod(q: int, e: int, c: int)
    requires 0 <= e < 4 && 0 <= c < 100
    ensures var y := 400 * q + 100 * e + c; y % 4 == c % 4 && y % 100 == c && y % 400 == 100 * e + c
  {
    Mod4Is(100 * q + 25 * e, c);
    Mod100Is(4 * q + e, c);
    Mod400Is(q, 100 * e + c);
  }

  lemma Mod4Is(k: int, c: int)
    ensures (4 * k + c) % 4 == c % 4
  {
  }

  lemma Mod100Is(k: int, c: int)
    requires 0 <= c < 100
    ensures (100 * k + c) % 100 == c
  {
  }

  lemma Mod400Is(k: int, c: int)
    requires 0 <= c < 400
    ensures (400 * k + c) % 400 == c
  {
  }

  lemma LeapParts(t: Date, q: int, e: int, c: int)
    requires Valid(t) && 0 <= e < 4 && 0 <= c < 100 && YearOf(t) == 400 * q + 100 * e + c
    ensures DayOf(t) == 488 ==> c % 4 == 3 && (c == 99 ==> e == 3)
  {
    hide DayOf, Valid;
    PartsMod(q, e, c);
    if DayOf(t) == 488 { LeapYears(t); }
  }

  lemma DayOne(t: Date)
    requires Valid(t)
    ensures DayOf(t) == 123 <==> t.m == 3 && t.d == 1
  {
  }

  /** The March-based year 300 begins on the odd day. */
  lemma RestoredIs(t: Date)
    requires Valid(t) && YearOf(t) >= 0
    ensures Restored(Number(t)) == -Century(YearOf(t)) - 2 - if t == Odd() then 1 else 0
  {
    hide Quot, DayOf, YearStart, Valid, IsLeap, Century;
    var y, dd := YearOf(t), DayOf(t);
    YearDays0(y + 4716);
    var q, e, c := Parts(y);
    DayRange(t);
    LeapParts(t, q, e, c);
    Remainder(e, c, dd);
    Position(q, e, c, dd);
    CorrectionBack(q, e, 4 * (365 * c + c / 4 + dd) - e - 489);
    DayOne(t);
    CenturyIs(q, e, c);
  }

  lemma CenturyIs(q: int, e: int, c: int)
    requires q >= 0 && 0 <= e < 4 && 0 <= c < 100
    ensures Century(400 * q + 100 * e + c) == q - (4 * q + e)
  {
    assert Quot(400 * q + 100 * e + c, 100) == 4 * q + e;
  }

  // ----- years before 0

  /** Before the year 0 a century is left out of the leap years, cut off toward zero, one year too late. */
  predicate LateCentury(y: int) {
    y < 0 && y % 100 == 0 && y % 400 != 0
  }

  lemma CenturyNegative(q: int, e: int, c: int)
    requires q >= 0 && 0 <= e < 4 && 0 <= c < 100
    ensures Century(-(400 * q + 100 * e + c)) == (4 * q + e) - q
  {
    assert (400 * q + 100 * e + c) / 100 == 4 * q + e;
    assert (4 * q + e) / 4 == q;
  }

  /** The same quotient for the year -(400 q + 100 e + c). */
  lemma PositionNegative(q: int, e: int, c: int, dd: int)
    requires q >= 0 && 0 <= e < 4 && 0 <= c < 100
    ensures var y := -(400 * q + 100 * e + c);
      var Z := YearStart(y + 4716) + dd + Century(y) + 2 - 1524;
      4 * Z - 7468865 == -146097 * (4 * q + e + 4) + e - 489 - 4 * (365 * c + (c + 3) / 4 - dd)
  {
    var y := -(400 * q + 100 * e + c);
    CenturyNegative(q, e, c);
    hide Century;
    assert 1461 * (y + 4716) == 4 * (1722519 - 36525 * (4 * q + e) - 365 * c) - c;
    assert YearStart(y + 4716) == 1722519 - 36525 * (4 * q + e) - 365 * c - (c + 3) / 4;
  }

  /** The remainder is positive exactly in the first March-based year of a century. */
  lemma RemainderNegative(e: int, c: int, dd: int)
    requires 0 <= e < 4 && 0 <= c < 100 && 123 <= dd <= 488
    requires dd == 488 ==> c % 4 == 1 && (c == 1 ==> e == 0)
    ensures var R := e - 489 - 4 * (365 * c + (c + 3) / 4 - dd);
      -146000 < R < 2000 && (R > 0 <==> c == 0)
  {
  }

  lemma QuotNegative(k: int, R: int)
    requires k >= 4 && -146097 < R < 146097
    ensures Quot(-146097 * k + R, 146097) == if R <= 0 then -k else 1 - k
  {
    var a := 146097 * k - R;
    if R <= 0 {
      assert a / 146097 == k;
    } else {
      assert a == 146097 * (k - 1) + (146097 - R);
      assert a / 146097 == k - 1;
    }
  }

  lemma CorrectionNegative(q: int, e: int, R: int)
    requires q >= 0 && 0 <= e < 4 && -146097 < R < 146097
    ensures var a := Quot(-146097 * (4 * q + e + 4) + R, 146097);
      1 + a - Quot(a, 4) == q - (4 * q + e) - 2 + if R > 0 && e > 0 then 1 else 0
  {
    QuotNegative(4 * q + e + 4, R);
    if R <= 0 {
      assert (4 * q + e + 4) / 4 == q + 1;
    } else {
      assert (4 * q + e + 3) / 4 == if e > 0 then q + 1 else q;
    }
  }

  lemma LeapPartsNegative(t: Date, q: int, e: int, c: int)
    requires Valid(t) && q >= 0 && 0 <= e < 4 && 0 <= c < 100 && YearOf(t) == -(400 * q + 100 * e + c)
    ensures DayOf(t) == 488 ==> c % 4 == 1 && (c == 1 ==> e == 0)
  {
    hide DayOf, Valid;
    NegativeMod(q, e, c);
    if DayOf(t) == 488 { LeapYears(t); }
  }

  lemma NegativeMod(q: int, e: int, c: int)
    requires 0 <= e < 4 && 0 <= c < 100
    ensures var y := -(400 * q + 100 * e + c);
      && (y % 4 == 3 <==> c % 4 == 1) && (y % 100 == 99 <==> c == 1) && (y % 400 == 399 <==> e == 0 && c == 1)
      && (y % 100 == 0 <==> c == 0) && (y % 400 == 0 <==> e == 0 && c == 0)
  {
    Mod4Is(-(100 * q + 25 * e), -c);
    if c == 0 {
      Mod100Is(-(4 * q + e), 0);
      if e == 0 { Mod400Is(-q, 0); } else { Mod400Is(-q - 1, 400 - 100 * e); }
    } else {
      Mod100Is(-(4 * q + e) - 1, 100 - c);
      Mod400Is(-q - 1, 400 - 100 * e - c);
    }
  }

  /** What is added for the centuries of a day number up to two days later than the right one. */
  lemma RestoredNegative(t: Date, Z: int, late: int)
    requires Valid(t) && YearOf(t) < 0 && 0 <= late <= 2
    requires Z == YearStart(YearOf(t) + 4716) + DayOf(t) + Century(YearOf(t)) + 2 - 1524
    ensures Restored(Z + late) >= -Century(YearOf(t)) - 2
    ensures late == 0 ==> Restored(Z) == -Century(YearOf(t)) - 2 + if LateCentury(YearOf(t)) then 1 else 0
  {
    hide Quot, DayOf, YearStart, Valid, IsLeap, Century;
    var y, dd := YearOf(t), DayOf(t);
    var q, e, c := Parts(-y);
    DayRange(t);
    LeapPartsNegative(t, q, e, c);
    RemainderNegative(e, c, dd);
    PositionNegative(q, e, c, dd);
    CorrectionNegative(q, e, e - 489 - 4 * (365 * c + (c + 3) / 4 - dd) + 4 * late);
    CenturyNegative(q, e, c);
    NegativeMod(q, e, c);
  }

  lemma FromNumberIs(Z: int)
    ensures FromNumber(Z) == Split(Z + Restored(Z) + 1524)
  {
  }

  /** The days before the year agree with YearStart from the year -4716 on; before it they are cut off upward. */
  lemma YearSumIs(y: int)
    ensures YearSum(y) == YearStart(y + 4716) + if y < -4716 && y % 4 != 0 then 1 else 0
  {
    if y < -4716 {
      var n := -(y + 4716);
      var q, r := n / 4, n % 4;
      Quarters(q, r);
      NegativeQuarters(q, r);
      Mod4Is(-1179 - q, -r);
    }
  }

  lemma Quarters(q: int, r: int)
    requires 0 <= r < 4
    ensures 1461 * (4 * q + r) / 4 == 1461 * q + 365 * r
  {
    assert 1461 * (4 * q + r) == 4 * (1461 * q + 365 * r) + r;
  }

  lemma NegativeQuarters(q: int, r: int)
    requires 0 <= r < 4
    ensures -1461 * (4 * q + r) / 4 == -(1461 * q + 365 * r) - if r > 0 then 1 else 0
  {
    assert -1461 * (4 * q + r) == 4 * (-(1461 * q + 365 * r)) - r;
  }

  /** Dates that come back, as far as their day number does. */
  predicate Faithful(t: Date) {
    YearOf(t) >= -4716 && !LateCentury(YearOf(t)) && t != Odd()
  }

  lemma NumberBack(t: Date)
    requires Valid(t) && Faithful(t)
    ensures FromNumber(Number(t)) == t
  {
    hide Restored, Split, FromNumber, Valid, DayOf, YearStart, Century, LateCentury;
    FromNumberIs(Number(t));
    YearSumIs(YearOf(t));
    if YearOf(t) >= 0 { RestoredIs(t); } else { RestoredNegative(t, Number(t), 0); }
    SplitBack(t);
  }

  /** A day count that is split into a date tells the year of the split. */
  lemma SplitYear(B: int, t: Date)
    requires Split(B) == t
    ensures Quot(20 * B - 2442, 7305) == YearOf(t) + 4716
  {
    hide Quot;
  }

  /** A day count too large by one is never split into the date. */
  lemma SplitLater(t: Date)
    requires Valid(t) && YearOf(t) >= -4716
    ensures Split(YearStart(YearOf(t) + 4716) + DayOf(t) + 1) != t
  {
    hide Valid, DayOf, YearStart, IsLeap, MonthStart;
    var y, dd := YearOf(t), DayOf(t);
    DayRange(t);
    YearDays0(y + 4716);
    MonthBack(t);
    DayIs(t);
    LaterMonth(dd);
  }

  lemma LaterMonth(dd: int)
    requires 123 <= dd <= 488
    ensures 4 <= Quot(10000 * (dd + 1), 306001) <= 15 && 4 <= Quot(10000 * dd, 306001) <= 15
  {
  }

  /** In a late century every date comes back as another. */
  lemma LateFails(t: Date)
    requires Valid(t) && YearOf(t) >= -4716 && LateCentury(YearOf(t))
    ensures FromNumber(Number(t)) != t
  {
    hide Restored, Split, FromNumber, Valid, DayOf, YearStart, Century;
    FromNumberIs(Number(t));
    YearSumIs(YearOf(t));
    RestoredNegative(t, Number(t), 0);
    SplitLater(t);
  }

  /** Before the year -4716 no date comes back, at any time of the day. */
  lemma AncientFails(t: Date, late: int)
    requires Valid(t) && YearOf(t) < -4716 && 0 <= late <= 1
    ensures FromNumber(Number(t) + late) != t
  {
    hide FromNumber, Valid, DayOf, YearStart, Century, YearSum;
    YearSumIs(YearOf(t));
    AncientLater(t, Number(t) + late);
  }

  /** Nor does it come from a day number up to two days later than the right one. */
  lemma AncientLater(t: Date, n: int)
    requires Valid(t) && YearOf(t) < -4716
    requires 0 <= n - (YearStart(YearOf(t) + 4716) + DayOf(t) + Century(YearOf(t)) + 2 - 1524) <= 2
    ensures FromNumber(n) != t
  {
    hide Restored, Split, FromNumber, Valid, DayOf, YearStart, Century;
    var y, dd := YearOf(t), DayOf(t);
    var Z := YearStart(y + 4716) + dd + Century(y) + 2 - 1524;
    FromNumberIs(n);
    RestoredNegative(t, Z, n - Z);
    DayRange(t);
    var B := n + Restored(n) + 1524;
    TooLate(y + 4716, B);
    if Split(B) == t { SplitYear(B, t); }
  }

  lemma TooLate(C: int, B: int)
    requires C < 0 && B >= YearStart(C) + 123
    ensures Quot(20 * B - 2442, 7305) > C
  {
    assert 4 * YearStart(C) >= 1461 * C - 3;
  }

  lemma OddComesBackWrong()
    ensures Valid(Odd()) && FromNumber(Number(Odd())) == Date(300, 2, 29)
  {
    hide FromNumber;
    assert Number(Odd()) == 1830692;
    assert Restored(1830692) == 0;
    FromNumberIs(1830692);
    assert Quot(20 * 1832216 - 2442, 7305) == 5015;
    assert Quot(1461 * 5015, 4) == 1831728;
    assert Split(1832216) == Date(300, 2, 29);
  }

  /** Day numbers below zero belong to the first years that are counted right. */
  lemma NegativeNumber(t: Date)
    requires Valid(t) && YearOf(t) >= -4716 && Number(t) < 0
    ensures YearOf(t) < -4712
  {
    hide DayOf, IsLeap, Valid, YearStart, Century;
    DayRange(t);
    var y := YearOf(t);
    YearSumIs(y);
    if y >= -4712 {
      YearsGrow(y);
      if y >= 0 {
        var q, e, c := Parts(y);
        CenturyIs(q, e, c);
      } else {
        var q, e, c := Parts(-y);
        CenturyNegative(q, e, c);
      }
    }
  }

  lemma YearsGrow(y: int)
    requires y >= -4712
    ensures YearStart(y + 4716) >= 1461 && (y >= 0 ==> YearStart(y + 4716) >= 365 * y + 1722519)
  {
  }

  /** Below day number zero, a time of day leads to the next date. */
  lemma CutOffFails(t: Date)
    requires Valid(t) && YearOf(t) >= -4716 && Number(t) < 0
    ensures FromNumber(Number(t) + 1) != t
  {
    hide FromNumber, Number, IsLeap;
    NegativeNumber(t);
    NextNumber(t);
    var u := NextDay(t);
    assert YearOf(u) >= YearOf(t) && YearOf(u) <= YearOf(t) + 1;
    NoLateCentury(YearOf(t));
    NoLateCentury(YearOf(u));
    NumberBack(u);
  }

  lemma NoLateCentury(y: int)
    requires -4716 <= y <= -4712
    ensures !LateCentury(y)
  {
  }

  /** When computeYMD gives a date and time of day back. */
  predicate ComesBack(t: Date, f: real) {
    Faithful(t) && (Number(t) >= 0 || f == 0.0)
  }

  /**
   The round trip for every date and any time of the day. It succeeds if and only if the March-based
   year is not before -4716, is not one of the centuries before 0 that are no leap years, the date is not
   March 1 of the year 300, and the time of day is not cut off upward below day number zero. March 1
   of the year 300 comes back as a February 29 that year does not have.
   */
  lemma RoundTrip(t: Date, f: real)
    requires Valid(t) && 0.0 <= f < 1.0
    ensures FromJulian(ToJulian(t) + f) == t <==> ComesBack(t, f)
    ensures t == Date(300, 3, 1) ==> FromJulian(ToJulian(t) + f) == Date(300, 2, 29) && !Valid(Date(300, 2, 29))
  {
    hide FromJulian, ToJulian, FromNumber, Number, LateCentury;
    ToJulianIs(t);
    FromJulianIs(Number(t), f);
    assert Number(t) as real - 0.5 + f == ToJulian(t) + f;
    if t == Odd() {
      OddComesBackWrong();
      OddNumber();
    } else if YearOf(t) < -4716 {
      AncientFails(t, CutOff(Number(t), f) - Number(t));
    } else if CutOff(Number(t), f) != Number(t) {
      CutOffFails(t);
    } else if LateCentury(YearOf(t)) {
      LateFails(t);
    } else {
      NumberBack(t);
    }
  }

  lemma OddNumber()
    ensures Number(Odd()) == 1830692
  {
  }

  /** From the year 0 on every date but one comes back at any time of the day. */
  lemma RoundTripFromZero(t: Date, f: real)
    requires Valid(t) && t.y >= 0 && 0.0 <= f < 1.0
    ensures FromJulian(ToJulian(t) + f) == t <==> t != Date(300, 3, 1)
  {
    hide FromJulian, ToJulian, Number;
    RoundTrip(t, f);
    if Number(t) < 0 { NegativeNumber(t); }
  }

  // ----- consecutive days

  /** How many days the code is ahead of the calendar in a March-based year. */
  function Ahead(y: int): int {
    (if y < -4716 && y % 4 != 0 then 1 else 0) + if LateCentury(y) then 1 else 0
  }

  /** The number of a date by the rules of the calendar, with divisions that round down. */
  function DayCount(t: Date): int {
    var y := YearOf(t);
    365 * y + y / 4 - y / 100 + y / 400 + DayOf(t) + 1720997
  }

  lemma CenturyFloor(y: int)
    ensures Century(y) == y / 400 - y / 100 + if LateCentury(y) then 1 else 0
  {
    if y >= 0 {
      var q, e, c := Parts(y);
      CenturyIs(q, e, c);
      FloorParts(q, e, c);
    } else {
      var q, e, c := Parts(-y);
      CenturyNegative(q, e, c);
      NegativeMod(q, e, c);
      FloorNegative(q, e, c);
    }
  }

  lemma FloorParts(q: int, e: int, c: int)
    requires 0 <= e < 4 && 0 <= c < 100
    ensures (400 * q + 100 * e + c) / 100 == 4 * q + e && (400 * q + 100 * e + c) / 400 == q
  {
  }

  lemma FloorNegative(q: int, e: int, c: int)
    requires 0 <= e < 4 && 0 <= c < 100
    ensures var y := -(400 * q + 100 * e + c);
      && y / 100 == -(4 * q + e) - (if c > 0 then 1 else 0)
      && y / 400 == -q - if e > 0 || c > 0 then 1 else 0
  {
  }

  lemma YearStartFloor(y: int)
    ensures YearStart(y + 4716) == 365 * y + y / 4 + 1722519
  {
    var q, r := y / 4, y % 4;
    assert y == 4 * q + r;
    assert 1461 * (y + 4716) == 4 * (1461 * q + 1722519 + 365 * r) + r;
  }

  /** computeJD gives the calendar's day, and up to two days more in the years where it is ahead. */
  lemma JulianIsCount(t: Date)
    requires Valid(t)
    ensures ToJulian(t) == (DayCount(t) + Ahead(YearOf(t))) as real - 0.5
  {
    hide ToJulian, Valid, DayOf, YearStart, Century, LateCentury;
    ToJulianIs(t);
    CenturyFloor(YearOf(t));
    YearStartFloor(YearOf(t));
    YearSumIs(YearOf(t));
  }

  /** The calendar's day numbers of consecutive days are consecutive. */
  lemma CountNext(t: Date)
    requires Valid(t)
    ensures Valid(NextDay(t)) && DayCount(NextDay(t)) == DayCount(t) + 1
  {
    hide IsLeap;
    if t.d == DaysIn(t.y, t.m) {
      if t.m == 2 {
        FebruaryEnds(t.y);
      } else {
        MonthEnds(t);
      }
    }
  }

  /** The end of February, where the March-based year changes. */
  lemma FebruaryEnds(Y: int)
    ensures DayCount(Date(Y, 3, 1)) == DayCount(Date(Y, 2, DaysIn(Y, 2))) + 1
  {
    LeapRule(Y);
    StepDown4(Y);
    StepDown100(Y);
    StepDown400(Y);
  }

  lemma StepDown4(y: int)
    ensures y / 4 - (y - 1) / 4 == if y % 4 == 0 then 1 else 0
  {
  }

  lemma StepDown100(y: int)
    ensures y / 100 - (y - 1) / 100 == if y % 100 == 0 then 1 else 0
  {
  }

  lemma StepDown400(y: int)
    ensures y / 400 - (y - 1) / 400 == if y % 400 == 0 then 1 else 0
  {
  }

  lemma LeapRule(Y: int)
    ensures DaysIn(Y, 2) == 28 + (if Y % 4 == 0 then 1 else 0) - if Y % 100 == 0 && Y % 400 != 0 then 1 else 0
    ensures Y % 400 == 0 ==> Y % 100 == 0
  {
    Mod4(Y);
    Mod100(Y);
  }

  /** Within the March-based year months follow one another. */
  lemma MonthEnds(t: Date)
    requires Valid(t) && t.m != 2 && t.d == DaysIn(t.y, t.m)
    ensures DayOf(NextDay(t)) == DayOf(t) + 1 && YearOf(NextDay(t)) == YearOf(t)
  {
    hide IsLeap;
  }

  lemma NextNumber(t: Date)
    requires Valid(t)
    ensures Valid(NextDay(t))
    ensures Number(NextDay(t)) == Number(t) + 1 + Ahead(YearOf(NextDay(t))) - Ahead(YearOf(t))
  {
    hide ToJulian, Valid, Number, DayCount, Ahead, NextDay;
    CountNext(t);
    JulianIsCount(t);
    JulianIsCount(NextDay(t));
    ToJulianIs(t);
    ToJulianIs(NextDay(t));
  }

  /**
   Consecutive days have Julian days that differ by one, if and only if the code is as far ahead in the
   one March-based year as in the other; from the year 0 on that is always so.
   */
  lemma Consecutive(t: Date)
    requires Valid(t)
    ensures Valid(NextDay(t))
    ensures ToJulian(NextDay(t)) == ToJulian(t) + 1.0 <==> Ahead(YearOf(NextDay(t))) == Ahead(YearOf(t))
    ensures t.y >= 0 ==> ToJulian(NextDay(t)) == ToJulian(t) + 1.0
  {
    hide ToJulian, Valid, Number, DayCount;
    CountNext(t);
    JulianIsCount(t);
    JulianIsCount(NextDay(t));
    if t.y >= 0 {
      assert YearOf(t) >= -1 && YearOf(NextDay(t)) >= -1;
      assert Ahead(-1) == 0;
    }
  }

  // ----- the hour 24

  /** When computeYMD gives the next day for the hour 24 of a date, f of a day after its midnight. */
  predicate NextComesBack(t: Date, f: real)
    requires Valid(t)
  {
    var u := NextDay(t);
    if Ahead(YearOf(u)) == Ahead(YearOf(t)) then ComesBack(u, f)
    else LateCentury(YearOf(u)) && YearOf(u) % 400 != 300
  }

  lemma AheadByOne(y: int)
    ensures 0 <= Ahead(y) <= 1 && (LateCentury(y) ==> y % 4 == 0)
  {
    Mod4(y);
  }

  /** The March-based year changes on March 1 only. */
  lemma NextYear(t: Date)
    requires Valid(t)
    ensures YearOf(NextDay(t)) == YearOf(t) || NextDay(t) == Date(YearOf(t) + 1, 3, 1)
  {
    hide IsLeap;
  }

  /** On March 1 of a year in which the code is not ahead, after one in which it was, a day is missed. */
  lemma DayMissed(u: Date, n: int)
    requires u.m == 3 && u.d == 1 && u.y >= -4716 && !LateCentury(u.y) && 1 <= n - Number(u) <= 2
    ensures FromNumber(n) != u
  {
    hide FromNumber, Number, LateCentury, Ahead;
    var v, w := Date(u.y, 3, 2), Date(u.y, 3, 3);
    NextNumber(u);
    NextNumber(v);
    if n == Number(u) + 1 { NumberBack(v); } else { NumberBack(w); }
  }

  /** The remainder on the day before March 1 of a late century. */
  lemma RestoredBefore(y: int)
    requires -4716 <= y && LateCentury(y)
    ensures Restored(Number(Date(y, 3, 1)) - 1) == -Century(y) - 2 + if y % 400 != 300 then 1 else 0
  {
    hide Quot, YearStart, Century;
    var q, e, c := Parts(-y);
    YearSumIs(y);
    NegativeMod(q, e, c);
    LateParts(q, e);
    PositionNegative(q, e, c, 123);
    CorrectionNegative(q, e, e - 1);
    CenturyNegative(q, e, c);
    assert DayOf(Date(y, 3, 1)) == 123;
  }

  lemma LateParts(q: int, e: int)
    requires 0 <= e < 4
    ensures e > 0 ==> -(400 * q + 100 * e) % 400 == 400 - 100 * e
  {
    if e > 0 { Mod400Is(-q - 1, 400 - 100 * e); }
  }

  /** On March 1 of a late century the code is a day ahead of the day number that gives the date back. */
  lemma LateStart(y: int)
    requires -4716 <= y && LateCentury(y)
    ensures FromNumber(Number(Date(y, 3, 1)) - 1) == Date(y, 3, 1) <==> y % 400 != 300
  {
    hide Restored, Split, FromNumber, YearStart, Century, LateCentury, YearSum;
    var u := Date(y, 3, 1);
    assert DayOf(u) == 123;
    RestoredBefore(y);
    YearSumIs(y);
    FromNumberIs(Number(u) - 1);
    if y % 400 != 300 { SplitBack(u); } else { SplitBefore(y); }
  }

  /** The day before March 1 is in the year before. */
  lemma SplitBefore(y: int)
    requires -4716 <= y && LateCentury(y)
    ensures Split(YearStart(y + 4716) + 122) != Date(y, 3, 1)
  {
    hide Split, Quot;
    AheadByOne(y);
    assert YearStart(y + 4716) + 122 == YearStart(y - 1 + 4716) + 488;
    YearBack(y - 1, 488);
    if Split(YearStart(y + 4716) + 122) == Date(y, 3, 1) { SplitYear(YearStart(y + 4716) + 122, Date(y, 3, 1)); }
  }

  /** Where the code's lead changes from one day to the next. */
  lemma LeadChanges(t: Date, n: int)
    requires Valid(t) && Ahead(YearOf(NextDay(t))) != Ahead(YearOf(t))
    requires n == Number(t) + 1 || (n == Number(t) + 2 && Number(t) + 1 < 0)
    ensures FromNumber(n) == NextDay(t) <==> LateCentury(YearOf(NextDay(t))) && YearOf(NextDay(t)) % 400 != 300
  {
    hide FromNumber, Number, YearStart, Century, Valid, NextDay;
    var u, y := NextDay(t), YearOf(NextDay(t));
    NextNumber(t);
    NextYear(t);
    AheadByOne(y);
    AheadByOne(y - 1);
    if y < -4716 {
      NumberIs(u);
      AncientLater(u, n);
    } else if LateCentury(y) {
      NotNegative(t);
      LateStart(y);
    } else {
      DayMissed(u, n);
    }
  }

  lemma NumberIs(t: Date)
    ensures Number(t) == YearStart(YearOf(t) + 4716) + DayOf(t) + Century(YearOf(t)) + 2 - 1524
      + if YearOf(t) < -4716 && YearOf(t) % 4 != 0 then 1 else 0
  {
    hide YearStart, YearSum, DayOf, Century;
    YearSumIs(YearOf(t));
  }

  lemma NotNegative(t: Date)
    requires Valid(t) && YearOf(t) >= -4716 && LateCentury(YearOf(t) + 1)
    ensures Number(t) >= 0
  {
    hide Number, Valid;
    if Number(t) < 0 { NegativeNumber(t); NoLateCentury(YearOf(t) + 1); }
  }

  /**
   The hour 24 of a date is the hour 0 of the next one, if and only if the next date comes back and the
   code is as far ahead on it; if it is not, only on March 1 of two late centuries of every three.
   */
  lemma HourTwentyFour(t: Date, f: real)
    requires Valid(t) && 0.0 <= f < 1.0
    ensures FromJulian(ToJulian(t) + (1.0 + f)) == NextDay(t) <==> NextComesBack(t, f)
    ensures t.y >= 0 ==> (NextComesBack(t, f) <==> NextDay(t) != Date(300, 3, 1))
  {
    hide FromJulian, ToJulian, FromNumber, Number, LateCentury, ComesBack, Ahead;
    var u := NextDay(t);
    Consecutive(t);
    ToJulianIs(t);
    if Ahead(YearOf(u)) == Ahead(YearOf(t)) {
      assert ToJulian(t) + (1.0 + f) == ToJulian(u) + f;
      RoundTrip(u, f);
    } else {
      FromJulianIs(Number(t) + 1, f);
      assert (Number(t) + 1) as real - 0.5 + f == ToJulian(t) + (1.0 + f);
      LeadChanges(t, CutOff(Number(t) + 1, f));
    }
    if t.y >= 0 {
      JulianIsCount(t);
      JulianIsCount(u);
      CountNext(t);
      RoundTripFromZero(u, f);
      RoundTrip(u, f);
    }
  }

  // ----- the DateTime record

  class DateTime {
    var rJD: real
    var Y: int
    var M: int
    var D: int
    var h: int
    var m: int
    var s: real
    var tz: int
    var validYMD: bool
    var validHMS: bool
    var validJD: bool
    var validTZ: bool

    constructor ()
      ensures !validYMD && !validHMS && !validJD && !validTZ
    {
      validYMD, validHMS, validJD, validTZ := false, false, false, false;
    }

    /** The date computeJD starts from: by default 2000-01-01. */
    ghost function Day(): Date
      reads this
    {
      if validYMD then Date(Y, M, D) else Date(2000, 1, 1)
    }

    /** The fraction of the day that computeJD adds. */
    ghost function Clock(): real
      reads this
    {
      if !validHMS then 0.0
      else
        (h as real * 3600.0 + m as real * 60.0 + s) / 86400.0 - if validTZ then (tz * 60) as real / 86400.0 else 0.0
    }

    method ComputeJD()
      modifies this
      ensures validJD
      ensures rJD == if old(validJD) then old(rJD) else ToJulian(old(Day())) + old(Clock())
      ensures Y == old(Y) && M == old(M) && D == old(D) && h == old(h) && m == old(m) && s == old(s) && tz == old(tz)
      ensures var moved := !old(validJD) && old(validHMS) && old(validTZ);
        && validYMD == (old(validYMD) && !moved)
        && validHMS == (old(validHMS) && !moved)
        && validTZ == (old(validTZ) && !moved)
    {
      hide Trunc, Quot;
      if validJD { return; }
      var y, mon, day := 2000, 1, 1;
      if validYMD { y, mon, day := Y, M, D; }
      if mon <= 2 { y, mon := y - 1, mon + 12; }
      var a := Quot(y, 100);
      var b := 2 - a + Quot(a, 4);
      var x1 := Trunc(365.25 * (y + 4716) as real);
      var x2 := Trunc(30.6001 * (mon + 1) as real);
      rJD := (x1 + x2 + day + b) as real - 1524.5;
      validJD := true;
      if validHMS {
        rJD := rJD + (h as real * 3600.0 + m as real * 60.0 + s) / 86400.0;
        if validTZ {
          rJD := rJD - (tz * 60) as real / 86400.0;
          validYMD, validHMS, validTZ := false, false, false;
        }
      }
    }

    method ComputeYMD()
      modifies this`Y, this`M, this`D, this`validYMD
      ensures validYMD
      ensures Date(Y, M, D) ==
        if old(validYMD) then old(Date(Y, M, D)) else if validJD then FromJulian(rJD) else Date(2000, 1, 1)
    {
      hide Trunc, Quot;
      if validYMD { return; }
      if !validJD {
        Y, M, D := 2000, 1, 1;
      } else {
        var z := Trunc(rJD + 0.5);
        var a := Trunc((z as real - 1867216.25) / 36524.25);
        a := z + 1 + a - Quot(a, 4);
        var b := a + 1524;
        var c := Trunc((b as real - 122.1) / 365.25);
        var d := Trunc(365.25 * c as real);
        var e := Trunc((b - d) as real / 30.6001);
        var x1 := Trunc(30.6001 * e as real);
        D := b - d - x1;
        M := if e < 14 then e - 1 else e - 13;
        Y := if M > 2 then c - 4716 else c - 4715;
      }
      validYMD := true;
    }

    /**
     Recomputing the date of a time stamp without a time zone, as after clearYMD_HMS_TZ. The hour 24 is
     the first hour of the next day.
     */
    method Recompute()
      requires validYMD && !validJD && !validTZ && Valid(Date(Y, M, D))
      requires validHMS ==> 0 <= h <= 24 && 0 <= m < 60 && 0.0 <= s < 60.0
      modifies this
      ensures old(Clock()) < 1.0 <==> !old(validHMS) || old(h) < 24
      ensures old(Clock()) < 1.0 ==>
        (Date(Y, M, D) == old(Date(Y, M, D)) <==> ComesBack(old(Date(Y, M, D)), old(Clock())))
      ensures old(Clock()) >= 1.0 ==>
        (Date(Y, M, D) == NextDay(old(Date(Y, M, D))) <==> NextComesBack(old(Date(Y, M, D)), old(Clock()) - 1.0))
    {
      hide FromJulian, ToJulian, ComesBack, NextComesBack, Valid, NextDay;
      ComputeJD();
      validYMD := false;
      ComputeYMD();
      if validHMS { ClockRange(h, m, s); }
      ghost var t, f := old(Date(Y, M, D)), old(Clock());
      if f < 1.0 {
        RoundTrip(t, f);
      } else {
        HourTwentyFour(t, f - 1.0);
        assert 1.0 + (f - 1.0) == f;
      }
    }
  }

  /** A time zone of tz minutes counts as tz minutes less on the clock. */
  lemma ZoneIsTakenOff(x: DateTime, y: DateTime)
    requires x.validHMS && x.validTZ && y.validHMS && !y.validTZ
    requires x.Day() == y.Day() && y.s == x.s && 60 * y.h + y.m == 60 * x.h + x.m - x.tz
    ensures ToJulian(x.Day()) + x.Clock() == ToJulian(y.Day()) + y.Clock()
  {
    hide ToJulian;
    assert y.h as real * 3600.0 + y.m as real * 60.0 == (60 * y.h + y.m) as real * 60.0;
    assert x.h as real * 3600.0 + x.m as real * 60.0 == (60 * x.h + x.m) as real * 60.0;
    assert (x.tz * 60) as real == x.tz as real * 60.0;
  }

  /** Noon is half a day. */
  lemma NoonIsHalf(x: DateTime)
    requires x.validHMS && !x.validTZ && x.h == 12 && x.m == 0 && x.s == 0.0
    ensures x.Clock() == 0.5
  {
  }

  lemma ClockRange(h: int, m: int, s: real)
    requires 0 <= h <= 24 && 0 <= m < 60 && 0.0 <= s < 60.0
    ensures 0.0 <= (h as real * 3600.0 + m as real * 60.0 + s) / 86400.0 < 2.0
    ensures (h as real * 3600.0 + m as real * 60.0 + s) / 86400.0 < 1.0 <==> h < 24
  {
    assert m as real <= 59.0;
    if h < 24 { assert h as real <= 23.0; }
  }
}
