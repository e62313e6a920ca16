/** The proleptic Gregorian calendar that ECMAScript `Date` uses (ECMA-262,
    section 21.4.1), on civil dates rather than millisecond time values.
    A `Date` holds what `getFullYear()`, `getMonth()` (0-based) and
    `getDate()` return. Days are counted from 0001-01-01, which is day 0. */
module Calendar {
  import opened Text

  datatype Date = Date(year: int, monthIndex: int, day: int)

  predicate IsLeapYear(y: int) {
    y % 4 == 0 && (y % 100 != 0 || y % 400 == 0)
  }

  function YearLength(y: int): int {
    if IsLeapYear(y) then 366 else 365
  }

  function DaysInMonth(y: int, mi: int): int
    requires 0 <= mi < 12
  {
    if mi == 1 then (if IsLeapYear(y) then 29 else 28)
    else if mi == 3 || mi == 5 || mi == 8 || mi == 10 then 30
    else 31
  }

  /** A real calendar day from year 1 on. */
  predicate ValidDate(d: Date) {
    1 <= d.year && 0 <= d.monthIndex < 12 && 1 <= d.day <= DaysInMonth(d.year, d.monthIndex)
  }

  /** Days of the year `y` before the first of month `mi`. */
  function DaysBeforeMonth(y: int, mi: int): (n: nat)
    requires 0 <= mi < 12
    ensures n + DaysInMonth(y, mi) <= YearLength(y)
    ensures mi == 11 ==> n + DaysInMonth(y, mi) == YearLength(y)
  {
    var common := [0, 31, 59, 90, 120, 151, 181, 212, 243, 273, 304, 334];
    common[mi] + if mi >= 2 && IsLeapYear(y) then 1 else 0
  }

  /** Days from 0001-01-01 to the first of January of `y`. */
  function DaysBeforeYear(y: int): nat
    requires 1 <= y
  {
    if y == 1 then 0 else DaysBeforeYear(y - 1) + YearLength(y - 1)
  }

  /** The day's distance from 0001-01-01. */
  function DayNumber(d: Date): nat
    requires ValidDate(d)
  {
    DaysBeforeYear(d.year) + DaysBeforeMonth(d.year, d.monthIndex) + d.day - 1
  }

  /** `d.setDate(d.getDate() + 1)`: the following calendar day, rolling over
      the end of a month and of a year. */
  function NextDay(d: Date): (n: Date)
    requires ValidDate(d)
    ensures ValidDate(n) && DayNumber(n) == DayNumber(d) + 1
  {
    if d.day < DaysInMonth(d.year, d.monthIndex) then Date(d.year, d.monthIndex, d.day + 1)
    else if d.monthIndex < 11 then
      DaysBeforeMonthStep(d.year, d.monthIndex);
      Date(d.year, d.monthIndex + 1, 1)
    else Date(d.year + 1, 0, 1)
  }

  /** The day `r` days into month `mi` of year `y`, carried into later months. */
  function DateInYear(y: int, mi: int, r: nat): (d: Date)
    requires 1 <= y && 0 <= mi < 12 && DaysBeforeMonth(y, mi) + r < YearLength(y)
    ensures ValidDate(d) && d.year == y
    ensures DayNumber(d) == DaysBeforeYear(y) + DaysBeforeMonth(y, mi) + r
    decreases 12 - mi
  {
    if r < DaysInMonth(y, mi) then Date(y, mi, r + 1)
    else
      DaysBeforeMonthStep(y, mi);
      DateInYear(y, mi + 1, r - DaysInMonth(y, mi))
  }

  /** The day `r` days after the first of January of `y`. */
  function DateFrom(y: int, r: nat): (d: Date)
    requires 1 <= y
    ensures ValidDate(d) && y <= d.year
    ensures DayNumber(d) == DaysBeforeYear(y) + r
    decreases r
  {
    if r < YearLength(y) then DateInYear(y, 0, r) else DateFrom(y + 1, r - YearLength(y))
  }

  /** The calendar day with day number `n` (`DateFrom` shows there is one,
      `DayNumberOrder` that there is only one). */
  function FromDayNumber(n: nat): (d: Date)
    ensures ValidDate(d) && DayNumber(d) == n
  {
    DateFrom(1, n)
  }

  /** Calendar order: by year, then month, then day. */
  predicate DateLt(d1: Date, d2: Date) {
    || d1.year < d2.year
    || (d1.year == d2.year && d1.monthIndex < d2.monthIndex)
    || (d1.year == d2.year && d1.monthIndex == d2.monthIndex && d1.day < d2.day)
  }

  lemma {:induction false} DaysBeforeYearMonotone(y1: int, y2: int)
    requires 1 <= y1 <= y2
    ensures DaysBeforeYear(y1) <= DaysBeforeYear(y2)
    ensures y1 < y2 ==> DaysBeforeYear(y1) + YearLength(y1) <= DaysBeforeYear(y2)
    decreases y2 - y1
  {
    if y1 < y2 { DaysBeforeYearMonotone(y1, y2 - 1); }
  }

  lemma DaysBeforeMonthStep(y: int, mi: int)
    requires 0 <= mi < 11
    ensures DaysBeforeMonth(y, mi + 1) == DaysBeforeMonth(y, mi) + DaysInMonth(y, mi)
  {
  }

  lemma {:induction false} DaysBeforeMonthMonotone(y: int, m1: int, m2: int)
    requires 0 <= m1 < m2 < 12
    ensures DaysBeforeMonth(y, m1) + DaysInMonth(y, m1) <= DaysBeforeMonth(y, m2)
    decreases m2
  {
    DaysBeforeMonthStep(y, m2 - 1);
    if m1 < m2 - 1 { DaysBeforeMonthMonotone(y, m1, m2 - 1); }
  }

  /** The days before year `y`: 365 a year plus one for each leap year. */
  lemma {:induction false} DaysBeforeYearClosedForm(y: int)
    requires 1 <= y
    ensures DaysBeforeYear(y) == 365 * (y - 1) + (y - 1) / 4 - (y - 1) / 100 + (y - 1) / 400
  {
    if y > 1 {
      DaysBeforeYearClosedForm(y - 1);
      LeapCountStep(y - 1);
    }
  }

  /** Going from `x - 1` to `x` adds one leap year to the count exactly when
      `x` is a leap year. */
  lemma LeapCountStep(x: int)
    requires 1 <= x
    ensures x / 4 - x / 100 + x / 400 ==
      (x - 1) / 4 - (x - 1) / 100 + (x - 1) / 400 + YearLength(x) - 365
  {
    DivStep(x, 4);
    DivStep(x, 100);
    DivStep(x, 400);
    assert x % 400 == 0 ==> x % 100 == 0;
    assert x % 100 == 0 ==> x % 4 == 0;
  }

  lemma DivStep(x: int, k: int)
    requires 1 <= x && (k == 4 || k == 100 || k == 400)
    ensures x / k == (x - 1) / k + (if x % k == 0 then 1 else 0)
  {
    if k == 4 {
      assert x / 4 == (x - 1) / 4 + (if x % 4 == 0 then 1 else 0);
    } else if k == 100 {
      assert x / 100 == (x - 1) / 100 + (if x % 100 == 0 then 1 else 0);
    } else {
      assert x / 400 == (x - 1) / 400 + (if x % 400 == 0 then 1 else 0);
    }
  }

  /** The day with number `n` falls before year `y` exactly when fewer than
      `DaysBeforeYear(y)` days precede it. */
  lemma YearBelow(n: nat, y: int)
    requires 1 <= y
    ensures FromDayNumber(n).year < y <==> n < DaysBeforeYear(y)
  {
    var d := FromDayNumber(n);
    if d.year < y {
      DaysBeforeYearMonotone(d.year, y);
    } else {
      DaysBeforeYearMonotone(y, d.year);
    }
  }

  /** Day numbers follow calendar order. */
  lemma DayNumberOrder(d1: Date, d2: Date)
    requires ValidDate(d1) && ValidDate(d2)
    ensures DateLt(d1, d2) <==> DayNumber(d1) < DayNumber(d2)
    ensures d1 == d2 <==> DayNumber(d1) == DayNumber(d2)
  {
    if d1.year < d2.year {
      DaysBeforeYearMonotone(d1.year, d2.year);
    } else if d2.year < d1.year {
      DaysBeforeYearMonotone(d2.year, d1.year);
    } else if d1.monthIndex < d2.monthIndex {
      DaysBeforeMonthMonotone(d1.year, d1.monthIndex, d2.monthIndex);
    } else if d2.monthIndex < d1.monthIndex {
      DaysBeforeMonthMonotone(d1.year, d2.monthIndex, d1.monthIndex);
    }
  }

  /** A day between two others, by day number, has a year between theirs. */
  lemma YearBetween(lo: Date, d: Date, hi: Date)
    requires ValidDate(lo) && ValidDate(d) && ValidDate(hi)
    requires DayNumber(lo) <= DayNumber(d) <= DayNumber(hi)
    ensures lo.year <= d.year <= hi.year
  {
    DayNumberOrder(d, lo);
    DayNumberOrder(hi, d);
  }

  /** Every valid date is the date of its own day number. */
  lemma FromDayNumberOfDayNumber(d: Date)
    requires ValidDate(d)
    ensures FromDayNumber(DayNumber(d)) == d
  {
    DayNumberOrder(d, FromDayNumber(DayNumber(d)));
  }

  /** Stepping a day number forward steps the date forward by one day. */
  lemma FromDayNumberSucc(n: nat)
    ensures FromDayNumber(n + 1) == NextDay(FromDayNumber(n))
  {
    DayNumberOrder(FromDayNumber(n + 1), NextDay(FromDayNumber(n)));
  }

  /** `String(n).padStart(2, "0")`. */
  function Pad2(n: nat): (s: string)
    ensures n < 100 ==> |s| == 2 && AllDigits(s)
  {
    DecimalWidth(n);
    PadStart(NatToDecimal(n), 2, '0')
  }

  lemma Pad2Value(n: nat)
    requires n < 100
    ensures DecimalValue(Pad2(n)) == n
  {
    DecimalRoundTrip(n);
    PadStartValue(NatToDecimal(n), 2);
  }

  /** `y-m-d` built from three fields. */
  function JoinFields(y: string, m: string, dd: string): string {
    (y + "-") + ((m + "-") + dd)
  }

  lemma JoinFieldsShape(y: string, m: string, dd: string)
    requires |y| == 4 && |m| == 2 && |dd| == 2 && AllDigits(y) && AllDigits(m) && AllDigits(dd)
    ensures var l := JoinFields(y, m, dd);
      && |l| == 10 && l[4] == '-' && l[7] == '-'
      && forall k :: 0 <= k < 10 && k != 4 && k != 7 ==> IsDigit(l[k])
  {
    var a, b := y + "-", (m + "-") + dd;
    var l := JoinFields(y, m, dd);
    forall k | 0 <= k < 10 && k != 4 && k != 7
      ensures IsDigit(l[k])
    {
      if k < 4 {
        assert l[k] == a[k] == y[k];
      } else if k < 7 {
        assert l[k] == b[k - 5] == m[k - 5];
      } else {
        assert l[k] == b[k - 5] == dd[k - 8];
      }
    }
  }

  /** A field followed by a dash compares by the field first, then by what
      follows, when both fields have the same width. */
  lemma DashFieldOrder(x1: string, r1: string, x2: string, r2: string)
    requires |x1| == |x2|
    ensures StrLt((x1 + "-") + r1, (x2 + "-") + r2) <==> StrLt(x1, x2) || (x1 == x2 && StrLt(r1, r2))
  {
    StrLtConcat(x1 + "-", r1, x2 + "-", r2);
    StrLtSnoc(x1, '-', x2, '-');
    if x1 + "-" == x2 + "-" {
      assert x1 == (x1 + "-")[..|x1|] == (x2 + "-")[..|x2|] == x2;
    }
  }

  /** Joined fields of fixed width compare field by field, most significant first. */
  lemma JoinFieldsOrder(y1: string, m1: string, a1: string, y2: string, m2: string, a2: string)
    requires |y1| == |y2| && |m1| == |m2|
    ensures StrLt(JoinFields(y1, m1, a1), JoinFields(y2, m2, a2)) <==>
      || StrLt(y1, y2)
      || (y1 == y2 && StrLt(m1, m2))
      || (y1 == y2 && m1 == m2 && StrLt(a1, a2))
  {
    DashFieldOrder(y1, (m1 + "-") + a1, y2, (m2 + "-") + a2);
    DashFieldOrder(m1, a1, m2, a2);
  }
}
