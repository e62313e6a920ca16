/** `getWindow(lengthDays, offsetDays = 0)`: a window of `lengthDays` days
    ending `offsetDays` days before today, as two `yyyy-MM-dd` strings. Days
    are day numbers (see `Calendar`), and today is a parameter rather than a
    reading of the clock. */
module DateRanges {
  import opened Text
  import opened Calendar

  /** The number of days in the years 1 through 9999: the days whose
      `toISOString()` starts with a four-digit year. */
  const IsoDayLimit: nat := 3652059

  predicate IsoDay(n: int) {
    0 <= n < IsoDayLimit
  }

  /** `IsoDay` names exactly the days of the years 1 through 9999. */
  lemma IsoDayYears(n: nat)
    ensures IsoDay(n) <==> FromDayNumber(n).year <= 9999
  {
    IsoDayLimitValue();
    YearBelow(n, 10000);
  }

  lemma IsoDayLimitValue()
    ensures DaysBeforeYear(10000) == IsoDayLimit
  {
    DaysBeforeYearClosedForm(10000);
    assert 365 * 9999 + 9999 / 4 - 9999 / 100 + 9999 / 400 == 3652059;
  }

  /** The window as day numbers. */
  datatype DayWindow = DayWindow(start: int, end: int)

  /** `end.setDate(now.getDate() - offsetDays)`, then
      `start.setDate(end.getDate() - lengthDays)`. */
  function WindowDays(today: int, lengthDays: int, offsetDays: int := 0): DayWindow {
    var end := today - offsetDays;
    DayWindow(end - lengthDays, end)
  }

  /** The window ends `offsetDays` before today (today itself by default),
      starts `lengthDays` before its end, and is in order exactly when its
      length is not negative. */
  lemma WindowBounds(today: int, lengthDays: int, offsetDays: int)
    ensures WindowDays(today, lengthDays, offsetDays).end == today - offsetDays
    ensures WindowDays(today, lengthDays).end == today
    ensures WindowDays(today, lengthDays, offsetDays).end - WindowDays(today, lengthDays, offsetDays).start == lengthDays
    ensures WindowDays(today, lengthDays, offsetDays).start <= WindowDays(today, lengthDays, offsetDays).end <==> 0 <= lengthDays
  {
  }

  /** The previous window of the same length ends on the day the current one
      starts: `getWindow(n, o + n).end == getWindow(n, o).start`. */
  lemma WindowsAdjacent(today: int, lengthDays: int, offsetDays: int)
    ensures WindowDays(today, lengthDays, offsetDays + lengthDays).end == WindowDays(today, lengthDays, offsetDays).start
  {
  }

  /** `yyyy-MM-dd`: ten characters, dashes at 4 and 7, digits elsewhere. */
  predicate IsoShaped(s: string) {
    && |s| == 10 && s[4] == '-' && s[7] == '-'
    && forall k :: 0 <= k < 10 && k != 4 && k != 7 ==> IsDigit(s[k])
  }

  /** The fields of a date of the years 1 through 9999, joined, have that
      shape. */
  lemma FieldsShaped(year: nat, monthIndex: nat, day: nat)
    requires 1 <= year <= 9999 && monthIndex < 12 && day < 100
    ensures IsoShaped(JoinFields(PadStart(NatToDecimal(year), 4, '0'), Pad2(monthIndex + 1), Pad2(day)))
  {
    DecimalWidth(year);
    PadStartValue(NatToDecimal(year), 4);
    JoinFieldsShape(PadStart(NatToDecimal(year), 4, '0'), Pad2(monthIndex + 1), Pad2(day));
  }

  /** `d.toISOString().slice(0, 10)` for a day of the years 1 through 9999:
      the year padded to four digits, the 1-based month and the day padded
      to two. */
  function IsoDate(n: nat): (s: string)
    requires IsoDay(n)
    ensures IsoShaped(s)
  {
    var d := FromDayNumber(n);
    IsoDayYears(n);
    FieldsShaped(d.year, d.monthIndex, d.day);
    JoinFields(PadStart(NatToDecimal(d.year), 4, '0'), Pad2(d.monthIndex + 1), Pad2(d.day))
  }

  /** The three fields of `IsoDate(n)` read back as the year, the 1-based
      month and the day of the date with day number `n`. */
  lemma IsoDateFields(n: nat)
    requires IsoDay(n)
    ensures var d := FromDayNumber(n);
      && IsoDate(n) == JoinFields(PadStart(NatToDecimal(d.year), 4, '0'), Pad2(d.monthIndex + 1), Pad2(d.day))
      && AllDigits(PadStart(NatToDecimal(d.year), 4, '0'))
      && |PadStart(NatToDecimal(d.year), 4, '0')| == 4
      && DecimalValue(PadStart(NatToDecimal(d.year), 4, '0')) == d.year
      && DecimalValue(Pad2(d.monthIndex + 1)) == d.monthIndex + 1
      && DecimalValue(Pad2(d.day)) == d.day
  {
    var d := FromDayNumber(n);
    IsoDayYears(n);
    DecimalWidth(d.year);
    DecimalRoundTrip(d.year);
    PadStartValue(NatToDecimal(d.year), 4);
    Pad2Value(d.monthIndex + 1);
    Pad2Value(d.day);
  }

  /** A later day prints as a later string. */
  lemma IsoDateLt(a: nat, b: nat)
    requires IsoDay(a) && IsoDay(b) && a < b
    ensures StrLt(IsoDate(a), IsoDate(b))
  {
    var da, db := FromDayNumber(a), FromDayNumber(b);
    var ya, yb := PadStart(NatToDecimal(da.year), 4, '0'), PadStart(NatToDecimal(db.year), 4, '0');
    var ma, mb := Pad2(da.monthIndex + 1), Pad2(db.monthIndex + 1);
    var ea, eb := Pad2(da.day), Pad2(db.day);
    IsoDateFields(a);
    IsoDateFields(b);
    DayNumberOrder(da, db);
    DecimalOrder(ya, yb);
    DecimalOrder(ma, mb);
    DecimalOrder(ea, eb);
    JoinFieldsOrder(ya, ma, ea, yb, mb, eb);
  }

  /** ISO dates sort as strings in day order, and different days print
      differently. */
  lemma IsoDateOrder(a: nat, b: nat)
    requires IsoDay(a) && IsoDay(b)
    ensures a < b <==> StrLt(IsoDate(a), IsoDate(b))
    ensures a == b <==> IsoDate(a) == IsoDate(b)
  {
    StrLtIrreflexive(IsoDate(a));
    if a < b {
      IsoDateLt(a, b);
    } else if b < a {
      IsoDateLt(b, a);
      StrLtTrichotomy(IsoDate(a), IsoDate(b));
    }
  }

  /** The `DateRange` that `getWindow` returns. */
  datatype DateRange = DateRange(start: string, end: string)

  /** Both ends of the window must be days of the years 1 through 9999. */
  predicate Printable(today: int, lengthDays: int, offsetDays: int) {
    IsoDay(today - offsetDays - lengthDays) && IsoDay(today - offsetDays)
  }

  /** `{ start: fmt(start), end: fmt(end) }`. */
  function FormatWindow(w: DayWindow): (r: DateRange)
    requires IsoDay(w.start) && IsoDay(w.end)
    ensures |r.start| == 10 && |r.end| == 10
  {
    DateRange(IsoDate(w.start), IsoDate(w.end))
  }

  /** The printed start comes no later than the printed end exactly when
      the start day does, and they coincide exactly when the days do. */
  lemma FormatWindowOrdered(w: DayWindow)
    requires IsoDay(w.start) && IsoDay(w.end)
    ensures w.start <= w.end <==>
      FormatWindow(w).start == FormatWindow(w).end || StrLt(FormatWindow(w).start, FormatWindow(w).end)
    ensures w.start == w.end <==> FormatWindow(w).start == FormatWindow(w).end
  {
    IsoDateOrder(w.start, w.end);
  }

  /** `getWindow(lengthDays, offsetDays)` with today's day number given. */
  function GetWindow(today: int, lengthDays: int, offsetDays: int := 0): (r: DateRange)
    requires Printable(today, lengthDays, offsetDays)
    ensures IsoShaped(r.start) && IsoShaped(r.end)
  {
    FormatWindow(WindowDays(today, lengthDays, offsetDays))
  }

  /** With the default offset the window ends on today's date. */
  lemma GetWindowEnd(today: int, lengthDays: int)
    requires Printable(today, lengthDays, 0)
    ensures GetWindow(today, lengthDays).end == IsoDate(today)
  {
  }

  /** An offset moves the whole window back: `getWindow(n, o)` is the window
      `getWindow(n)` would give `o` days earlier, so it ends on the date
      `o` days before today. */
  lemma GetWindowShift(today: int, lengthDays: int, offsetDays: int)
    requires Printable(today, lengthDays, offsetDays)
    ensures GetWindow(today, lengthDays, offsetDays) == GetWindow(today - offsetDays, lengthDays)
  {
  }

  /** The start comes no later than the end, as strings, exactly when the
      length is not negative; the two coincide exactly when it is zero. */
  lemma GetWindowOrdered(today: int, lengthDays: int, offsetDays: int)
    requires Printable(today, lengthDays, offsetDays)
    ensures 0 <= lengthDays <==>
      || GetWindow(today, lengthDays, offsetDays).start == GetWindow(today, lengthDays, offsetDays).end
      || StrLt(GetWindow(today, lengthDays, offsetDays).start, GetWindow(today, lengthDays, offsetDays).end)
    ensures lengthDays == 0 <==>
      GetWindow(today, lengthDays, offsetDays).start == GetWindow(today, lengthDays, offsetDays).end
  {
    FormatWindowOrdered(WindowDays(today, lengthDays, offsetDays));
  }

  /** Consecutive windows share their boundary day:
      `getWindow(n, o + n).end == getWindow(n, o).start`. */
  lemma GetWindowAdjacent(today: int, lengthDays: int, offsetDays: int)
    requires Printable(today, lengthDays, offsetDays)
    requires Printable(today, lengthDays, offsetDays + lengthDays)
    ensures GetWindow(today, lengthDays, offsetDays + lengthDays).end == GetWindow(today, lengthDays, offsetDays).start
  {
    WindowsAdjacent(today, lengthDays, offsetDays);
  }
}
