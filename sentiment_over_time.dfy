/** The x-axis categories of the sentiment-over-time chart: every calendar day
    from the start date through the end date, as `yyyy-MM-dd` labels. */
module SentimentOverTime {
  import opened Wrappers
  import opened Seqs
  import opened Text
  import opened Calendar

  /** Dates the labels and the parser handle exactly: real days with a
      four-digit year (the `Date` constructor neither normalises them nor
      maps them to the twentieth century). */
  predicate Supported(d: Date) {
    ValidDate(d) && 1000 <= d.year <= 9999
  }

  /** `${getFullYear()}-${pad2(getMonth() + 1)}-${pad2(getDate())}`. */
  function CategoryLabel(d: Date): string
    requires ValidDate(d)
  {
    JoinFields(NatToDecimal(d.year), Pad2(d.monthIndex + 1), Pad2(d.day))
  }

  /** A part that `Number` reads as a plain decimal integer. */
  predicate IsNumeral(p: string) {
    p != [] && AllDigits(p)
  }

  /** `const [y, m, d] = s.split("-").map(Number); new Date(y, m - 1, d)`,
      on the strings whose three parts are numerals naming a supported date;
      `None` for every other string. */
  function ParseDate(s: string): (r: Option<Date>)
    ensures r.Some? ==> Supported(r.value)
  {
    var parts := Split(s, '-');
    if |parts| < 3 || !IsNumeral(parts[0]) || !IsNumeral(parts[1]) || !IsNumeral(parts[2]) then None
    else
      var d := Date(DecimalValue(parts[0]), DecimalValue(parts[1]) - 1, DecimalValue(parts[2]));
      if Supported(d) then Some(d) else None
  }

  lemma SplitCategoryLabel(d: Date)
    requires Supported(d)
    ensures Split(CategoryLabel(d), '-') == [NatToDecimal(d.year), Pad2(d.monthIndex + 1), Pad2(d.day)]
  {
    var y, m, dd := NatToDecimal(d.year), Pad2(d.monthIndex + 1), Pad2(d.day);
    assert !IsDigit('-');
    assert '-' !in y;
    assert '-' !in m;
    assert '-' !in dd;
    SplitJoinFields(y, m, dd);
  }

  /** Three dash-free fields joined with dashes split back into themselves. */
  lemma SplitJoinFields(y: string, m: string, dd: string)
    requires '-' !in y && '-' !in m && '-' !in dd
    ensures Split(JoinFields(y, m, dd), '-') == [y, m, dd]
  {
    SplitCons(y, '-', (m + "-") + dd);
    SplitCons(m, '-', dd);
    SplitNone(dd, '-');
  }

  lemma CategoryLabelFieldValues(d: Date)
    requires Supported(d)
    ensures DecimalValue(NatToDecimal(d.year)) == d.year
    ensures DecimalValue(Pad2(d.monthIndex + 1)) == d.monthIndex + 1
    ensures DecimalValue(Pad2(d.day)) == d.day
  {
    DecimalRoundTrip(d.year);
    Pad2Value(d.monthIndex + 1);
    Pad2Value(d.day);
  }

  /** Every label parses back to the date it was printed from. */
  lemma ParseCategoryLabel(d: Date)
    requires Supported(d)
    ensures ParseDate(CategoryLabel(d)) == Some(d)
  {
    SplitCategoryLabel(d);
    CategoryLabelFieldValues(d);
  }

  lemma CategoryLabelFields(d: Date)
    requires Supported(d)
    ensures |NatToDecimal(d.year)| == 4 && |Pad2(d.monthIndex + 1)| == 2 && |Pad2(d.day)| == 2
    ensures AllDigits(NatToDecimal(d.year)) && AllDigits(Pad2(d.monthIndex + 1)) && AllDigits(Pad2(d.day))
  {
    DecimalWidth(d.year);
  }

  /** The shape of a label: ten characters, dashes at positions 4 and 7,
      decimal digits everywhere else. */
  lemma CategoryLabelShape(d: Date)
    requires Supported(d)
    ensures var l := CategoryLabel(d);
      && |l| == 10 && l[4] == '-' && l[7] == '-'
      && forall k :: 0 <= k < 10 && k != 4 && k != 7 ==> IsDigit(l[k])
  {
    CategoryLabelFields(d);
    JoinFieldsShape(NatToDecimal(d.year), Pad2(d.monthIndex + 1), Pad2(d.day));
  }

  /** Labels compare field by field: year, then month, then day. */
  lemma CategoryLabelCompare(d1: Date, d2: Date)
    requires Supported(d1) && Supported(d2)
    ensures var y1, m1, a1 := NatToDecimal(d1.year), Pad2(d1.monthIndex + 1), Pad2(d1.day);
      var y2, m2, a2 := NatToDecimal(d2.year), Pad2(d2.monthIndex + 1), Pad2(d2.day);
      StrLt(CategoryLabel(d1), CategoryLabel(d2)) <==>
        StrLt(y1, y2) || (y1 == y2 && StrLt(m1, m2)) || (y1 == y2 && m1 == m2 && StrLt(a1, a2))
  {
    CategoryLabelFields(d1);
    CategoryLabelFields(d2);
    JoinFieldsOrder(NatToDecimal(d1.year), Pad2(d1.monthIndex + 1), Pad2(d1.day),
                    NatToDecimal(d2.year), Pad2(d2.monthIndex + 1), Pad2(d2.day));
  }

  /** Labels sort as strings in calendar order. */
  lemma CategoryLabelOrder(d1: Date, d2: Date)
    requires Supported(d1) && Supported(d2) && DateLt(d1, d2)
    ensures StrLt(CategoryLabel(d1), CategoryLabel(d2))
  {
    FieldsOrder(d1, d2);
    CategoryLabelCompare(d1, d2);
  }

  /** The first field in which two dates differ prints smaller for the
      earlier one. */
  lemma FieldsOrder(d1: Date, d2: Date)
    requires Supported(d1) && Supported(d2) && DateLt(d1, d2)
    ensures var y1, m1, a1 := NatToDecimal(d1.year), Pad2(d1.monthIndex + 1), Pad2(d1.day);
      var y2, m2, a2 := NatToDecimal(d2.year), Pad2(d2.monthIndex + 1), Pad2(d2.day);
      StrLt(y1, y2) || (y1 == y2 && StrLt(m1, m2)) || (y1 == y2 && m1 == m2 && StrLt(a1, a2))
  {
    var y1, m1, a1 := NatToDecimal(d1.year), Pad2(d1.monthIndex + 1), Pad2(d1.day);
    var y2, m2, a2 := NatToDecimal(d2.year), Pad2(d2.monthIndex + 1), Pad2(d2.day);
    CategoryLabelFields(d1);
    CategoryLabelFields(d2);
    CategoryLabelFieldValues(d1);
    CategoryLabelFieldValues(d2);
    DecimalOrder(y1, y2);
    DecimalOrder(m1, m2);
    DecimalOrder(a1, a2);
  }

  /** The label of the day with day number `n`. */
  ghost function DayLabel(n: nat): string {
    CategoryLabel(FromDayNumber(n))
  }

  /** The expected categories: for each day number from the start's to the
      end's, the label of that day; nothing when the start is later. */
  ghost function DayRange(s: Date, e: Date): (r: seq<string>)
    requires ValidDate(s) && ValidDate(e)
  {
    if DayNumber(e) < DayNumber(s) then []
    else Tabulate(DayNumber(s), DayNumber(e) - DayNumber(s) + 1, DayLabel)
  }

  /** `generateCategories(start, end)`: parses both dates and lists the
      labels of the days between them. */
  method GenerateCategories(start: string, end: string) returns (dates: seq<string>)
    requires ParseDate(start).Some? && ParseDate(end).Some?
    ensures dates == DayRange(ParseDate(start).value, ParseDate(end).value)
  {
    dates := CategoriesBetween(ParseDate(start).value, ParseDate(end).value);
  }

  /** The loop of `generateCategories`: walks a date from the start to the end
      one `setDate(getDate() + 1)` at a time, pushing each day's label. */
  method CategoriesBetween(s: Date, e: Date) returns (dates: seq<string>)
    requires ValidDate(s) && ValidDate(e)
    ensures dates == DayRange(s, e)
  {
    dates := [];
    var cur := s;
    ghost var n0 := DayNumber(s);
    ghost var stop := if DayNumber(e) < n0 then n0 else DayNumber(e) + 1;
    while DayNumber(cur) <= DayNumber(e)
      invariant ValidDate(cur) && n0 <= DayNumber(cur) <= stop
      invariant dates == Tabulate(n0, DayNumber(cur) - n0, DayLabel)
      decreases stop - DayNumber(cur)
    {
      CategoriesStep(dates, n0, DayNumber(cur) - n0, cur);
      dates := dates + [CategoryLabel(cur)];
      cur := NextDay(cur);
    }
  }

  /** One turn of the loop: the next label is the current day's. */
  lemma CategoriesStep(dates: seq<string>, n0: nat, c: nat, cur: Date)
    requires ValidDate(cur) && n0 + c == DayNumber(cur)
    requires dates == Tabulate(n0, c, DayLabel)
    ensures dates + [CategoryLabel(cur)] == Tabulate(n0, c + 1, DayLabel)
  {
    FromDayNumberOfDayNumber(cur);
    assert FromDayNumber(n0 + c) == cur;
    TabulateStep(dates, n0, c, DayLabel, CategoryLabel(cur));
  }

  lemma DayRangeLength(s: Date, e: Date)
    requires ValidDate(s) && ValidDate(e)
    ensures |DayRange(s, e)| == if DayNumber(e) < DayNumber(s) then 0 else DayNumber(e) - DayNumber(s) + 1
  {
  }

  /** The `k`-th category is the label of the day `k` days after the start,
      a day between the start and the end. */
  lemma DayRangeEntry(s: Date, e: Date, k: nat)
    requires Supported(s) && Supported(e) && k < |DayRange(s, e)|
    ensures DayNumber(s) + k <= DayNumber(e)
    ensures Supported(FromDayNumber(DayNumber(s) + k))
    ensures DayRange(s, e)[k] == CategoryLabel(FromDayNumber(DayNumber(s) + k))
  {
    DayRangeLength(s, e);
    var n := DayNumber(s) + k;
    YearBetween(s, FromDayNumber(n), e);
    assert DayRange(s, e)[k] == DayLabel(n);
  }

  /** Empty exactly when the start is after the end; otherwise one label per
      day, inclusive at both ends, from the start's label to the end's. */
  lemma DayRangeEnds(s: Date, e: Date)
    requires Supported(s) && Supported(e)
    ensures DayRange(s, e) == [] <==> DateLt(e, s)
    ensures !DateLt(e, s) ==>
      && |DayRange(s, e)| == DayNumber(e) - DayNumber(s) + 1
      && DayRange(s, e)[0] == CategoryLabel(s)
      && DayRange(s, e)[|DayRange(s, e)| - 1] == CategoryLabel(e)
  {
    DayNumberOrder(e, s);
    if !DateLt(e, s) {
      var r := DayRange(s, e);
      DayRangeEntry(s, e, 0);
      DayRangeEntry(s, e, |r| - 1);
      FromDayNumberOfDayNumber(s);
      FromDayNumberOfDayNumber(e);
    }
  }

  /** Consecutive categories are consecutive calendar days. */
  lemma DayRangeConsecutive(s: Date, e: Date, k: nat)
    requires Supported(s) && Supported(e) && k + 1 < |DayRange(s, e)|
    ensures ParseDate(DayRange(s, e)[k]).Some? && ParseDate(DayRange(s, e)[k + 1]).Some?
    ensures ParseDate(DayRange(s, e)[k + 1]).value == NextDay(ParseDate(DayRange(s, e)[k]).value)
  {
    ParseDayRange(s, e, k);
    ParseDayRange(s, e, k + 1);
    FromDayNumberSucc(DayNumber(s) + k);
  }

  /** Each category parses back to its day. */
  lemma ParseDayRange(s: Date, e: Date, k: nat)
    requires Supported(s) && Supported(e) && k < |DayRange(s, e)|
    ensures ParseDate(DayRange(s, e)[k]) == Some(FromDayNumber(DayNumber(s) + k))
  {
    DayRangeEntry(s, e, k);
    ParseCategoryLabel(FromDayNumber(DayNumber(s) + k));
  }

  /** Every category, the last one included, is a well-formed `yyyy-MM-dd`
      label: ten characters, dashes at 4 and 7, digits elsewhere. */
  lemma DayRangeShaped(s: Date, e: Date, k: nat)
    requires Supported(s) && Supported(e) && k < |DayRange(s, e)|
    ensures var l := DayRange(s, e)[k];
      && |l| == 10 && l[4] == '-' && l[7] == '-'
      && forall p :: 0 <= p < 10 && p != 4 && p != 7 ==> IsDigit(l[p])
  {
    DayRangeEntry(s, e, k);
    CategoryLabelShape(FromDayNumber(DayNumber(s) + k));
  }

  /** Categories are strictly increasing as strings, so none repeats, and each
      is a well-formed `yyyy-MM-dd` label. */
  lemma DayRangeSorted(s: Date, e: Date, i: nat, j: nat)
    requires Supported(s) && Supported(e) && i < j < |DayRange(s, e)|
    ensures StrLt(DayRange(s, e)[i], DayRange(s, e)[j])
    ensures |DayRange(s, e)[i]| == 10 && DayRange(s, e)[i][4] == '-' && DayRange(s, e)[i][7] == '-'
  {
    var di, dj := FromDayNumber(DayNumber(s) + i), FromDayNumber(DayNumber(s) + j);
    DayRangeEntry(s, e, i);
    DayRangeEntry(s, e, j);
    DayNumberOrder(di, dj);
    CategoryLabelOrder(di, dj);
    CategoryLabelShape(di);
  }
}
