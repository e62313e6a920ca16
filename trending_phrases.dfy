/** The trending-phrases table: a case-insensitive phrase filter, a sort by
    month, source and rank, a grouping of the rows by month and then by source,
    and the table body rendered from that grouping. */
module TrendingPhrases {
  import opened Wrappers
  import opened Seqs
  import opened Text
  import opened OrderedMaps
  import opened Sorting

  /** One ranked phrase of one source in one month (`dateGroup` is 1..12). */
  datatype Row = Row(source: string, phrase: string, year: int, dateGroup: int, freq: int, rnk: int)

  /** English month names, with an empty entry at index 0. */
  const Months: seq<string> := ["", "January", "February", "March", "April", "May", "June",
    "July", "August", "September", "October", "November", "December"]

  /** The month heading: the English name for 1..12, `Month n` for anything else
      (0 included, whose table entry is empty). */
  function MonthName(n: int): (name: string)
    ensures 1 <= n <= 12 ==> name == Months[n] && name != []
    ensures !(1 <= n <= 12) ==> name == "Month " + IntToString(n)
  {
    if 0 <= n < |Months| && Months[n] != "" then Months[n] else "Month " + IntToString(n)
  }

  /** Distinct month numbers get distinct headings. */
  lemma MonthNameInjective(m: int, n: int)
    requires MonthName(m) == MonthName(n)
    ensures m == n
  {
    if 1 <= m <= 12 && 1 <= n <= 12 {
    } else if 1 <= m <= 12 {
      NamedNotNumbered(m, n);
      assert false;
    } else if 1 <= n <= 12 {
      NamedNotNumbered(n, m);
      assert false;
    } else {
      PrefixCancel("Month ", IntToString(m), IntToString(n));
      IntToStringInjective(m, n);
    }
  }

  /** No English month name begins with "Mo", so none reads `Month n`. */
  lemma NamedNotNumbered(m: int, n: int)
    requires 1 <= m <= 12
    ensures Months[m] != "Month " + IntToString(n)
  {
    var s := "Month " + IntToString(n);
    assert s[0] == 'M' && s[1] == 'o';
    assert Months[m][0] != 'M' || Months[m][1] != 'o';
  }

  // ---------------------------------------------------------------------------
  // Filtering and sorting

  /** The search needle: the query trimmed and lower-cased. */
  function Needle(q: string): string {
    ToLower(Trim(q))
  }

  /** A row survives the filter when the needle is empty or occurs in its
      lower-cased phrase. */
  predicate Keeps(needle: string, r: Row) {
    needle == [] || Includes(ToLower(r.phrase), needle)
  }

  /** The rows the filter keeps, in their original order. */
  function Matching(data: seq<Row>, needle: string): (r: seq<Row>)
    ensures |r| <= |data|
    ensures forall x :: multiset(r)[x] == if Keeps(needle, x) then multiset(data)[x] else 0
    ensures needle == [] ==> r == data
  {
    if data == [] then []
    else
      var init := Matching(data[..|data| - 1], needle);
      var last := data[|data| - 1];
      assert data == data[..|data| - 1] + [last];
      if Keeps(needle, last) then init + [last] else init
  }

  /** A query made only of whitespace filters nothing out. */
  lemma BlankQueryKeepsAll(data: seq<Row>, q: string)
    requires AllWhitespace(q)
    ensures Matching(data, Needle(q)) == data
  {
    assert Trim(q) == [];
  }

  /** A row is kept exactly when it is in the data and its lower-cased phrase
      contains the needle (or the needle is empty). */
  lemma MatchingExact(data: seq<Row>, q: string, x: Row)
    ensures x in Matching(data, Needle(q)) <==>
      x in data && (Needle(q) == [] || Includes(ToLower(x.phrase), Needle(q)))
  {
    var m := Matching(data, Needle(q));
    assert x in m <==> x in multiset(m);
    assert x in data <==> x in multiset(data);
  }

  /** The table's order: month ascending, then source, then rank ascending, then
      frequency descending (`le` is the comparator's "not greater than zero"). */
  predicate RowLe(a: Row, b: Row) {
    if a.dateGroup != b.dateGroup then a.dateGroup - b.dateGroup < 0
    else if a.source != b.source then StrLt(a.source, b.source)
    else if a.rnk != b.rnk then a.rnk - b.rnk < 0
    else b.freq - a.freq <= 0
  }

  lemma RowLeTotalPreorder()
    ensures TotalPreorder(RowLe)
  {
    forall a: Row, b: Row ensures RowLe(a, b) || RowLe(b, a) {
      StrLtTrichotomy(a.source, b.source);
    }
    forall a: Row, b: Row, c: Row | RowLe(a, b) && RowLe(b, c) ensures RowLe(a, c) {
      StrLtTrichotomy(a.source, b.source);
      StrLtTrichotomy(b.source, c.source);
      StrLtTrichotomy(a.source, c.source);
      if StrLt(a.source, b.source) && StrLt(b.source, c.source) {
        StrLtTransitive(a.source, b.source, c.source);
      }
    }
  }

  /** Two rows tie under the table order exactly when they agree on month,
      source, rank and frequency. */
  lemma RowTie(a: Row, b: Row)
    ensures RowLe(a, b) && RowLe(b, a) <==>
      a.dateGroup == b.dateGroup && a.source == b.source && a.rnk == b.rnk && a.freq == b.freq
  {
    if a.source != b.source {
      StrLtTrichotomy(a.source, b.source);
    }
  }

  /** The rows the table shows: the matching rows, sorted into table order by
      a stable sort, so tied rows keep their order in the data. */
  method Filtered(data: seq<Row>, q: string) returns (r: seq<Row>)
    ensures SortedBy(RowLe, r)
    ensures multiset(r) == multiset(Matching(data, Needle(q)))
    ensures SameTies(r, Matching(data, Needle(q)), RowLe)
  {
    var needle := ToLower(Trim(q));
    var kept := if needle != [] then Matching(data, needle) else data;
    RowLeTotalPreorder();
    r := SortedCopy(kept, RowLe);
  }

  /** What the sort order means for any two positions of a sorted list. */
  lemma FilteredOrder(r: seq<Row>, i: nat, j: nat)
    requires SortedBy(RowLe, r) && i < j < |r|
    ensures r[i].dateGroup <= r[j].dateGroup
    ensures r[i].dateGroup == r[j].dateGroup ==> r[i].source == r[j].source || StrLt(r[i].source, r[j].source)
    ensures r[i].dateGroup == r[j].dateGroup && r[i].source == r[j].source ==> r[i].rnk <= r[j].rnk
    ensures r[i].dateGroup == r[j].dateGroup && r[i].source == r[j].source && r[i].rnk == r[j].rnk ==>
      r[i].freq >= r[j].freq
  {
    assert RowLe(r[i], r[j]);
  }

  // ---------------------------------------------------------------------------
  // Grouping by month and source

  function GroupOf(r: Row): int { r.dateGroup }

  function SourceOf(r: Row): string { r.source }

  /** The rows of month `m`, in their original order. */
  function MonthRows(rows: seq<Row>, m: int): seq<Row> {
    KeepKey(rows, GroupOf, m)
  }

  /** The rows of month `m` and source `src`, in their original order. */
  function Bucket(rows: seq<Row>, m: int, src: string): seq<Row> {
    KeepKey(MonthRows(rows, m), SourceOf, src)
  }

  /** Month -> source -> rows, each level in order of first insertion. */
  type Groups = OMap<int, OMap<string, seq<Row>>>

  /** After the collecting pass over `rows`: the sources of month `m` in order of
      first appearance, each holding its rows in their original order. */
  ghost predicate CollectedMonth(rows: seq<Row>, m: int, bySource: OMap<string, seq<Row>>) {
    && bySource.Valid()
    && bySource.keys == Distinct(Keys(MonthRows(rows, m), SourceOf))
    && forall src :: src in bySource.entries ==> bySource.entries[src] == Bucket(rows, m, src)
  }

  /** After the collecting pass over `rows`: the months in order of first appearance. */
  ghost predicate Collected(rows: seq<Row>, byMonth: Groups) {
    && byMonth.Valid()
    && byMonth.keys == Distinct(Keys(rows, GroupOf))
    && forall m :: m in byMonth.entries ==> CollectedMonth(rows, m, byMonth.entries[m])
  }

  /** Rank ascending, then frequency descending. */
  predicate BucketLe(a: Row, b: Row) {
    if a.rnk - b.rnk != 0 then a.rnk - b.rnk < 0 else b.freq - a.freq <= 0
  }

  lemma BucketLeTotalPreorder()
    ensures TotalPreorder(BucketLe)
  {
  }

  /** Two rows tie within a bucket exactly when rank and frequency agree. */
  lemma BucketTie(a: Row, b: Row)
    ensures BucketLe(a, b) && BucketLe(b, a) <==> a.rnk == b.rnk && a.freq == b.freq
  {
  }

  /** The finished grouping of month `m`: as collected, each bucket now sorted
      by rank ascending and frequency descending. */
  ghost predicate GroupedMonth(rows: seq<Row>, m: int, bySource: OMap<string, seq<Row>>) {
    && bySource.Valid()
    && bySource.keys == Distinct(Keys(MonthRows(rows, m), SourceOf))
    && forall src :: src in bySource.entries ==>
         && SortedBy(BucketLe, bySource.entries[src])
         && multiset(bySource.entries[src]) == multiset(Bucket(rows, m, src))
         && SameTies(bySource.entries[src], Bucket(rows, m, src), BucketLe)
  }

  /** The finished grouping of all `rows`. */
  ghost predicate Grouped(rows: seq<Row>, byMonth: Groups) {
    && byMonth.Valid()
    && byMonth.keys == Distinct(Keys(rows, GroupOf))
    && forall m :: m in byMonth.entries ==> GroupedMonth(rows, m, byMonth.entries[m])
  }

  lemma NoRowsNoSources(rows: seq<Row>, m: int)
    requires m !in Keys(rows, GroupOf)
    ensures CollectedMonth(rows, m, Empty())
  {
    KeepKeyNone(rows, GroupOf, m);
  }

  /** The month of the appended row gains that row in its source's bucket. */
  lemma CollectedMonthSnoc(seen: seq<Row>, r: Row, bySource: OMap<string, seq<Row>>)
    requires CollectedMonth(seen, r.dateGroup, bySource)
    ensures var withSource := if r.source in bySource.entries then bySource else bySource.Put(r.source, []);
      CollectedMonth(seen + [r], r.dateGroup,
        withSource.Put(r.source, withSource.entries[r.source] + [r]))
  {
    var m := r.dateGroup;
    var withSource := if r.source in bySource.entries then bySource else bySource.Put(r.source, []);
    var after := withSource.Put(r.source, withSource.entries[r.source] + [r]);
    var rows0 := MonthRows(seen, m);
    KeepKeySnoc(seen, r, GroupOf, m);
    assert MonthRows(seen + [r], m) == rows0 + [r];
    KeysSnoc(rows0, r, SourceOf);
    DistinctSnoc(Keys(rows0, SourceOf), r.source);
    if r.source !in bySource.entries {
      KeepKeyNone(rows0, SourceOf, r.source);
    }
    forall src | src in after.entries
      ensures after.entries[src] == Bucket(seen + [r], m, src)
    {
      KeepKeySnoc(rows0, r, SourceOf, src);
    }
  }

  /** A month other than the appended row's is unchanged. */
  lemma CollectedMonthOther(seen: seq<Row>, r: Row, m: int, bySource: OMap<string, seq<Row>>)
    requires m != r.dateGroup && CollectedMonth(seen, m, bySource)
    ensures CollectedMonth(seen + [r], m, bySource)
  {
    KeepKeySnoc(seen, r, GroupOf, m);
  }

  lemma CollectedSnoc(seen: seq<Row>, r: Row, byMonth: Groups, bySource: OMap<string, seq<Row>>)
    requires Collected(seen, byMonth)
    requires CollectedMonth(seen + [r], r.dateGroup, bySource)
    ensures Collected(seen + [r], byMonth.Put(r.dateGroup, bySource))
  {
    MonthKeysSnoc(seen, r, byMonth, bySource);
    MonthEntriesSnoc(seen, r, byMonth, bySource);
  }

  lemma MonthKeysSnoc(seen: seq<Row>, r: Row, byMonth: Groups, bySource: OMap<string, seq<Row>>)
    requires byMonth.Valid() && byMonth.keys == Distinct(Keys(seen, GroupOf))
    ensures byMonth.Put(r.dateGroup, bySource).keys == Distinct(Keys(seen + [r], GroupOf))
  {
    KeysSnoc(seen, r, GroupOf);
    DistinctSnoc(Keys(seen, GroupOf), r.dateGroup);
  }

  lemma MonthEntriesSnoc(seen: seq<Row>, r: Row, byMonth: Groups, bySource: OMap<string, seq<Row>>)
    requires Collected(seen, byMonth)
    requires CollectedMonth(seen + [r], r.dateGroup, bySource)
    ensures forall m :: m in byMonth.Put(r.dateGroup, bySource).entries ==>
      CollectedMonth(seen + [r], m, byMonth.Put(r.dateGroup, bySource).entries[m])
  {
    var after := byMonth.Put(r.dateGroup, bySource);
    forall m | m in after.entries
      ensures CollectedMonth(seen + [r], m, after.entries[m])
    {
      if m != r.dateGroup {
        CollectedMonthOther(seen, r, m, byMonth.entries[m]);
      }
    }
  }

  /** `sorted` has the sources of `bySource`, in the same order, each bucket
      a stably sorted permutation of the one it replaces. */
  ghost predicate SortedSources(bySource: OMap<string, seq<Row>>, sorted: OMap<string, seq<Row>>) {
    && sorted.Valid() && sorted.keys == bySource.keys
    && forall src :: src in sorted.entries ==>
         && src in bySource.entries
         && SortedBy(BucketLe, sorted.entries[src])
         && multiset(sorted.entries[src]) == multiset(bySource.entries[src])
         && SameTies(sorted.entries[src], bySource.entries[src], BucketLe)
  }

  /** Sorts every bucket of one month, keeping the sources and their order. */
  method SortBuckets(bySource: OMap<string, seq<Row>>) returns (sorted: OMap<string, seq<Row>>)
    requires bySource.Valid()
    ensures SortedSources(bySource, sorted)
  {
    BucketLeTotalPreorder();
    sorted := bySource;
    var j := 0;
    while j < |sorted.keys|
      invariant 0 <= j <= |sorted.keys|
      invariant sorted.Valid() && sorted.keys == bySource.keys
      invariant forall src :: src in sorted.entries ==>
        && multiset(sorted.entries[src]) == multiset(bySource.entries[src])
        && SameTies(sorted.entries[src], bySource.entries[src], BucketLe)
        && (src in sorted.keys[..j] ==> SortedBy(BucketLe, sorted.entries[src]))
    {
      var src := sorted.keys[j];
      var arr := SortedCopy(sorted.entries[src], BucketLe);
      sorted := sorted.Put(src, arr);
      j := j + 1;
    }
    assert sorted.keys[..j] == sorted.keys;
  }

  /** The sorting pass: every bucket of every month sorted; the months, their
      sources and the order of both unchanged. */
  method SortMonths(collected: Groups) returns (byMonth: Groups)
    requires collected.Valid() && forall m :: m in collected.entries ==> collected.entries[m].Valid()
    ensures byMonth.Valid() && byMonth.keys == collected.keys
    ensures forall m :: m in byMonth.entries ==> SortedSources(collected.entries[m], byMonth.entries[m])
  {
    byMonth := collected;
    var k := 0;
    while k < |byMonth.keys|
      invariant 0 <= k <= |byMonth.keys|
      invariant byMonth.Valid() && byMonth.keys == collected.keys
      invariant forall m :: m in byMonth.entries && m in byMonth.keys[..k] ==>
        SortedSources(collected.entries[m], byMonth.entries[m])
      invariant forall m :: m in byMonth.entries && m !in byMonth.keys[..k] ==>
        byMonth.entries[m] == collected.entries[m]
    {
      var m := byMonth.keys[k];
      var sorted := SortBuckets(byMonth.entries[m]);
      TakeSnoc(byMonth.keys, k);
      byMonth := byMonth.Put(m, sorted);
      k := k + 1;
    }
    assert byMonth.keys[..k] == byMonth.keys;
  }

  /** One step of the collecting pass: file `r` under its month and source,
      creating either level when it is missing. */
  method AddRow(ghost rows: seq<Row>, ghost i: nat, byMonth: Groups, r: Row) returns (after: Groups)
    requires i < |rows| && r == rows[i] && Collected(rows[..i], byMonth)
    ensures Collected(rows[..i + 1], after)
  {
    ghost var seen := rows[..i];
    assert rows[..i + 1] == seen + [r];
    after := byMonth;
    if r.dateGroup !in after.entries {
      NoRowsNoSources(seen, r.dateGroup);
      after := after.Put(r.dateGroup, Empty());
    }
    var bySource := after.entries[r.dateGroup];
    CollectedMonthSnoc(seen, r, bySource);
    if r.source !in bySource.entries {
      bySource := bySource.Put(r.source, []);
    }
    bySource := bySource.Put(r.source, bySource.entries[r.source] + [r]);
    CollectedSnoc(seen, r, byMonth, bySource);
    if r.dateGroup !in byMonth.entries {
      byMonth.PutPut(r.dateGroup, Empty(), bySource);
    }
    after := after.Put(r.dateGroup, bySource);
  }

  /** Sorting the buckets of a collected month finishes that month. */
  lemma SortedMonth(rows: seq<Row>, m: int, bySource: OMap<string, seq<Row>>, sorted: OMap<string, seq<Row>>)
    requires CollectedMonth(rows, m, bySource) && SortedSources(bySource, sorted)
    ensures GroupedMonth(rows, m, sorted)
  {
  }

  lemma SortedGroups(rows: seq<Row>, collected: Groups, byMonth: Groups)
    requires Collected(rows, collected)
    requires byMonth.Valid() && byMonth.keys == collected.keys
    requires forall m :: m in byMonth.entries ==> SortedSources(collected.entries[m], byMonth.entries[m])
    ensures Grouped(rows, byMonth)
  {
    forall m | m in byMonth.entries
      ensures GroupedMonth(rows, m, byMonth.entries[m])
    {
      SortedMonth(rows, m, collected.entries[m], byMonth.entries[m]);
    }
  }

  /** `groupByMonthAndSource`: collect the rows by month and then by source,
      each in order of first appearance, then sort every bucket by rank. */
  method GroupByMonthAndSource(rows: seq<Row>) returns (byMonth: Groups)
    ensures Grouped(rows, byMonth)
  {
    byMonth := Empty();
    for i := 0 to |rows|
      invariant Collected(rows[..i], byMonth)
    {
      byMonth := AddRow(rows, i, byMonth, rows[i]);
    }
    assert rows[..|rows|] == rows;
    ghost var collected := byMonth;
    byMonth := SortMonths(byMonth);
    SortedGroups(rows, collected, byMonth);
  }

  // ---------------------------------------------------------------------------
  // What the grouping holds

  /** Every bucket holds exactly the rows of its month and source, each as
      often as it occurs in the input. */
  lemma GroupedBucket(rows: seq<Row>, byMonth: Groups, m: int, src: string, y: Row)
    requires Grouped(rows, byMonth) && m in byMonth.entries && src in byMonth.entries[m].entries
    ensures multiset(byMonth.entries[m].entries[src])[y] ==
      if y.dateGroup == m && y.source == src then multiset(rows)[y] else 0
  {
    assert GroupedMonth(rows, m, byMonth.entries[m]);
  }

  /** Every input row has a bucket: its month and its source are both present. */
  lemma GroupedCovers(rows: seq<Row>, byMonth: Groups, x: Row)
    requires Grouped(rows, byMonth) && x in rows
    ensures x.dateGroup in byMonth.entries && x.source in byMonth.entries[x.dateGroup].entries
  {
    var i :| 0 <= i < |rows| && rows[i] == x;
    assert Keys(rows, GroupOf)[i] == x.dateGroup;
    var ms := MonthRows(rows, x.dateGroup);
    assert x in ms;
    var j :| 0 <= j < |ms| && ms[j] == x;
    assert Keys(ms, SourceOf)[j] == x.source;
    assert GroupedMonth(rows, x.dateGroup, byMonth.entries[x.dateGroup]);
  }

  /** A source listed under a month has at least one row. */
  lemma GroupedNonEmpty(rows: seq<Row>, byMonth: Groups, m: int, src: string)
    requires Grouped(rows, byMonth) && m in byMonth.entries && src in byMonth.entries[m].entries
    ensures byMonth.entries[m].entries[src] != []
  {
    var bySource := byMonth.entries[m];
    assert GroupedMonth(rows, m, bySource);
    var y := SourceRow(rows, m, src);
    GroupedBucket(rows, byMonth, m, src, y);
    assert y in multiset(bySource.entries[src]);
  }

  /** A row behind a source collected under a month. */
  lemma SourceRow(rows: seq<Row>, m: int, src: string) returns (y: Row)
    requires src in Distinct(Keys(MonthRows(rows, m), SourceOf))
    ensures y in rows && y.dateGroup == m && y.source == src
  {
    var ms := MonthRows(rows, m);
    assert src in Keys(ms, SourceOf);
    InKeys(ms, SourceOf, src);
    var j :| 0 <= j < |ms| && SourceOf(ms[j]) == src;
    y := ms[j];
    assert y in ms;
  }

  /** The number of rows held under one month. */
  function BucketSize(bySource: OMap<string, seq<Row>>): string -> nat {
    src => if src in bySource.entries then |bySource.entries[src]| else 0
  }

  /** The number of rows held under each month. */
  function MonthSize(byMonth: Groups): int -> nat {
    m => if m in byMonth.entries then SumOf(byMonth.entries[m].keys, BucketSize(byMonth.entries[m])) else 0
  }

  lemma BucketSizes(rows: seq<Row>, m: int, bySource: OMap<string, seq<Row>>)
    requires GroupedMonth(rows, m, bySource)
    ensures forall src :: src in bySource.keys ==>
      BucketSize(bySource)(src) == |KeepKey(MonthRows(rows, m), SourceOf, src)|
  {
    forall src | src in bySource.keys
      ensures BucketSize(bySource)(src) == |KeepKey(MonthRows(rows, m), SourceOf, src)|
    {
      var b := bySource.entries[src];
      assert |b| == |multiset(b)| == |multiset(Bucket(rows, m, src))|;
    }
  }

  /** The sizes of a month's buckets add up to the number of that month's rows. */
  lemma GroupedMonthSize(rows: seq<Row>, byMonth: Groups, m: int)
    requires Grouped(rows, byMonth) && m in byMonth.entries
    ensures MonthSize(byMonth)(m) == |MonthRows(rows, m)|
  {
    var bySource := byMonth.entries[m];
    assert GroupedMonth(rows, m, bySource);
    BucketSizes(rows, m, bySource);
    SumOfGroupSizes(MonthRows(rows, m), SourceOf, bySource.keys, BucketSize(bySource));
    KeysCovered(MonthRows(rows, m), SourceOf, bySource.keys);
    PartitionSize(MonthRows(rows, m), SourceOf, bySource.keys);
  }

  /** Grouping loses and duplicates no row: the buckets hold `|rows|` rows in all. */
  lemma GroupedTotal(rows: seq<Row>, byMonth: Groups)
    requires Grouped(rows, byMonth)
    ensures SumOf(byMonth.keys, MonthSize(byMonth)) == |rows|
  {
    forall m | m in byMonth.keys
      ensures MonthSize(byMonth)(m) == |KeepKey(rows, GroupOf, m)|
    {
      GroupedMonthSize(rows, byMonth, m);
    }
    SumOfGroupSizes(rows, GroupOf, byMonth.keys, MonthSize(byMonth));
    KeysCovered(rows, GroupOf, byMonth.keys);
    PartitionSize(rows, GroupOf, byMonth.keys);
  }

  // ---------------------------------------------------------------------------
  // Rendering

  /** Months compare numerically (`a - b` as a comparator). */
  predicate MonthLe(a: int, b: int) {
    a - b <= 0
  }

  /** Sources compare with `localeCompare`: "not after". */
  predicate SourceLe(a: string, b: string) {
    !StrLt(b, a)
  }

  lemma MonthLeTotalPreorder()
    ensures TotalPreorder(MonthLe)
  {
  }

  lemma SourceLeTotalPreorder()
    ensures TotalPreorder(SourceLe)
  {
    forall a: string, b: string ensures SourceLe(a, b) || SourceLe(b, a) {
      StrLtTrichotomy(a, b);
    }
    forall a: string, b: string, c: string | SourceLe(a, b) && SourceLe(b, c) ensures SourceLe(a, c) {
      StrLtTrichotomy(a, b);
      StrLtTrichotomy(b, c);
      StrLtTrichotomy(a, c);
      if StrLt(a, b) && StrLt(b, c) {
        StrLtTransitive(a, b, c);
      }
    }
  }

  /** The months in the order they are rendered. */
  function MonthOrder(byMonth: Groups): seq<int> {
    MonthLeTotalPreorder();
    SortBy(byMonth.keys, MonthLe)
  }

  /** The sources of one month in the order they are rendered. */
  function SourceOrder(bySource: OMap<string, seq<Row>>): seq<string> {
    SourceLeTotalPreorder();
    SortBy(bySource.keys, SourceLe)
  }

  /** The rendered months ascend strictly. */
  lemma MonthsAscending(byMonth: Groups)
    requires byMonth.Valid()
    ensures forall i, j :: 0 <= i < j < |MonthOrder(byMonth)| ==> MonthOrder(byMonth)[i] < MonthOrder(byMonth)[j]
  {
    var ms := MonthOrder(byMonth);
    NoDupsPermutation(byMonth.keys, ms);
    forall i, j | 0 <= i < j < |ms| ensures ms[i] < ms[j] {
      DistinctSortedAscends(ms, i, j);
    }
  }

  lemma DistinctSortedAscends(ms: seq<int>, i: nat, j: nat)
    requires SortedBy(MonthLe, ms) && NoDups(ms) && i < j < |ms|
    ensures ms[i] < ms[j]
  {
    assert MonthLe(ms[i], ms[j]);
  }

  /** The rendered months are exactly the months of the rows. */
  lemma MonthsPresent(rows: seq<Row>, byMonth: Groups)
    requires Grouped(rows, byMonth)
    ensures forall m :: m in MonthOrder(byMonth) <==> exists i :: 0 <= i < |rows| && rows[i].dateGroup == m
  {
    var ms := MonthOrder(byMonth);
    forall m ensures m in ms <==> exists i :: 0 <= i < |rows| && rows[i].dateGroup == m {
      assert m in ms <==> m in multiset(ms);
      assert m in byMonth.keys <==> m in multiset(byMonth.keys);
      InKeys(rows, GroupOf, m);
    }
  }

  /** The rendered sources of a month ascend strictly, and are exactly the
      sources with a row in that month. */
  lemma SourcesAscending(rows: seq<Row>, byMonth: Groups, m: int)
    requires Grouped(rows, byMonth) && m in byMonth.entries
    ensures var srcs := SourceOrder(byMonth.entries[m]);
      forall i, j :: 0 <= i < j < |srcs| ==> StrLt(srcs[i], srcs[j])
    ensures forall src :: src in SourceOrder(byMonth.entries[m]) <==>
      exists i :: 0 <= i < |rows| && rows[i].dateGroup == m && rows[i].source == src
  {
    assert GroupedMonth(rows, m, byMonth.entries[m]);
    SourceOrderAscending(byMonth.entries[m]);
    SourceOrderMembers(rows, m, byMonth.entries[m]);
  }

  lemma SourceOrderAscending(bySource: OMap<string, seq<Row>>)
    requires bySource.Valid()
    ensures var srcs := SourceOrder(bySource);
      forall i, j :: 0 <= i < j < |srcs| ==> StrLt(srcs[i], srcs[j])
  {
    var srcs := SourceOrder(bySource);
    NoDupsPermutation(bySource.keys, srcs);
    forall i, j | 0 <= i < j < |srcs| ensures StrLt(srcs[i], srcs[j]) {
      assert SourceLe(srcs[i], srcs[j]);
      StrLtTrichotomy(srcs[i], srcs[j]);
    }
  }

  lemma SourceOrderMembers(rows: seq<Row>, m: int, bySource: OMap<string, seq<Row>>)
    requires bySource.keys == Distinct(Keys(MonthRows(rows, m), SourceOf))
    ensures forall src :: src in SourceOrder(bySource) <==>
      exists i :: 0 <= i < |rows| && rows[i].dateGroup == m && rows[i].source == src
  {
    var srcs := SourceOrder(bySource);
    forall src ensures src in srcs <==> exists i :: 0 <= i < |rows| && rows[i].dateGroup == m && rows[i].source == src {
      assert src in srcs <==> src in multiset(srcs);
      assert src in bySource.keys <==> src in multiset(bySource.keys);
      InKeys(MonthRows(rows, m), SourceOf, src);
      MonthRowsMembers(rows, m, src);
    }
  }

  lemma MonthRowsMembers(rows: seq<Row>, m: int, src: string)
    ensures (exists j :: 0 <= j < |MonthRows(rows, m)| && MonthRows(rows, m)[j].source == src) <==>
      exists i :: 0 <= i < |rows| && rows[i].dateGroup == m && rows[i].source == src
  {
    var ms := MonthRows(rows, m);
    if j :| 0 <= j < |ms| && ms[j].source == src {
      assert ms[j] in rows;
      var i :| 0 <= i < |rows| && rows[i] == ms[j];
    }
    if i :| 0 <= i < |rows| && rows[i].dateGroup == m && rows[i].source == src {
      assert rows[i] in ms;
    }
  }

  /** The source cell, present on the first row of a source's block only,
      spanning the whole block. */
  datatype SourceCell = SourceCell(name: string, rowSpan: nat)

  /** One row of the table body. */
  datatype Line =
    | NoRows(message: string)
    | MonthHeading(title: string)
    | Entry(sourceCell: Option<SourceCell>, rank: string, phrase: string, freq: int)

  const NoRowsMessage: string := "No rows match your search."

  /** The year shown in a month heading: that of the first row of the source
      inserted first, when there is one. */
  function HeadingYear(bySource: OMap<string, seq<Row>>): Option<int> {
    if bySource.keys != [] && bySource.keys[0] in bySource.entries && bySource.entries[bySource.keys[0]] != []
    then Some(bySource.entries[bySource.keys[0]][0].year)
    else None
  }

  /** The heading text: month name, a space, then the year or nothing. */
  function MonthTitle(m: int, bySource: OMap<string, seq<Row>>): string {
    MonthName(m) + " " + match HeadingYear(bySource) case Some(y) => IntToString(y) case None => ""
  }

  /** One source's rows; only the first carries the source cell. */
  function SourceBlock(src: string, rows: seq<Row>): (lines: seq<Line>)
    ensures |lines| == |rows|
  {
    seq(|rows|, k requires 0 <= k < |rows| =>
      Entry(if k == 0 then Some(SourceCell(src, |rows|)) else None,
            "#" + IntToString(rows[k].rnk), rows[k].phrase, rows[k].freq))
  }

  function SourceBlocks(bySource: OMap<string, seq<Row>>, srcs: seq<string>): seq<Line>
    requires forall src :: src in srcs ==> src in bySource.entries
  {
    if srcs == [] then []
    else SourceBlock(srcs[0], bySource.entries[srcs[0]]) + SourceBlocks(bySource, srcs[1..])
  }

  /** A month: its heading, then its sources in rendering order. */
  function MonthBlock(m: int, bySource: OMap<string, seq<Row>>): seq<Line>
    requires bySource.Valid()
  {
    var srcs := SourceOrder(bySource);
    assert forall src :: src in srcs ==> src in bySource.entries by {
      forall src | src in srcs ensures src in bySource.entries {
        assert src in multiset(srcs);
      }
    }
    [MonthHeading(MonthTitle(m, bySource))] + SourceBlocks(bySource, srcs)
  }

  ghost predicate Renderable(byMonth: Groups) {
    byMonth.Valid() && forall m :: m in byMonth.entries ==> byMonth.entries[m].Valid()
  }

  function MonthBlocks(byMonth: Groups, ms: seq<int>): seq<Line>
    requires Renderable(byMonth) && forall m :: m in ms ==> m in byMonth.entries
  {
    if ms == [] then []
    else MonthBlock(ms[0], byMonth.entries[ms[0]]) + MonthBlocks(byMonth, ms[1..])
  }

  /** The table body: the "no rows" line, or every month in ascending order. */
  function TableBody(byMonth: Groups): seq<Line>
    requires Renderable(byMonth)
  {
    var ms := MonthOrder(byMonth);
    if ms == [] then [NoRows(NoRowsMessage)]
    else
      assert forall m :: m in ms ==> m in byMonth.entries by {
        forall m | m in ms ensures m in byMonth.entries {
          assert m in multiset(ms);
        }
      }
      MonthBlocks(byMonth, ms)
  }

  /** The number of data rows among `lines`. */
  function EntryCount(lines: seq<Line>): nat {
    if lines == [] then 0 else (if lines[0].Entry? then 1 else 0) + EntryCount(lines[1..])
  }

  lemma {:induction false} EntryCountAppend(a: seq<Line>, b: seq<Line>)
    ensures EntryCount(a + b) == EntryCount(a) + EntryCount(b)
  {
    if a == [] {
      assert a + b == b;
    } else {
      assert (a + b)[1..] == a[1..] + b;
      EntryCountAppend(a[1..], b);
    }
  }

  lemma {:induction false} AllEntries(lines: seq<Line>)
    requires forall k :: 0 <= k < |lines| ==> lines[k].Entry?
    ensures EntryCount(lines) == |lines|
  {
    if lines != [] {
      AllEntries(lines[1..]);
    }
  }

  /** A source's block shows each of its rows once, in order, with the source
      cell on the first row spanning the whole block. */
  lemma SourceBlockRows(src: string, rows: seq<Row>)
    ensures EntryCount(SourceBlock(src, rows)) == |rows|
    ensures forall k :: 0 <= k < |rows| ==>
      && SourceBlock(src, rows)[k].Entry?
      && SourceBlock(src, rows)[k].phrase == rows[k].phrase
      && SourceBlock(src, rows)[k].freq == rows[k].freq
    ensures rows != [] ==> SourceBlock(src, rows)[0].sourceCell == Some(SourceCell(src, |rows|))
    ensures forall k :: 0 < k < |rows| ==> SourceBlock(src, rows)[k].sourceCell.None?
  {
    AllEntries(SourceBlock(src, rows));
  }

  lemma {:induction false} SourceBlocksCount(bySource: OMap<string, seq<Row>>, srcs: seq<string>)
    requires forall src :: src in srcs ==> src in bySource.entries
    ensures EntryCount(SourceBlocks(bySource, srcs)) == SumOf(srcs, BucketSize(bySource))
  {
    if srcs != [] {
      SourceBlockRows(srcs[0], bySource.entries[srcs[0]]);
      EntryCountAppend(SourceBlock(srcs[0], bySource.entries[srcs[0]]), SourceBlocks(bySource, srcs[1..]));
      SourceBlocksCount(bySource, srcs[1..]);
    }
  }

  lemma MonthBlockCount(m: int, bySource: OMap<string, seq<Row>>)
    requires bySource.Valid()
    ensures EntryCount(MonthBlock(m, bySource)) == SumOf(bySource.keys, BucketSize(bySource))
  {
    var srcs := SourceOrder(bySource);
    assert forall src :: src in srcs ==> src in bySource.entries by {
      forall src | src in srcs ensures src in bySource.entries {
        assert src in multiset(srcs);
      }
    }
    var head := [MonthHeading(MonthTitle(m, bySource))];
    assert EntryCount(head) == 0 by {
      assert head[1..] == [];
    }
    EntryCountAppend(head, SourceBlocks(bySource, srcs));
    SourceBlocksCount(bySource, srcs);
    SumOfPermutation(srcs, bySource.keys, BucketSize(bySource));
  }

  lemma {:induction false} MonthBlocksCount(byMonth: Groups, ms: seq<int>)
    requires Renderable(byMonth) && forall m :: m in ms ==> m in byMonth.entries
    ensures EntryCount(MonthBlocks(byMonth, ms)) == SumOf(ms, MonthSize(byMonth))
  {
    if ms != [] {
      MonthBlockCount(ms[0], byMonth.entries[ms[0]]);
      EntryCountAppend(MonthBlock(ms[0], byMonth.entries[ms[0]]), MonthBlocks(byMonth, ms[1..]));
      MonthBlocksCount(byMonth, ms[1..]);
    }
  }

  lemma GroupedRenderable(rows: seq<Row>, byMonth: Groups)
    requires Grouped(rows, byMonth)
    ensures Renderable(byMonth)
  {
    forall m | m in byMonth.entries ensures byMonth.entries[m].Valid() {
      assert GroupedMonth(rows, m, byMonth.entries[m]);
    }
  }

  /** Every filtered row is rendered exactly once: the body has as many data
      rows as there are rows. */
  lemma TableBodyShowsEveryRow(rows: seq<Row>, byMonth: Groups)
    requires Grouped(rows, byMonth)
    ensures Renderable(byMonth)
    ensures EntryCount(TableBody(byMonth)) == |rows|
  {
    GroupedRenderable(rows, byMonth);
    GroupedTotal(rows, byMonth);
    var ms := MonthOrder(byMonth);
    SumOfPermutation(ms, byMonth.keys, MonthSize(byMonth));
    if ms == [] {
      assert [NoRows(NoRowsMessage)][1..] == [];
      assert SumOf(ms, MonthSize(byMonth)) == 0;
    } else {
      assert forall m :: m in ms ==> m in byMonth.entries by {
        forall m | m in ms ensures m in byMonth.entries {
          assert m in multiset(ms);
        }
      }
      MonthBlocksCount(byMonth, ms);
    }
  }

  /** The "no rows" message is shown exactly when there is no row. */
  lemma TableBodyNoRows(rows: seq<Row>, byMonth: Groups)
    requires Grouped(rows, byMonth)
    ensures Renderable(byMonth)
    ensures TableBody(byMonth) == [NoRows(NoRowsMessage)] <==> rows == []
  {
    GroupedRenderable(rows, byMonth);
    var ms := MonthOrder(byMonth);
    assert |ms| == |multiset(ms)| == |multiset(byMonth.keys)| == |byMonth.keys|;
    if rows == [] {
      assert Keys(rows, GroupOf) == [];
    } else {
      assert Keys(rows, GroupOf)[0] in byMonth.keys;
      assert forall m :: m in ms ==> m in byMonth.entries by {
        forall m | m in ms ensures m in byMonth.entries {
          assert m in multiset(ms);
        }
      }
      assert TableBody(byMonth)[0] == MonthBlock(ms[0], byMonth.entries[ms[0]])[0];
    }
  }
  /** The component end to end: filter and sort, group, render. The body shows
      one data line per matching row, and the "no rows" line exactly when no
      row matches the query. */
  method RenderTable(data: seq<Row>, q: string) returns (body: seq<Line>)
    ensures EntryCount(body) == |Matching(data, Needle(q))|
    ensures body == [NoRows(NoRowsMessage)] <==> Matching(data, Needle(q)) == []
  {
    var filtered := Filtered(data, q);
    var grouped := GroupByMonthAndSource(filtered);
    TableBodyShowsEveryRow(filtered, grouped);
    TableBodyNoRows(filtered, grouped);
    body := TableBody(grouped);
    assert |filtered| == |multiset(filtered)| == |Matching(data, Needle(q))|;
  }


  /** Every listed month has at least one source. */
  lemma GroupedMonthHasSource(rows: seq<Row>, byMonth: Groups, m: int)
    requires Grouped(rows, byMonth) && m in byMonth.entries
    ensures byMonth.entries[m].keys != []
  {
    var bySource := byMonth.entries[m];
    assert GroupedMonth(rows, m, bySource);
    assert m in Keys(rows, GroupOf);
    InKeys(rows, GroupOf, m);
    var i :| 0 <= i < |rows| && GroupOf(rows[i]) == m;
    var ms := MonthRows(rows, m);
    assert rows[i] in ms;
    assert Keys(ms, SourceOf)[0] in bySource.keys;
  }

  /** A month heading shows the year of one of that month's rows. */
  lemma HeadingYearOfMonth(rows: seq<Row>, byMonth: Groups, m: int)
    requires Grouped(rows, byMonth) && m in byMonth.entries
    ensures HeadingYear(byMonth.entries[m]).Some?
    ensures exists i :: 0 <= i < |rows| && rows[i].dateGroup == m && rows[i].year == HeadingYear(byMonth.entries[m]).value
  {
    var bySource := byMonth.entries[m];
    GroupedMonthHasSource(rows, byMonth, m);
    var src := bySource.keys[0];
    assert src in bySource.entries by {
      assert GroupedMonth(rows, m, bySource);
    }
    GroupedNonEmpty(rows, byMonth, m, src);
    var y := bySource.entries[src][0];
    assert y in multiset(bySource.entries[src]);
    GroupedBucket(rows, byMonth, m, src, y);
    assert y in multiset(rows);
    var i :| 0 <= i < |rows| && rows[i] == y;
  }
}
