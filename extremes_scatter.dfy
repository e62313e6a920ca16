/** The input of the extreme-sentiment scatter chart: one series per source,
    in order of first appearance, holding one point per article of that
    source, coloured by its sentiment label. */
module ExtremesScatter {
  import opened Wrappers
  import opened Seqs
  import opened OrderedMaps

  /** One input record. */
  datatype Article = Article(source: string, sentimentCompound: real, title: string,
                             sentimentKey: string, sentimentValue: real)

  /** A point colour: one of the three named colours, or the member that a
      plain-object lookup finds on `Object.prototype` for the given name (the
      `Object` function for "constructor", a method for "toString", the
      prototype itself for "__proto__"). */
  datatype Color = Green | Red | Gray | Inherited(name: string)

  /** The property names every plain object inherits from `Object.prototype`. */
  predicate InheritedName(key: string) {
    key in {"constructor", "hasOwnProperty", "isPrototypeOf", "propertyIsEnumerable",
     "toLocaleString", "toString", "valueOf", "__proto__",
     "__defineGetter__", "__defineSetter__", "__lookupGetter__", "__lookupSetter__"}
  }

  /** `sentimentColorMap[key]`: the three own labels give their colours, an
      inherited name gives the inherited member, and any other key is
      undefined. */
  function ColorOf(key: string): (c: Option<Color>)
    ensures c == Some(Green) <==> key == "positive"
    ensures c == Some(Red) <==> key == "negative"
    ensures c == Some(Gray) <==> key == "neutral"
    ensures c == Some(Inherited(key)) <==> InheritedName(key)
    ensures c.None? <==> key !in {"positive", "negative", "neutral"} && !InheritedName(key)
  {
    if key == "positive" then Some(Green)
    else if key == "negative" then Some(Red)
    else if key == "neutral" then Some(Gray)
    else if InheritedName(key) then Some(Inherited(key))
    else None
  }

  /** A scatter point. */
  datatype Point = Point(x: string, y: real, title: string, sentiment: string, sentimentValue: real,
                         color: Option<Color>)

  /** The point drawn for one article. */
  function PointOf(a: Article): Point {
    Point(a.source, a.sentimentCompound, a.title, a.sentimentKey, a.sentimentValue, ColorOf(a.sentimentKey))
  }

  /** The points of `items`, in order. */
  function Points(items: seq<Article>): (ps: seq<Point>)
    ensures |ps| == |items| && forall i :: 0 <= i < |items| ==> ps[i] == PointOf(items[i])
  {
    seq(|items|, i requires 0 <= i < |items| => PointOf(items[i]))
  }

  function SourceOf(a: Article): string { a.source }

  /** `[...new Set(data.map(item => item.source))]`: the x-axis categories. */
  function UniqueSources(data: seq<Article>): (r: seq<string>)
    ensures NoDups(r)
    ensures forall s :: s in r <==> s in Keys(data, SourceOf)
  {
    Distinct(Keys(data, SourceOf))
  }

  /** The points of the articles of one source, in input order. */
  function SourcePoints(data: seq<Article>, s: string): seq<Point> {
    Points(KeepKey(data, SourceOf, s))
  }

  type SeriesMap = OMap<string, seq<Point>>

  /** `seriesMap` after reading `rows`: a key per source, in order of first
      appearance, holding the points of that source's articles. */
  ghost predicate Collected(rows: seq<Article>, seriesMap: SeriesMap) {
    && seriesMap.Valid()
    && seriesMap.keys == UniqueSources(rows)
    && forall s :: s in seriesMap.entries ==> seriesMap.entries[s] == SourcePoints(rows, s)
  }

  lemma PointsSnoc(items: seq<Article>, a: Article)
    ensures Points(items + [a]) == Points(items) + [PointOf(a)]
  {
  }

  lemma CollectedSnoc(rows: seq<Article>, a: Article, seriesMap: SeriesMap, points: seq<Point>)
    requires Collected(rows, seriesMap)
    requires points == if a.source in seriesMap.entries then seriesMap.entries[a.source] else []
    ensures Collected(rows + [a], seriesMap.Put(a.source, points + [PointOf(a)]))
  {
    var after := seriesMap.Put(a.source, points + [PointOf(a)]);
    KeysSnoc(rows, a, SourceOf);
    DistinctSnoc(Keys(rows, SourceOf), a.source);
    forall s | s in after.entries ensures after.entries[s] == SourcePoints(rows + [a], s) {
      KeepKeySnoc(rows, a, SourceOf, s);
      if s == a.source {
        PointsSnoc(KeepKey(rows, SourceOf, s), a);
        if a.source !in seriesMap.entries {
          KeepKeyNone(rows, SourceOf, s);
        }
      }
    }
  }

  /** One step of the loop over the input. */
  method CollectArticle(ghost data: seq<Article>, ghost i: nat, seriesMap: SeriesMap, item: Article)
    returns (after: SeriesMap)
    requires i < |data| && item == data[i] && Collected(data[..i], seriesMap)
    ensures Collected(data[..i + 1], after)
  {
    TakeSnoc(data, i);
    var source := item.source;
    after := seriesMap;
    if source !in after.entries {
      after := after.Put(source, []);
    }
    var points := after.entries[source];
    CollectedSnoc(data[..i], item, seriesMap, points);
    if source !in seriesMap.entries {
      seriesMap.PutPut(source, [], points + [PointOf(item)]);
    }
    after := after.Put(source, points + [PointOf(item)]);
  }

  /** The `seriesMap` loop. */
  method CollectSeries(data: seq<Article>) returns (seriesMap: SeriesMap)
    ensures Collected(data, seriesMap)
  {
    seriesMap := Empty();
    for i := 0 to |data|
      invariant Collected(data[..i], seriesMap)
    {
      seriesMap := CollectArticle(data, i, seriesMap, data[i]);
    }
    assert data[..|data|] == data;
  }

  /** A named series. */
  datatype Series = Series(name: string, points: seq<Point>)

  /** `transformData`: the entries of `seriesMap` as named series. */
  method TransformData(data: seq<Article>) returns (series: seq<Series>)
    ensures |series| == |UniqueSources(data)|
    ensures forall k :: 0 <= k < |series| ==>
      series[k] == Series(UniqueSources(data)[k], SourcePoints(data, UniqueSources(data)[k]))
  {
    var seriesMap := CollectSeries(data);
    series := seq(|seriesMap.keys|, k requires 0 <= k < |seriesMap.keys| =>
      Series(seriesMap.keys[k], seriesMap.entries[seriesMap.keys[k]]));
  }

  /** The series names are the axis categories: every source once, in order of
      first appearance. */
  lemma SeriesNames(data: seq<Article>, s: string)
    ensures NoDups(UniqueSources(data))
    ensures s in UniqueSources(data) <==> exists i :: 0 <= i < |data| && data[i].source == s
    ensures forall i, j :: 0 <= i < j < |UniqueSources(data)| ==>
      FirstIndex(Keys(data, SourceOf), UniqueSources(data)[i]) < FirstIndex(Keys(data, SourceOf), UniqueSources(data)[j])
  {
    InKeys(data, SourceOf, s);
    forall i, j | 0 <= i < j < |UniqueSources(data)|
      ensures FirstIndex(Keys(data, SourceOf), UniqueSources(data)[i]) < FirstIndex(Keys(data, SourceOf), UniqueSources(data)[j])
    {
      DistinctFirstSeenOrder(Keys(data, SourceOf), i, j);
    }
  }

  /** Each point of a source's series is the unchanged point of one of that
      source's articles, and each article's point is in its source's series. */
  lemma SourcePointsExact(data: seq<Article>, s: string, p: Point)
    ensures p in SourcePoints(data, s) <==> exists a :: a in data && a.source == s && p == PointOf(a)
  {
    var items := KeepKey(data, SourceOf, s);
    if p in SourcePoints(data, s) {
      var i :| 0 <= i < |items| && SourcePoints(data, s)[i] == p;
      assert items[i] in items;
    }
    if exists a :: a in data && a.source == s && p == PointOf(a) {
      var a :| a in data && a.source == s && p == PointOf(a);
      assert a in items;
      var i :| 0 <= i < |items| && items[i] == a;
      assert SourcePoints(data, s)[i] == p;
    }
  }

  /** Points over all series, added up. */
  function TotalPoints(series: seq<Series>): nat {
    if series == [] then 0 else |series[0].points| + TotalPoints(series[1..])
  }

  lemma {:induction false} TotalPointsSizes(data: seq<Article>, series: seq<Series>, ks: seq<string>)
    requires |series| == |ks|
    requires forall k :: 0 <= k < |ks| ==> series[k].points == SourcePoints(data, ks[k])
    ensures TotalPoints(series) == SumSizes(data, SourceOf, ks)
  {
    if ks != [] {
      TotalPointsSizes(data, series[1..], ks[1..]);
    }
  }

  /** Every article becomes exactly one point: the series hold `|data|` points. */
  lemma TotalPointsAll(data: seq<Article>, series: seq<Series>)
    requires |series| == |UniqueSources(data)|
    requires forall k :: 0 <= k < |series| ==>
      series[k] == Series(UniqueSources(data)[k], SourcePoints(data, UniqueSources(data)[k]))
    ensures TotalPoints(series) == |data|
  {
    TotalPointsSizes(data, series, UniqueSources(data));
    KeysCovered(data, SourceOf, UniqueSources(data));
    PartitionSize(data, SourceOf, UniqueSources(data));
  }
}
