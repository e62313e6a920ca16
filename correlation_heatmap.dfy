/** Shaping the input of the source-correlation heatmap: the distinct sources
    and their indices, an index of the latest score per word/month key and
    source, the score pairs collected for every ordered pair of sources, and
    the cells emitted from them. The correlation coefficient itself is a
    parameter. */
module CorrelationHeatmap {
  import opened Wrappers
  import opened Seqs
  import opened Text
  import opened OrderedMaps

  /** One input record: a source's average compound score for a word in a month. */
  datatype Item = Item(sourcename: string, word: string, month: int, avgCompound: real)

  function SourceName(it: Item): string { it.sourcename }

  /** `[...new Set(data.map(item => item.sourcename))]`. */
  function Sources(data: seq<Item>): seq<string> {
    Distinct(Keys(data, SourceName))
  }

  /** The sources are the source names of the data, each listed once. */
  lemma SourcesExact(data: seq<Item>, s: string)
    ensures NoDups(Sources(data))
    ensures s in Sources(data) <==> exists i :: 0 <= i < |data| && data[i].sourcename == s
  {
    InKeys(data, SourceName, s);
  }

  /** `Object.fromEntries(sources.map((s, i) => [s, i]))`. */
  function SourceIndex(sources: seq<string>): (index: map<string, nat>)
    requires NoDups(sources)
    ensures forall s :: s in index <==> s in sources
    ensures forall i :: 0 <= i < |sources| ==> sources[i] in index && index[sources[i]] == i
  {
    map s | s in sources :: FirstIndex(sources, s)
  }

  /** The word/month key `${word}__${month}`. */
  function RowKey(word: string, month: int): string {
    word + "__" + IntToString(month)
  }

  function KeyOf(it: Item): string { RowKey(it.word, it.month) }

  /** A printed month never contains `_`, so the key determines word and month. */
  lemma RowKeyInjective(w1: string, m1: int, w2: string, m2: int)
    requires RowKey(w1, m1) == RowKey(w2, m2)
    ensures w1 == w2 && m1 == m2
  {
    var k := RowKey(w1, m1);
    var n1, n2 := |w1|, |w2|;
    assert k[n1] == '_' && k[n1 + 1] == '_';
    assert k[n2] == '_' && k[n2 + 1] == '_';
    if n1 < n2 {
      assert false;
    } else if n2 < n1 {
      assert false;
    }
    assert w1 == k[..n1] == w2;
    assert IntToString(m1) == k[n1 + 2..] == IntToString(m2);
    IntToStringInjective(m1, m2);
  }

  // ---------------------------------------------------------------------------
  // The word/month index

  /** The score of the last item with this key and source, if any: later items
      overwrite earlier ones. */
  function LastValue(items: seq<Item>, key: string, src: string): (v: Option<real>)
    ensures v.Some? <==> exists i :: 0 <= i < |items| && KeyOf(items[i]) == key && items[i].sourcename == src
  {
    if items == [] then None
    else
      var last := items[|items| - 1];
      if KeyOf(last) == key && last.sourcename == src then Some(last.avgCompound)
      else
        var v := LastValue(items[..|items| - 1], key, src);
        assert forall i :: 0 <= i < |items| - 1 ==> items[..|items| - 1][i] == items[i];
        v
  }

  /** The last write wins: the value recorded is that of the latest matching item. */
  lemma LastValueIsLatest(items: seq<Item>, key: string, src: string, i: nat)
    requires i < |items| && KeyOf(items[i]) == key && items[i].sourcename == src
    requires forall j :: i < j < |items| ==> !(KeyOf(items[j]) == key && items[j].sourcename == src)
    ensures LastValue(items, key, src) == Some(items[i].avgCompound)
  {
    if i < |items| - 1 {
      LastValueIsLatest(items[..|items| - 1], key, src, i);
    }
  }

  type ScoreRow = OMap<string, real>

  /** Word/month key -> source -> score. */
  type Matrix = OMap<string, ScoreRow>

  /** `matrix[key]?.[src]`. */
  function ValueAt(matrix: Matrix, key: string, src: string): Option<real> {
    if key in matrix.entries && src in matrix.entries[key].entries then Some(matrix.entries[key].entries[src])
    else None
  }

  /** The index after reading `items`: the keys in order of first appearance,
      and under each the latest score of every source. */
  ghost predicate Indexed(items: seq<Item>, matrix: Matrix) {
    && matrix.Valid()
    && matrix.keys == Distinct(Keys(items, KeyOf))
    && (forall key :: key in matrix.entries ==> matrix.entries[key].Valid())
    && forall key, src :: ValueAt(matrix, key, src) == LastValue(items, key, src)
  }

  lemma LastValueSnoc(items: seq<Item>, x: Item, key: string, src: string)
    ensures LastValue(items + [x], key, src) ==
      if KeyOf(x) == key && x.sourcename == src then Some(x.avgCompound) else LastValue(items, key, src)
  {
    assert (items + [x])[..|items|] == items;
  }

  lemma ValuesSnoc(items: seq<Item>, x: Item, matrix: Matrix, row: ScoreRow, after: Matrix)
    requires forall key, src :: ValueAt(matrix, key, src) == LastValue(items, key, src)
    requires row == (if KeyOf(x) in matrix.entries then matrix.entries[KeyOf(x)] else Empty())
    requires KeyOf(x) in after.entries && after.entries[KeyOf(x)].entries == row.entries[x.sourcename := x.avgCompound]
    requires forall key :: key != KeyOf(x) ==> (key in after.entries <==> key in matrix.entries)
    requires forall key :: key != KeyOf(x) && key in after.entries ==> after.entries[key] == matrix.entries[key]
    ensures forall key, src :: ValueAt(after, key, src) == LastValue(items + [x], key, src)
  {
    forall key, src ensures ValueAt(after, key, src) == LastValue(items + [x], key, src) {
      LastValueSnoc(items, x, key, src);
      if key == KeyOf(x) && KeyOf(x) !in matrix.entries {
        assert ValueAt(matrix, key, src).None?;
      }
    }
  }

  /** Reading one more item into the index. */
  lemma IndexedSnoc(items: seq<Item>, x: Item, matrix: Matrix, row: ScoreRow)
    requires Indexed(items, matrix)
    requires row == (if KeyOf(x) in matrix.entries then matrix.entries[KeyOf(x)] else Empty())
    ensures row.Valid()
    ensures Indexed(items + [x], matrix.Put(KeyOf(x), row.Put(x.sourcename, x.avgCompound)))
  {
    IndexedRowsSnoc(x, matrix, row);
    IndexedKeysSnoc(items, x, matrix, row.Put(x.sourcename, x.avgCompound));
    IndexedValuesSnoc(items, x, matrix, row);
  }

  lemma IndexedRowsSnoc(x: Item, matrix: Matrix, row: ScoreRow)
    requires matrix.Valid() && forall key :: key in matrix.entries ==> matrix.entries[key].Valid()
    requires row == (if KeyOf(x) in matrix.entries then matrix.entries[KeyOf(x)] else Empty())
    ensures row.Valid()
    ensures var after := matrix.Put(KeyOf(x), row.Put(x.sourcename, x.avgCompound));
      after.Valid() && forall key :: key in after.entries ==> after.entries[key].Valid()
  {
  }

  lemma IndexedKeysSnoc(items: seq<Item>, x: Item, matrix: Matrix, row': ScoreRow)
    requires matrix.Valid() && matrix.keys == Distinct(Keys(items, KeyOf))
    ensures matrix.Put(KeyOf(x), row').keys == Distinct(Keys(items + [x], KeyOf))
  {
    KeysSnoc(items, x, KeyOf);
    DistinctSnoc(Keys(items, KeyOf), KeyOf(x));
  }

  lemma IndexedValuesSnoc(items: seq<Item>, x: Item, matrix: Matrix, row: ScoreRow)
    requires matrix.Valid()
    requires forall key, src :: ValueAt(matrix, key, src) == LastValue(items, key, src)
    requires row == (if KeyOf(x) in matrix.entries then matrix.entries[KeyOf(x)] else Empty())
    requires row.Valid()
    ensures forall key, src ::
      ValueAt(matrix.Put(KeyOf(x), row.Put(x.sourcename, x.avgCompound)), key, src) == LastValue(items + [x], key, src)
  {
    ValuesSnoc(items, x, matrix, row, matrix.Put(KeyOf(x), row.Put(x.sourcename, x.avgCompound)));
  }

  /** One step of the indexing loop. */
  method IndexItem(ghost data: seq<Item>, ghost i: nat, matrix: Matrix, item: Item) returns (after: Matrix)
    requires i < |data| && item == data[i] && Indexed(data[..i], matrix)
    ensures Indexed(data[..i + 1], after)
  {
    assert data[..i + 1] == data[..i] + [item];
    var key := RowKey(item.word, item.month);
    after := matrix;
    if key !in after.entries {
      after := after.Put(key, Empty());
    }
    var row := after.entries[key];
    IndexedSnoc(data[..i], item, matrix, row);
    if key !in matrix.entries {
      matrix.PutPut(key, Empty(), row.Put(item.sourcename, item.avgCompound));
    }
    after := after.Put(key, row.Put(item.sourcename, item.avgCompound));
  }

  /** The `matrix` loop: every item recorded under its key and source. */
  method BuildMatrix(data: seq<Item>) returns (matrix: Matrix)
    ensures Indexed(data, matrix)
  {
    matrix := Empty();
    for i := 0 to |data|
      invariant Indexed(data[..i], matrix)
    {
      matrix := IndexItem(data, i, matrix, data[i]);
    }
    assert data[..|data|] == data;
  }

  // ---------------------------------------------------------------------------
  // Pairs of scores per ordered pair of sources

  /** An `[x, y]` sample: the scores of two sources under one key. */
  type Pair = (real, real)

  /** Source -> source -> samples. */
  type Correlations = OMap<string, OMap<string, seq<Pair>>>

  /** `correlations[si]?.[sj] ?? []`. */
  function PairsAt(corr: Correlations, si: string, sj: string): seq<Pair> {
    if si in corr.entries && sj in corr.entries[si].entries then corr.entries[si].entries[sj] else []
  }

  /** Both levels are insertion-ordered maps, and an entry exists only once a
      sample was pushed into it. */
  ghost predicate WellFormed(corr: Correlations) {
    && corr.Valid()
    && forall si :: si in corr.entries ==>
         && corr.entries[si].Valid()
         && corr.entries[si].keys != []
         && forall sj :: sj in corr.entries[si].entries ==> corr.entries[si].entries[sj] != []
  }

  /** Replacing the map of one source leaves the other sources' samples alone. */
  lemma PairsAtPut(corr: Correlations, si: string, inner: OMap<string, seq<Pair>>)
    requires corr.Valid()
    ensures (forall a, b :: PairsAt(corr.Put(si, inner), a, b) ==
               (if a != si then PairsAt(corr, a, b) else if b in inner.entries then inner.entries[b] else []))
  {
  }

  /** Installing a well-formed map for one source keeps the whole well-formed. */
  lemma WellFormedPut(corr: Correlations, si: string, inner: OMap<string, seq<Pair>>)
    requires WellFormed(corr) && inner.Valid() && inner.keys != []
    requires forall sj :: sj in inner.entries ==> inner.entries[sj] != []
    ensures WellFormed(corr.Put(si, inner))
  {
  }

  /** `correlations[si][sj].push(p)`, creating the entries on first use. */
  method Push(corr: Correlations, si: string, sj: string, p: Pair) returns (after: Correlations)
    requires WellFormed(corr)
    ensures WellFormed(after)
    ensures forall a, b :: PairsAt(after, a, b) == PairsAt(corr, a, b) + (if a == si && b == sj then [p] else [])
  {
    var inner := if si in corr.entries then corr.entries[si] else Empty();
    var bucket := if sj in inner.entries then inner.entries[sj] else [];
    assert bucket == PairsAt(corr, si, sj);
    var inner' := inner.Put(sj, bucket + [p]);
    after := corr.Put(si, inner');
    PushPairs(corr, si, sj, p, inner');
    PushWellFormed(corr, si, sj, p, inner');
  }

  lemma PushPairs(corr: Correlations, si: string, sj: string, p: Pair, inner': OMap<string, seq<Pair>>)
    requires WellFormed(corr)
    requires var inner := if si in corr.entries then corr.entries[si] else Empty();
      inner' == inner.Put(sj, (if sj in inner.entries then inner.entries[sj] else []) + [p])
    ensures forall a, b :: PairsAt(corr.Put(si, inner'), a, b) == PairsAt(corr, a, b) + (if a == si && b == sj then [p] else [])
  {
    var inner := if si in corr.entries then corr.entries[si] else Empty();
    BucketPush(inner, sj, p);
    PairsAtPut(corr, si, inner');
  }

  lemma PushWellFormed(corr: Correlations, si: string, sj: string, p: Pair, inner': OMap<string, seq<Pair>>)
    requires WellFormed(corr)
    requires var inner := if si in corr.entries then corr.entries[si] else Empty();
      inner' == inner.Put(sj, (if sj in inner.entries then inner.entries[sj] else []) + [p])
    ensures WellFormed(corr.Put(si, inner'))
  {
    var inner := if si in corr.entries then corr.entries[si] else Empty();
    BucketPush(inner, sj, p);
    WellFormedPut(corr, si, inner');
  }

  /** Appending to one bucket of a source's map leaves the other buckets alone. */
  lemma BucketPush(inner: OMap<string, seq<Pair>>, sj: string, p: Pair)
    requires inner.Valid()
    ensures var bucket := if sj in inner.entries then inner.entries[sj] else [];
      forall b :: b in inner.Put(sj, bucket + [p]).entries <==> b in inner.entries || b == sj
    ensures var bucket := if sj in inner.entries then inner.entries[sj] else [];
      forall b :: b in inner.Put(sj, bucket + [p]).entries ==>
        inner.Put(sj, bucket + [p]).entries[b] == (if b in inner.entries then inner.entries[b] else []) + (if b == sj then [p] else [])
  {
  }

  /** The sample one row of the index contributes to the pair `(si, sj)`. */
  function RowPair(row: ScoreRow, si: string, sj: string): seq<Pair> {
    if si in row.entries && sj in row.entries then [(row.entries[si], row.entries[sj])] else []
  }

  /** Samples pushed so far for one row: every `si` before position `i` with
      every `sj`, then `keys[i]` with every `sj` before position `j`. */
  ghost predicate PushedFor(ks: seq<string>, i: nat, j: nat, a: string, b: string)
    requires i <= |ks| && j <= |ks|
  {
    a in ks[..i] || (i < |ks| && a == ks[i] && b in ks[..j])
  }

  lemma PushedStep(ks: seq<string>, i: nat, j: nat, a: string, b: string)
    requires NoDups(ks) && i < |ks| && j < |ks|
    ensures PushedFor(ks, i, j + 1, a, b) <==> PushedFor(ks, i, j, a, b) || (a == ks[i] && b == ks[j])
    ensures !(PushedFor(ks, i, j, a, b) && a == ks[i] && b == ks[j])
  {
    TakeSnoc(ks, j);
    forall k | 0 <= k < i ensures ks[..i][k] != ks[i] {
    }
    forall k | 0 <= k < j ensures ks[..j][k] != ks[j] {
    }
  }

  lemma PushedRowDone(ks: seq<string>, i: nat, a: string, b: string)
    requires i < |ks|
    ensures PushedFor(ks, i, |ks|, a, b) && b in ks <==> PushedFor(ks, i + 1, 0, a, b) && b in ks
  {
    TakeSnoc(ks, i);
    assert ks[..|ks|] == ks;
  }

  /** Appending one sample for `(ks[i], ks[j])`. */
  method PushRowPair(corr0: Correlations, row: ScoreRow, i: nat, j: nat, corr: Correlations)
    returns (after: Correlations)
    requires row.Valid() && i < |row.keys| && j < |row.keys| && WellFormed(corr)
    requires (forall a, b :: PairsAt(corr, a, b) ==
                PairsAt(corr0, a, b) + (if PushedFor(row.keys, i, j, a, b) then RowPair(row, a, b) else []))
    ensures WellFormed(after)
    ensures (forall a, b :: PairsAt(after, a, b) ==
               PairsAt(corr0, a, b) + (if PushedFor(row.keys, i, j + 1, a, b) then RowPair(row, a, b) else []))
  {
    var si, sj := row.keys[i], row.keys[j];
    after := Push(corr, si, sj, (row.entries[si], row.entries[sj]));
    forall a, b ensures PairsAt(after, a, b) ==
      PairsAt(corr0, a, b) + (if PushedFor(row.keys, i, j + 1, a, b) then RowPair(row, a, b) else [])
    {
      PushedStep(row.keys, i, j, a, b);
    }
  }

  /** The two nested loops over the sources present under one key. */
  method CorrelateRow(corr: Correlations, row: ScoreRow) returns (after: Correlations)
    requires WellFormed(corr) && row.Valid()
    ensures WellFormed(after)
    ensures forall a, b :: PairsAt(after, a, b) == PairsAt(corr, a, b) + RowPair(row, a, b)
  {
    var ks := row.keys;
    after := corr;
    var i := 0;
    while i < |ks|
      invariant 0 <= i <= |ks|
      invariant WellFormed(after)
      invariant (forall a, b :: PairsAt(after, a, b) ==
                   PairsAt(corr, a, b) + (if PushedFor(ks, i, 0, a, b) then RowPair(row, a, b) else []))
    {
      var j := 0;
      while j < |ks|
        invariant 0 <= j <= |ks|
        invariant WellFormed(after)
        invariant (forall a, b :: PairsAt(after, a, b) ==
                     PairsAt(corr, a, b) + (if PushedFor(ks, i, j, a, b) then RowPair(row, a, b) else []))
      {
        after := PushRowPair(corr, row, i, j, after);
        j := j + 1;
      }
      forall a, b ensures PairsAt(after, a, b) ==
        PairsAt(corr, a, b) + (if PushedFor(ks, i + 1, 0, a, b) then RowPair(row, a, b) else [])
      {
        PushedRowDone(ks, i, a, b);
      }
      i := i + 1;
    }
    assert ks[..|ks|] == ks;
  }

  // ---------------------------------------------------------------------------
  // The samples of a pair of sources, in terms of the input

  /** The sample one key contributes to `(si, sj)`: both latest scores, when
      both sources scored the key. */
  function CoPair(data: seq<Item>, key: string, si: string, sj: string): seq<Pair> {
    match (LastValue(data, key, si), LastValue(data, key, sj))
    case (Some(a), Some(b)) => [(a, b)]
    case _ => []
  }

  /** The samples of `(si, sj)` over `keys`, in key order. */
  function CoPairs(data: seq<Item>, keys: seq<string>, si: string, sj: string): seq<Pair> {
    if keys == [] then []
    else CoPairs(data, keys[..|keys| - 1], si, sj) + CoPair(data, keys[|keys| - 1], si, sj)
  }

  /** The index row of a key holds exactly the latest scores of that key. */
  lemma RowPairOfIndex(data: seq<Item>, matrix: Matrix, key: string, si: string, sj: string)
    requires Indexed(data, matrix) && key in matrix.entries
    ensures RowPair(matrix.entries[key], si, sj) == CoPair(data, key, si, sj)
  {
    assert ValueAt(matrix, key, si) == LastValue(data, key, si);
    assert ValueAt(matrix, key, sj) == LastValue(data, key, sj);
  }

  /** One step of the outer loop over the index. */
  method CorrelateKey(ghost data: seq<Item>, matrix: Matrix, k: nat, corr: Correlations)
    returns (after: Correlations)
    requires Indexed(data, matrix) && k < |matrix.keys| && WellFormed(corr)
    requires forall a, b :: PairsAt(corr, a, b) == CoPairs(data, matrix.keys[..k], a, b)
    ensures WellFormed(after)
    ensures forall a, b :: PairsAt(after, a, b) == CoPairs(data, matrix.keys[..k + 1], a, b)
  {
    var key := matrix.keys[k];
    after := CorrelateRow(corr, matrix.entries[key]);
    TakeSnoc(matrix.keys, k);
    forall a, b ensures PairsAt(after, a, b) == CoPairs(data, matrix.keys[..k + 1], a, b) {
      RowPairOfIndex(data, matrix, key, a, b);
      assert matrix.keys[..k + 1][..k] == matrix.keys[..k];
    }
  }

  /** The `correlations` loop: for every key of the index, every ordered pair
      of sources present under it receives a sample. */
  method BuildCorrelations(ghost data: seq<Item>, matrix: Matrix) returns (corr: Correlations)
    requires Indexed(data, matrix)
    ensures WellFormed(corr)
    ensures forall a, b :: PairsAt(corr, a, b) == Samples(data, a, b)
  {
    corr := Empty();
    for k := 0 to |matrix.keys|
      invariant WellFormed(corr)
      invariant forall a, b :: PairsAt(corr, a, b) == CoPairs(data, matrix.keys[..k], a, b)
    {
      corr := CorrelateKey(data, matrix, k, corr);
    }
    assert matrix.keys[..|matrix.keys|] == matrix.keys;
  }

  /** The keys under which both sources have a score, in key order. */
  function SharedKeys(data: seq<Item>, keys: seq<string>, si: string, sj: string): (shared: seq<string>)
    ensures forall k :: k in shared <==> k in keys && LastValue(data, k, si).Some? && LastValue(data, k, sj).Some?
  {
    if keys == [] then []
    else
      var k := keys[|keys| - 1];
      var init := SharedKeys(data, keys[..|keys| - 1], si, sj);
      assert keys == keys[..|keys| - 1] + [k];
      init + if LastValue(data, k, si).Some? && LastValue(data, k, sj).Some? then [k] else []
  }

  /** One sample per shared key, in the same order, holding the two latest scores. */
  lemma {:induction false} CoPairsShared(data: seq<Item>, keys: seq<string>, si: string, sj: string)
    ensures var pairs, shared := CoPairs(data, keys, si, sj), SharedKeys(data, keys, si, sj);
      && |pairs| == |shared|
      && forall t :: 0 <= t < |pairs| ==>
           pairs[t] == (LastValue(data, shared[t], si).value, LastValue(data, shared[t], sj).value)
  {
    if keys != [] {
      CoPairsShared(data, keys[..|keys| - 1], si, sj);
    }
  }

  /** Swapping the two sources swaps every sample. */
  lemma {:induction false} CoPairsSwap(data: seq<Item>, keys: seq<string>, si: string, sj: string)
    ensures var pairs, swapped := CoPairs(data, keys, si, sj), CoPairs(data, keys, sj, si);
      && |swapped| == |pairs|
      && forall t :: 0 <= t < |pairs| ==> swapped[t] == (pairs[t].1, pairs[t].0)
  {
    if keys != [] {
      CoPairsSwap(data, keys[..|keys| - 1], si, sj);
    }
  }

  /** A source paired with itself yields samples on the diagonal. */
  lemma CoPairsDiagonal(data: seq<Item>, keys: seq<string>, s: string)
    ensures var pairs := CoPairs(data, keys, s, s);
      forall t :: 0 <= t < |pairs| ==> pairs[t].0 == pairs[t].1
  {
    CoPairsShared(data, keys, s, s);
  }

  /** Over the index's keys, a key is shared by two sources exactly when both
      sources have an item for that word and month. */
  lemma SharedKeysExact(data: seq<Item>, si: string, sj: string, w: string, m: int)
    ensures RowKey(w, m) in SharedKeys(data, Distinct(Keys(data, KeyOf)), si, sj) <==>
      && (exists i :: 0 <= i < |data| && data[i].sourcename == si && data[i].word == w && data[i].month == m)
      && (exists j :: 0 <= j < |data| && data[j].sourcename == sj && data[j].word == w && data[j].month == m)
  {
    var k := RowKey(w, m);
    InKeys(data, KeyOf, k);
    if LastValue(data, k, si).Some? {
      var i :| 0 <= i < |data| && KeyOf(data[i]) == k && data[i].sourcename == si;
      RowKeyInjective(data[i].word, data[i].month, w, m);
    }
    if LastValue(data, k, sj).Some? {
      var j :| 0 <= j < |data| && KeyOf(data[j]) == k && data[j].sourcename == sj;
      RowKeyInjective(data[j].word, data[j].month, w, m);
    }
    if exists i :: 0 <= i < |data| && data[i].sourcename == si && data[i].word == w && data[i].month == m {
      var i :| 0 <= i < |data| && data[i].sourcename == si && data[i].word == w && data[i].month == m;
      assert KeyOf(data[i]) == k;
    }
    if exists j :: 0 <= j < |data| && data[j].sourcename == sj && data[j].word == w && data[j].month == m {
      var j :| 0 <= j < |data| && data[j].sourcename == sj && data[j].word == w && data[j].month == m;
      assert KeyOf(data[j]) == k;
    }
  }

  // ---------------------------------------------------------------------------
  // The heatmap cells

  /** A heatmap point: the indices of the two sources and the coefficient. */
  datatype Cell = Cell(x: Option<nat>, y: Option<nat>, value: real)

  /** `sourceIndex[s]`: undefined for a name that is not a source. */
  function Lookup(index: map<string, nat>, s: string): Option<nat> {
    if s in index then Some(index[s]) else None
  }

  /** The entries `(si, sj)` of one source's map, in order. */
  function RowEntries(si: string, sjs: seq<string>): (es: seq<(string, string)>)
    ensures |es| == |sjs| && forall t :: 0 <= t < |sjs| ==> es[t] == (si, sjs[t])
  {
    seq(|sjs|, t requires 0 <= t < |sjs| => (si, sjs[t]))
  }

  /** The `(si, sj)` entries of the first `m` sources of `correlations`, in
      enumeration order. */
  function Entries(corr: Correlations, m: nat): seq<(string, string)>
    requires WellFormed(corr) && m <= |corr.keys|
  {
    if m == 0 then []
    else Entries(corr, m - 1) + RowEntries(corr.keys[m - 1], corr.entries[corr.keys[m - 1]].keys)
  }

  /** The point pushed for one entry. */
  function CellOf(corr: Correlations, index: map<string, nat>, coefficient: seq<Pair> -> real,
                  e: (string, string)): Cell
  {
    Cell(Lookup(index, e.0), Lookup(index, e.1), coefficient(PairsAt(corr, e.0, e.1)))
  }

  function CellsOf(corr: Correlations, index: map<string, nat>, coefficient: seq<Pair> -> real,
                   es: seq<(string, string)>): (cells: seq<Cell>)
    ensures |cells| == |es| && forall t :: 0 <= t < |es| ==> cells[t] == CellOf(corr, index, coefficient, es[t])
  {
    seq(|es|, t requires 0 <= t < |es| => CellOf(corr, index, coefficient, es[t]))
  }

  lemma EmitStep(corr: Correlations, index: map<string, nat>, coefficient: seq<Pair> -> real,
                 es: seq<(string, string)>, si: string, ks: seq<string>, n: nat)
    requires n < |ks|
    ensures CellsOf(corr, index, coefficient, es + RowEntries(si, ks[..n + 1])) ==
      CellsOf(corr, index, coefficient, es + RowEntries(si, ks[..n])) + [CellOf(corr, index, coefficient, (si, ks[n]))]
  {
    assert es + RowEntries(si, ks[..n + 1]) == es + RowEntries(si, ks[..n]) + [(si, ks[n])];
  }

  /** The `heatmapData` loops: one point per entry of `correlations`. */
  method EmitCells(corr: Correlations, index: map<string, nat>, coefficient: seq<Pair> -> real)
    returns (cells: seq<Cell>)
    requires WellFormed(corr)
    ensures cells == CellsOf(corr, index, coefficient, Entries(corr, |corr.keys|))
  {
    cells := [];
    var m := 0;
    while m < |corr.keys|
      invariant 0 <= m <= |corr.keys|
      invariant cells == CellsOf(corr, index, coefficient, Entries(corr, m))
    {
      var si := corr.keys[m];
      var row := corr.entries[si];
      var n := 0;
      assert row.keys[..0] == [];
      assert Entries(corr, m) + RowEntries(si, row.keys[..0]) == Entries(corr, m);
      while n < |row.keys|
        invariant 0 <= n <= |row.keys|
        invariant cells == CellsOf(corr, index, coefficient, Entries(corr, m) + RowEntries(si, row.keys[..n]))
      {
        var sj := row.keys[n];
        EmitStep(corr, index, coefficient, Entries(corr, m), si, row.keys, n);
        cells := cells + [Cell(Lookup(index, si), Lookup(index, sj), coefficient(row.entries[sj]))];
        n := n + 1;
      }
      assert row.keys[..n] == row.keys;
      m := m + 1;
    }
  }

  /** An entry is enumerated exactly when both levels of `correlations` hold it. */
  lemma {:induction false} EntriesExact(corr: Correlations, m: nat, si: string, sj: string)
    requires WellFormed(corr) && m <= |corr.keys|
    ensures (si, sj) in Entries(corr, m) <==>
      si in corr.keys[..m] && si in corr.entries && sj in corr.entries[si].entries
  {
    if m > 0 {
      EntriesExact(corr, m - 1, si, sj);
      TakeSnoc(corr.keys, m - 1);
      var last := corr.keys[m - 1];
      if (si, sj) in RowEntries(last, corr.entries[last].keys) {
        var t :| 0 <= t < |corr.entries[last].keys| && RowEntries(last, corr.entries[last].keys)[t] == (si, sj);
      }
      if si == last && sj in corr.entries[si].entries {
        var t :| 0 <= t < |corr.entries[last].keys| && corr.entries[last].keys[t] == sj;
        assert RowEntries(last, corr.entries[last].keys)[t] == (si, sj);
      }
    }
  }

  /** No entry is enumerated twice. */
  lemma {:induction false} EntriesNoDups(corr: Correlations, m: nat)
    requires WellFormed(corr) && m <= |corr.keys|
    ensures NoDups(Entries(corr, m))
  {
    if m > 0 {
      EntriesNoDups(corr, m - 1);
      var last := corr.keys[m - 1];
      var row := RowEntries(last, corr.entries[last].keys);
      NotInPrefix(corr.keys, m - 1);
      forall e | e in Entries(corr, m - 1) ensures e !in row {
        EntriesExact(corr, m - 1, e.0, e.1);
      }
      NoDupsConcat(Entries(corr, m - 1), row);
    }
  }

  // ---------------------------------------------------------------------------
  // The transform, in terms of the input

  /** The samples of `(si, sj)` over every word/month key of the input. */
  function Samples(data: seq<Item>, si: string, sj: string): seq<Pair> {
    CoPairs(data, Distinct(Keys(data, KeyOf)), si, sj)
  }

  /** Two sources have samples exactly when both scored the same word in the
      same month. */
  lemma SamplesExist(data: seq<Item>, si: string, sj: string)
    ensures Samples(data, si, sj) != [] <==>
      exists i, j :: 0 <= i < |data| && 0 <= j < |data| && data[i].sourcename == si && data[j].sourcename == sj
        && data[i].word == data[j].word && data[i].month == data[j].month
  {
    var keys := Distinct(Keys(data, KeyOf));
    CoPairsShared(data, keys, si, sj);
    var shared := SharedKeys(data, keys, si, sj);
    if shared != [] {
      InKeys(data, KeyOf, shared[0]);
      var i :| 0 <= i < |data| && KeyOf(data[i]) == shared[0];
      SharedKeysExact(data, si, sj, data[i].word, data[i].month);
    }
    if exists i, j :: 0 <= i < |data| && 0 <= j < |data| && data[i].sourcename == si && data[j].sourcename == sj
        && data[i].word == data[j].word && data[i].month == data[j].month
    {
      var i, j :| 0 <= i < |data| && 0 <= j < |data| && data[i].sourcename == si && data[j].sourcename == sj
        && data[i].word == data[j].word && data[i].month == data[j].month;
      SharedKeysExact(data, si, sj, data[i].word, data[i].month);
    }
  }

  /** Only sources of the input have samples. */
  lemma SamplesSources(data: seq<Item>, si: string, sj: string)
    requires Samples(data, si, sj) != []
    ensures si in Sources(data) && sj in Sources(data)
  {
    SamplesExist(data, si, sj);
    SourcesExact(data, si);
    SourcesExact(data, sj);
  }

  /** Every source has its position in `sources` as its index. */
  lemma LookupSource(sources: seq<string>, s: string)
    requires NoDups(sources) && s in sources
    ensures var x := Lookup(SourceIndex(sources), s); x.Some? && x.value < |sources| && sources[x.value] == s
  {
    var i :| 0 <= i < |sources| && sources[i] == s;
  }

  /** A point that names two sources by index and carries the coefficient of
      their samples, of which there is at least one. */
  ghost predicate CellSound(data: seq<Item>, coefficient: seq<Pair> -> real, sources: seq<string>, c: Cell) {
    && c.x.Some? && c.y.Some? && c.x.value < |sources| && c.y.value < |sources|
    && Samples(data, sources[c.x.value], sources[c.y.value]) != []
    && c.value == coefficient(Samples(data, sources[c.x.value], sources[c.y.value]))
  }

  /** The points emitted from the collected samples. */
  ghost predicate Emitted(data: seq<Item>, coefficient: seq<Pair> -> real, corr: Correlations, cells: seq<Cell>) {
    && WellFormed(corr)
    && (forall a, b :: PairsAt(corr, a, b) == Samples(data, a, b))
    && cells == CellsOf(corr, SourceIndex(Sources(data)), coefficient, Entries(corr, |corr.keys|))
  }

  lemma CellsSound(data: seq<Item>, coefficient: seq<Pair> -> real, corr: Correlations, cells: seq<Cell>)
    requires Emitted(data, coefficient, corr, cells)
    ensures forall t :: 0 <= t < |cells| ==> CellSound(data, coefficient, Sources(data), cells[t])
  {
    var sources := Sources(data);
    var es := Entries(corr, |corr.keys|);
    forall t | 0 <= t < |cells| ensures CellSound(data, coefficient, sources, cells[t]) {
      var e := es[t];
      EntriesExact(corr, |corr.keys|, e.0, e.1);
      assert PairsAt(corr, e.0, e.1) != [];
      SamplesSources(data, e.0, e.1);
      LookupSource(sources, e.0);
      LookupSource(sources, e.1);
    }
  }

  /** The point emitted for a pair of sources that has samples. */
  lemma CellFor(data: seq<Item>, coefficient: seq<Pair> -> real, corr: Correlations, cells: seq<Cell>, x: nat, y: nat)
    returns (t: nat)
    requires Emitted(data, coefficient, corr, cells)
    requires x < |Sources(data)| && y < |Sources(data)| && Samples(data, Sources(data)[x], Sources(data)[y]) != []
    ensures t < |cells| && cells[t].x == Some(x) && cells[t].y == Some(y)
  {
    var sources := Sources(data);
    var si, sj := sources[x], sources[y];
    assert PairsAt(corr, si, sj) != [];
    t := EntryOf(corr, si, sj);
    assert cells[t] == CellOf(corr, SourceIndex(sources), coefficient, (si, sj));
  }

  /** A pair of sources with samples is enumerated. */
  lemma EntryOf(corr: Correlations, si: string, sj: string) returns (t: nat)
    requires WellFormed(corr) && PairsAt(corr, si, sj) != []
    ensures t < |Entries(corr, |corr.keys|)| && Entries(corr, |corr.keys|)[t] == (si, sj)
  {
    assert corr.keys[..|corr.keys|] == corr.keys;
    EntriesExact(corr, |corr.keys|, si, sj);
    t :| 0 <= t < |Entries(corr, |corr.keys|)| && Entries(corr, |corr.keys|)[t] == (si, sj);
  }

  /** Some point stands at `(x, y)`. */
  ghost predicate HasCell(cells: seq<Cell>, x: nat, y: nat) {
    exists t :: 0 <= t < |cells| && cells[t].x == Some(x) && cells[t].y == Some(y)
  }

  lemma CellsComplete(data: seq<Item>, coefficient: seq<Pair> -> real, corr: Correlations, cells: seq<Cell>)
    requires Emitted(data, coefficient, corr, cells)
    ensures forall x, y ::
      (0 <= x < |Sources(data)| && 0 <= y < |Sources(data)| && Samples(data, Sources(data)[x], Sources(data)[y]) != [])
      ==> HasCell(cells, x, y)
  {
    forall x, y | 0 <= x < |Sources(data)| && 0 <= y < |Sources(data)|
      && Samples(data, Sources(data)[x], Sources(data)[y]) != []
      ensures HasCell(cells, x, y)
    {
      var t := CellFor(data, coefficient, corr, cells, x, y);
    }
  }

  lemma CellsDistinct(data: seq<Item>, coefficient: seq<Pair> -> real, corr: Correlations, cells: seq<Cell>)
    requires Emitted(data, coefficient, corr, cells)
    ensures forall s, t :: 0 <= s < t < |cells| ==> cells[s].x != cells[t].x || cells[s].y != cells[t].y
  {
    var sources := Sources(data);
    var es := Entries(corr, |corr.keys|);
    EntriesNoDups(corr, |corr.keys|);
    forall s, t | 0 <= s < t < |cells| ensures cells[s].x != cells[t].x || cells[s].y != cells[t].y {
      CellsSound(data, coefficient, corr, cells);
      LookupSource(sources, es[s].0);
      LookupSource(sources, es[s].1);
      LookupSource(sources, es[t].0);
      LookupSource(sources, es[t].1);
      assert es[s] != es[t];
    }
  }

  /** `transformHeatmapData`: the distinct sources, and one point per ordered
      pair of sources that scored a common word in a common month. */
  method TransformHeatmapData(data: seq<Item>, coefficient: seq<Pair> -> real)
    returns (sources: seq<string>, cells: seq<Cell>)
    ensures sources == Sources(data)
    ensures forall t :: 0 <= t < |cells| ==> CellSound(data, coefficient, sources, cells[t])
    ensures forall x, y :: 0 <= x < |sources| && 0 <= y < |sources| && Samples(data, sources[x], sources[y]) != [] ==>
      HasCell(cells, x, y)
    ensures forall s, t :: 0 <= s < t < |cells| ==> cells[s].x != cells[t].x || cells[s].y != cells[t].y
  {
    sources := Distinct(Keys(data, SourceName));
    var index := SourceIndex(sources);
    var matrix := BuildMatrix(data);
    var corr := BuildCorrelations(data, matrix);
    cells := EmitCells(corr, index, coefficient);
    CellsSound(data, coefficient, corr, cells);
    CellsComplete(data, coefficient, corr, cells);
    CellsDistinct(data, coefficient, corr, cells);
  }
}
