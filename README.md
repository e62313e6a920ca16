# power-of-words dashboard: client-side data shaping, in Dafny

The dashboard is a React front end over a sentiment-analysis HTTP API. Most of
its code fetches JSON and hands it to Highcharts or a table. A few components
also shape data in the browser, and this project models and verifies that logic:

- **Trending-phrase table** (`TrendingPhrases`).
  - Filters the rows by a case-insensitive phrase search.
  - Sorts them by month, source, rank and frequency.
  - Groups them month → source → rows, with every bucket sorted by rank.
  - Renders the table body with month headings and `Month n` as the fallback name.
- **Pagination bar** (`Pagination`): the page count, the guarded `goToPage`, the windowed page list with ellipses, the disabled buttons and the page label.
- **Sentiment-over-time categories** (`SentimentOverTime`, over `Calendar`): `generateCategories` parses two `YYYY-MM-DD` strings and walks one day at a time through the proleptic Gregorian calendar, emitting zero-padded labels.
- **Correlation heatmap input** (`CorrelationHeatmap`).
  - `sources` and `sourceIndex`.
  - The last-write-wins `word__month` index.
  - The `[x, y]` samples for every ordered source pair.
  - The emitted heatmap cells.
- **Extreme-sentiment scatter series** (`ExtremesScatter`): one series per source, in order of first appearance, and the sentiment-to-colour map.
- **Date windows** (`DateRanges`): `getWindow` over integer day numbers, with today's day number as a parameter and `yyyy-MM-dd` output.
- **Small helpers.**
  - `getMaxEntry` (`MaxEntry`).
  - The tag input (`TagInput`): a class holding the typed text.
  - The multi-source toggle (`SourceSelector`).
  - The card's delta and percentage (`CardSentiment`).
  - The trend badge (`TrendBadge`).

Shared modules:

- `Seqs`: distinct-in-order, key projections and filters.
- `Text`: decimal printing, split, `padStart`, the ECMAScript whitespace set for `trim`, ASCII lower-casing, `includes`, code-point string order.
- `OrderedMaps`: an insertion-ordered map, which is what JS objects and `Map` give when iterated.
- `Sorting`: an in-place array sort, and a functional sort for `.sort` on fresh arrays.

How the source is represented:

- Code that mutates step by step is a `method` with loops and invariants, proved against a specification function. This covers the grouping and bucket sorts, the matrix, correlation and cell loops, the series loop, the day loop and the page-list loop.
- Pure expressions are functions and lemmas.
- The tag input's `input` state is a class field.
- Callback calls such as `onChange` and `setPage` become return values.

## Model

| member | source | states |
|---|---|---|
| TrendingPhrases.MonthName | src/components/charts/TrendingPhrasesTable.tsx:21-28 | 1..12 give the English month name; every other number, 0 included, gives `Month n` |
| TrendingPhrases.MonthNameInjective | src/components/charts/TrendingPhrasesTable.tsx:26-28 | different month numbers never share a heading |
| TrendingPhrases.Matching | src/components/charts/TrendingPhrasesTable.tsx:55 | the kept rows are exactly the input rows (with multiplicity) whose lower-cased phrase contains the needle; an empty needle keeps the input as it is |
| TrendingPhrases.BlankQueryKeepsAll | src/components/charts/TrendingPhrasesTable.tsx:54-55 | a blank or whitespace-only query keeps every row |
| TrendingPhrases.MatchingExact | src/components/charts/TrendingPhrasesTable.tsx:54-55 | a row survives exactly when it is in the data and the trimmed, lower-cased query is empty or occurs in its lower-cased phrase |
| TrendingPhrases.RowLeTotalPreorder | src/components/charts/TrendingPhrasesTable.tsx:56-61 | the four-key comparator is a total preorder, so sorting by it is well defined |
| TrendingPhrases.RowTie | src/components/charts/TrendingPhrasesTable.tsx:56-61 | two rows tie under the comparator exactly when month, source, rank and frequency all agree |
| TrendingPhrases.Filtered | src/components/charts/TrendingPhrasesTable.tsx:51-63 | the result is a sorted permutation of the matching rows, and the sort is stable: rows that tie keep their order in the data. The result is built on a fresh array, and the input is a value, so it is not changed |
| TrendingPhrases.FilteredOrder | src/components/charts/TrendingPhrasesTable.tsx:56-61 | in the sorted list, month ascends, then source, then rank ascends, then frequency descends |
| TrendingPhrases.AddRow | src/components/charts/TrendingPhrasesTable.tsx:33-38 | one loop turn keeps the invariant: months and sources are in order of first appearance, and each bucket holds exactly its rows in input order |
| TrendingPhrases.SortBuckets | src/components/charts/TrendingPhrasesTable.tsx:41-44 | every bucket of a month is replaced by a stably sorted, rank-ascending, frequency-descending permutation of itself; sources and their order are kept |
| TrendingPhrases.SortMonths | src/components/charts/TrendingPhrasesTable.tsx:40-45 | every month keeps its place, and its buckets are stably sorted as above |
| TrendingPhrases.GroupByMonthAndSource | src/components/charts/TrendingPhrasesTable.tsx:31-47 | the result groups exactly the input: months and sources in order of first appearance, each bucket a stably sorted permutation of the rows with that month and source, so rows with equal rank and frequency keep their input order |
| TrendingPhrases.BucketLeTotalPreorder | src/components/charts/TrendingPhrasesTable.tsx:42 | rank-ascending, frequency-descending is a total preorder |
| TrendingPhrases.BucketTie | src/components/charts/TrendingPhrasesTable.tsx:42 | two rows tie within a bucket exactly when rank and frequency agree |
| TrendingPhrases.GroupedBucket | src/components/charts/TrendingPhrasesTable.tsx:33-38 | bucket (m, s) holds a row exactly as often as the input does when the row has month m and source s, and never otherwise |
| TrendingPhrases.GroupedCovers | src/components/charts/TrendingPhrasesTable.tsx:33-38 | every input row has its bucket |
| TrendingPhrases.GroupedNonEmpty | src/components/charts/TrendingPhrasesTable.tsx:34-37 | no bucket is empty |
| TrendingPhrases.GroupedTotal | src/components/charts/TrendingPhrasesTable.tsx:33-38 | bucket sizes add up to the number of input rows |
| TrendingPhrases.MonthsAscending | src/components/charts/TrendingPhrasesTable.tsx:73-76 | the rendered months strictly ascend |
| TrendingPhrases.MonthsPresent | src/components/charts/TrendingPhrasesTable.tsx:73-76 | a month is rendered exactly when some row has it |
| TrendingPhrases.SourcesAscending | src/components/charts/TrendingPhrasesTable.tsx:113 | within a month, the sources strictly ascend and are exactly those with a row in that month |
| TrendingPhrases.SourceBlockRows | src/components/charts/TrendingPhrasesTable.tsx:128-142 | each row of a source block shows its row's phrase and frequency, and only the first carries the source cell, spanning the block |
| TrendingPhrases.TableBodyShowsEveryRow | src/components/charts/TrendingPhrasesTable.tsx:104-146 | the table body shows exactly one data line per input row |
| TrendingPhrases.RenderTable | src/components/charts/TrendingPhrasesTable.tsx:48-146 | the component end to end (filter, group, render): one data line per row matching the query, and the "no rows" line exactly when no row matches |
| TrendingPhrases.TableBodyNoRows | src/components/charts/TrendingPhrasesTable.tsx:104-109 | the body is the single "No rows match your search." line exactly when no row is left |
| TrendingPhrases.HeadingYearOfMonth | src/components/charts/TrendingPhrasesTable.tsx:123 | a month heading always has a year, and it is the year of one of that month's rows |
| Pagination.TotalPages | src/components/elements/CustomPagination.tsx:25 | the page count is a ceiling: it holds every item and has no empty last page |
| Pagination.TotalPagesUnique | src/components/elements/CustomPagination.tsx:25 | no other count has that property: the result is `ceil(total / itemsPerPage)` |
| Pagination.NoItemsNoPages | src/components/elements/CustomPagination.tsx:25 | no items means no pages |
| Pagination.GoToPage | src/components/elements/CustomPagination.tsx:27-29 | the page is set, to `p`, exactly when `1 <= p <= totalPages` |
| Pagination.GoToPageKeepsRange | src/components/elements/CustomPagination.tsx:27-29 | a page in range stays in range, whatever is asked |
| Pagination.PageList | src/components/elements/CustomPagination.tsx:34-46 | the windowed list has at most 7 entries and is empty exactly when there are no pages |
| Pagination.RenderPageNumbers | src/components/elements/CustomPagination.tsx:31-46 | the pushed list is the page list |
| Pagination.PageListSize | src/components/elements/CustomPagination.tsx:34-46 | at most 7 entries; exactly `1..totalPages` for up to 5 pages; empty exactly when there are no pages |
| Pagination.PageListInRange | src/components/elements/CustomPagination.tsx:34-46 | every listed page lies in `1..totalPages` |
| Pagination.PageListIncreasing | src/components/elements/CustomPagination.tsx:34-46 | listed pages strictly increase |
| Pagination.PageListGaps | src/components/elements/CustomPagination.tsx:38-46 | adjacent pages are consecutive, and an ellipsis stands between pages at least two apart |
| Pagination.PageListEnds | src/components/elements/CustomPagination.tsx:34-46 | the list runs from page 1 to the last page |
| Pagination.PageListHasCurrent | src/components/elements/CustomPagination.tsx:34-46 | a current page in range is listed exactly once |
| Pagination.NavigationMoves | src/components/elements/CustomPagination.tsx:98-126 | from a page in `1..totalPages`, an enabled button moves to the first, previous, next or last page; a disabled one would change nothing |
| Pagination.PageBeyondLast | src/components/elements/CustomPagination.tsx:73-127 | a page size change keeps the page, which can leave it past the last one. There ">" is enabled but does nothing, "<" works only from just past the last page, and "<<" and ">>" return into range, unless there are no pages |
| Pagination.ShownTotal | src/components/elements/CustomPagination.tsx:90 | the label shows `totalPages`, or 1 when there are none |
| SentimentOverTime.ParseDate | src/components/charts/SentimentOverTimeChart.tsx:23-27 | a parsed date is a real day with a four-digit year |
| SentimentOverTime.ParseCategoryLabel | src/components/charts/SentimentOverTimeChart.tsx:23-33 | parsing a label gives back its date |
| SentimentOverTime.SplitCategoryLabel | src/components/charts/SentimentOverTimeChart.tsx:23-33 | splitting a label on "-" gives its year, month and day fields |
| SentimentOverTime.CategoryLabelShape | src/components/charts/SentimentOverTimeChart.tsx:30-33 | a label has the form `yyyy-MM-dd`: ten characters, dashes at 4 and 7, digits elsewhere |
| SentimentOverTime.CategoryLabelOrder | src/components/charts/SentimentOverTimeChart.tsx:30-33 | an earlier date has a smaller label |
| SentimentOverTime.CategoriesBetween | src/components/charts/SentimentOverTimeChart.tsx:29-35 | the loop pushes the label of each day from start to end |
| SentimentOverTime.GenerateCategories | src/components/charts/SentimentOverTimeChart.tsx:20-38 | the categories are the labels of the days from the parsed start to the parsed end |
| SentimentOverTime.DayRangeLength | src/components/charts/SentimentOverTimeChart.tsx:29-35 | the number of days between the two dates plus one, or none when the start is later |
| SentimentOverTime.DayRangeEnds | src/components/charts/SentimentOverTimeChart.tsx:29-35 | empty exactly when the start is after the end; otherwise it runs from the start's label to the end's |
| SentimentOverTime.DayRangeConsecutive | src/components/charts/SentimentOverTimeChart.tsx:34 | adjacent entries are consecutive calendar days, across month and year ends and leap days |
| SentimentOverTime.DayRangeSorted | src/components/charts/SentimentOverTimeChart.tsx:29-35 | the entries strictly ascend as strings, so none repeats |
| SentimentOverTime.DayRangeShaped | src/components/charts/SentimentOverTimeChart.tsx:30-33 | every entry, the last one included, has the `yyyy-MM-dd` shape: ten characters, dashes at 4 and 7, digits elsewhere |
| Calendar.NextDay | src/components/charts/SentimentOverTimeChart.tsx:34 | the next day is a valid date one day number later |
| Calendar.DayNumberOrder | src/components/charts/SentimentOverTimeChart.tsx:29 | `<=` on dates is `<=` on day numbers |
| Calendar.FromDayNumberSucc | src/components/charts/SentimentOverTimeChart.tsx:34 | stepping the day number steps the date by one calendar day |
| CorrelationHeatmap.SourcesExact | src/components/charts/CorrelationHeatmapChart.tsx:9 | `sources` has no duplicates and holds exactly the sources of the input |
| CorrelationHeatmap.SourceIndex | src/components/charts/CorrelationHeatmapChart.tsx:10 | `sourceIndex` maps each source, and only a source, to its position |
| CorrelationHeatmap.RowKeyInjective | src/components/charts/CorrelationHeatmapChart.tsx:16 | the key `word__month` determines word and month |
| CorrelationHeatmap.LastValueIsLatest | src/components/charts/CorrelationHeatmapChart.tsx:15-19 | the score kept for a key and source is that of its last item |
| CorrelationHeatmap.IndexedSnoc | src/components/charts/CorrelationHeatmapChart.tsx:16-18 | reading one more item keeps the index: keys in order of first appearance, the latest score under each |
| CorrelationHeatmap.BuildMatrix | src/components/charts/CorrelationHeatmapChart.tsx:12-19 | `matrix` holds, under every key in first-seen order, the latest score of every source |
| CorrelationHeatmap.Push | src/components/charts/CorrelationHeatmapChart.tsx:29-32 | exactly the pair's list grows by the sample, and the nested maps stay well formed |
| CorrelationHeatmap.CorrelateRow | src/components/charts/CorrelationHeatmapChart.tsx:24-34 | one row adds one sample to every ordered pair of its sources, diagonal included, and nothing else |
| CorrelationHeatmap.BuildCorrelations | src/components/charts/CorrelationHeatmapChart.tsx:22-35 | every pair's list holds one sample per key, in key order, under which both sources scored |
| CorrelationHeatmap.CoPairsShared | src/components/charts/CorrelationHeatmapChart.tsx:23-35 | a pair's list has one sample per shared key, holding the two latest scores |
| CorrelationHeatmap.SharedKeysExact | src/components/charts/CorrelationHeatmapChart.tsx:15-35 | a key is shared exactly when both sources have an item for that word and month |
| CorrelationHeatmap.CoPairsSwap | src/components/charts/CorrelationHeatmapChart.tsx:23-35 | the list for (sj, si) is the element-wise swap of that for (si, sj) |
| CorrelationHeatmap.CoPairsDiagonal | src/components/charts/CorrelationHeatmapChart.tsx:23-35 | diagonal samples have equal components |
| CorrelationHeatmap.SamplesExist | src/components/charts/CorrelationHeatmapChart.tsx:23-35 | two sources have samples exactly when both scored one word in one month |
| CorrelationHeatmap.EmitCells | src/components/charts/CorrelationHeatmapChart.tsx:51-61 | one cell per collected pair, in enumeration order |
| CorrelationHeatmap.EntriesNoDups | src/components/charts/CorrelationHeatmapChart.tsx:53-54 | no pair is enumerated twice |
| CorrelationHeatmap.CellsSound | src/components/charts/CorrelationHeatmapChart.tsx:53-61 | every cell names two sources by index and carries the coefficient of their non-empty samples |
| CorrelationHeatmap.CellsComplete | src/components/charts/CorrelationHeatmapChart.tsx:53-61 | every pair with samples gets a cell |
| CorrelationHeatmap.CellsDistinct | src/components/charts/CorrelationHeatmapChart.tsx:53-61 | no two cells stand at the same (x, y) |
| CorrelationHeatmap.TransformHeatmapData | src/components/charts/CorrelationHeatmapChart.tsx:8-64 | the sources, and cells exactly for the co-occurring pairs, once each, with index coordinates and the coefficient of their samples |
| ExtremesScatter.ColorOf | src/components/charts/ExtremesScatterChart.tsx:7-28 | green, red and gray for positive, negative and neutral. A name inherited from `Object.prototype` ("constructor", "toString", "__proto__", …) gives the inherited member, and any other key is undefined |
| ExtremesScatter.Points | src/components/charts/ExtremesScatterChart.tsx:22-28 | one point per article, in order, copying its fields |
| ExtremesScatter.CollectArticle | src/components/charts/ExtremesScatterChart.tsx:16-30 | one loop turn keeps `seriesMap` keyed by source in first-seen order, each holding its articles' points in order |
| ExtremesScatter.CollectSeries | src/components/charts/ExtremesScatterChart.tsx:13-30 | the finished `seriesMap` is keyed and filled as above |
| ExtremesScatter.TransformData | src/components/charts/ExtremesScatterChart.tsx:32-35 | one series per distinct source, named after it, holding its points |
| ExtremesScatter.UniqueSources | src/components/charts/ExtremesScatterChart.tsx:47 | the categories list each source of the data once, and no other |
| ExtremesScatter.SeriesNames | src/components/charts/ExtremesScatterChart.tsx:32-47 | the series names and the axis categories are each source once, in order of first appearance |
| ExtremesScatter.SourcePointsExact | src/components/charts/ExtremesScatterChart.tsx:16-29 | a source's series holds exactly the unchanged points of that source's articles |
| ExtremesScatter.TotalPointsAll | src/components/charts/ExtremesScatterChart.tsx:16-35 | the series hold as many points as there are articles |
| DateRanges.WindowBounds | src/lib/dateRanges.ts:16-23 | the end is today minus the offset (0 by default), the start is `lengthDays` before it, and start ≤ end exactly when `lengthDays >= 0` |
| DateRanges.WindowsAdjacent | src/lib/dateRanges.ts:11-14 | the window shifted back by its length ends where the unshifted one starts |
| DateRanges.IsoDate | src/lib/dateRanges.ts:25 | the printed day has the ten-character `yyyy-MM-dd` shape |
| DateRanges.IsoDateOrder | src/lib/dateRanges.ts:25 | printing preserves the order of days and is one-to-one |
| DateRanges.GetWindow | src/lib/dateRanges.ts:16-31 | both printed ends have the `yyyy-MM-dd` shape |
| DateRanges.GetWindowEnd | src/lib/dateRanges.ts:16-20 | with the default offset, the window ends on today's date |
| DateRanges.GetWindowShift | src/lib/dateRanges.ts:16-23 | an offset is the same window computed from a today that is offset days earlier |
| DateRanges.GetWindowOrdered | src/lib/dateRanges.ts:19-30 | the printed start is not after the printed end exactly when `lengthDays >= 0`, and they are equal exactly when it is 0 |
| DateRanges.GetWindowAdjacent | src/lib/dateRanges.ts:11-14 | `getWindow(L, o + L).end == getWindow(L, o).start` |
| MaxEntry.MaxEntry | src/lib/utils.tsx:14-19 | the result is the seed or an entry, and no entry's value is greater |
| MaxEntry.MaxEntryEmpty | src/lib/utils.tsx:15-18 | an empty object yields `["", -Infinity]` |
| MaxEntry.MaxEntryEarliest | src/lib/utils.tsx:16 | on ties the earliest maximal entry wins |
| MaxEntry.MaxEntryIsEntry | src/lib/utils.tsx:15-18 | with every value above -Infinity, a non-empty object yields one of its entries |
| TagInput.AddedTags | src/components/ui/tag-input.tsx:18-22 | `onChange` is called exactly for a non-blank trimmed text not yet listed, with that text appended and the tags kept in order |
| TagInput.AddedTagsNoDups | src/components/ui/tag-input.tsx:20-21 | adding keeps a list without duplicates, and the new tag is non-empty and trimmed |
| TagInput.AddedTagsTwice | src/components/ui/tag-input.tsx:20 | adding the same text again adds nothing |
| TagInput.TagInputState.AddTag | src/components/ui/tag-input.tsx:18-24 | hands on the list above and always clears the typed text |
| TagInput.RemovedTags | src/components/ui/tag-input.tsx:26-28 | every occurrence goes, all other tags keep their order, and a list without duplicates stays without |
| TagInput.TagInputState.RemoveTag | src/components/ui/tag-input.tsx:26-28 | hands on the list without the tag |
| TagInput.TagInputState.KeyDown | src/components/ui/tag-input.tsx:54-58 | Enter and "," add the typed text; other keys change nothing |
| SourceSelector.Toggle | src/components/elements/SourceSelectorMulti.tsx:37-43 | the toggled value is selected afterwards exactly when it was not before; every other value is kept as often as it was |
| SourceSelector.ToggleFlips | src/components/elements/SourceSelectorMulti.tsx:37-43 | toggling flips the option's membership and no other, and keeps a list without duplicates without |
| SourceSelector.ToggleOrder | src/components/elements/SourceSelectorMulti.tsx:38-41 | removal keeps the others in order; an absent value is appended at the end |
| SourceSelector.ToggleTwice | src/components/elements/SourceSelectorMulti.tsx:37-43 | toggling an absent value twice restores the list |
| SourceSelector.TriggerLabel | src/components/elements/SourceSelectorMulti.tsx:49-50 | the trigger reads "Select sources" exactly when nothing is selected |
| SourceSelector.TriggerLabelInjective | src/components/elements/SourceSelectorMulti.tsx:50 | the label shows the count: equal labels mean equal counts, and "Select sources" means none |
| CardSentiment.Delta | src/components/elements/CardSentiment.tsx:35-38 | the difference when both values are present, else 0 |
| CardSentiment.Percent | src/components/elements/CardSentiment.tsx:40-43 | defined exactly for a present, non-zero previous value, and then `percent * prev == delta * 100` |
| CardSentiment.BadgeWhenPrevious | src/components/elements/CardSentiment.tsx:35-67 | the badge shows exactly when not loading with a non-zero previous value; with a positive one, the percentage has the sign of the change |
| CardSentiment.ValueShown | src/components/elements/CardSentiment.tsx:58-63 | a spinner while loading, then the value, or a dash when there is none |
| TrendBadge.DirectionExclusive | src/components/elements/TrendPercentBadge.tsx:25-26 | up and down exclude each other, and a zero change is neither |
| TrendBadge.TrendIcon | src/components/elements/TrendPercentBadge.tsx:27-31 | ArrowUp, ArrowDown or Zap, exactly for up, down and no change |
| TrendBadge.TrendColor | src/components/elements/TrendPercentBadge.tsx:32-36 | green, red or gray, exactly for up, down and no change |
| TrendBadge.Tooltip | src/components/elements/TrendPercentBadge.tsx:38-40 | "Increased…" when up; every other case, zero included, "Decreased…" |
| TrendBadge.BadgeConsistent | src/components/elements/TrendPercentBadge.tsx:27-40 | the tooltip starts with "Increased" exactly when up, and icon and colour agree |
| Sorting.SortInPlace | src/components/charts/TrendingPhrasesTable.tsx:42 | `arr.sort`: the array ends sorted, is a permutation of what it was, and is stable: the elements that tie with any given value keep their relative order |
| Sorting.SinkInto | src/components/charts/TrendingPhrasesTable.tsx:42 | one insertion pass: the next element joins the sorted prefix, with permutation and stability kept |
| Sorting.SortedCopy | src/components/charts/TrendingPhrasesTable.tsx:55-61 | `slice().sort`: a sorted, stable permutation of the input |
| Sorting.StableSortUnique | src/components/charts/TrendingPhrasesTable.tsx:51-61 | two sorted sequences that agree on the order of every class of tied elements are equal, so the stable sort has exactly one possible result |
| Sorting.SortBy | src/components/charts/TrendingPhrasesTable.tsx:74 | `.sort` on a fresh array: a sorted permutation |
| Text.Trim | src/components/ui/tag-input.tsx:19 | `trim`: the infix of the text between a whitespace-only prefix and a whitespace-only suffix, with no whitespace at either end, and empty exactly when the text is all whitespace |
| Text.Includes | src/components/charts/TrendingPhrasesTable.tsx:55 | `includes` holds exactly when the needle occurs at some position |
| Text.IntToStringInjective | src/components/elements/CustomPagination.tsx:90 | different numbers print differently |
| Text.DecimalRoundTrip | src/components/charts/SentimentOverTimeChart.tsx:23 | `Number` reads back what `String` printed |
| OrderedMaps.OMap.Put | src/components/charts/TrendingPhrasesTable.tsx:34-36 | `set` updates the entry and appends a new key at the end of the key order |

## Left out

- HTTP fetching, React page state, and Highcharts set-up and updates are not part of this model. They are network I/O and calls into a foreign library.
- `pearson` and the two-decimal rounding are not modelled (`src/components/charts/CorrelationHeatmapChart.tsx:38-48` and `:58`).
  - They rest on floating-point means and `Math.sqrt`.
  - The heatmap transform takes the coefficient as a function parameter on the pair list instead.
- Floating point in general: scores, deltas and percentages are `real`, and NaN and infinities are not modelled. `getMaxEntry`'s `-Infinity` seed is an explicit extended value.
- SentimentOverTime.GenerateCategories: requires both strings to name real dates with four-digit years.
  - The `Date` constructor also normalises out-of-range months and days, maps years below 100 to the 1900s, and turns non-numeric parts into NaN, which yields no categories.
  - None of these paths is modelled.
- DateRanges.GetWindow requires both ends to be days of the years 1 through 9999, where `toISOString` prints a four-digit year.
  - Time zones are not modelled: `setDate` works on local time while `toISOString` prints UTC, and the model takes a single calendar.
  - Today's date is a parameter, not a reading of the clock.
- DateRanges.GetWindowEnd: states the end for the default offset only. For other offsets, GetWindowShift reduces the window to that case, and WindowBounds states the end day for any offset.
- Pagination.TotalPages: requires `itemsPerPage > 0`. A zero page size divides by zero in the source and is not modelled.
- `localeCompare` is modelled as code-point lexicographic order (`Text.StrLt`), not locale collation. `toLowerCase` is ASCII only.
- The built-in sort's algorithm is not modelled; an insertion sort stands in for it. StableSortUnique shows that any stable sort by the same comparator gives the same result.
- Key order:
  - JavaScript objects list integer-like keys first; source names and `word__month` keys are taken not to be integer-like.
  - The order of the heatmap cells is that of the nested key enumeration. Only soundness, completeness and uniqueness of the cells are stated about the output as a whole.
- Source names used as plain-object keys are taken not to be property names inherited from `Object.prototype` (`constructor`, `toString`, `__proto__`, …). ColorOf models those inherited names; the source-keyed objects do not.
  - In `src/components/charts/ExtremesScatterChart.tsx:18-22`, such a name finds the inherited member, so no array is created and `.push` throws.
  - In `src/components/charts/CorrelationHeatmapChart.tsx:18-30`, `__proto__` is not stored as an own key, and a `constructor` entry lands on the inherited `Object` function, which `Object.entries` at :53 does not list.
  - CollectSeries, BuildMatrix, BuildCorrelations and CellsComplete hold for every other source name.
- Aliasing: the nested `Map`s and objects are modelled as values. A bucket updated through `get(...).push` is written back with `Put`.
- The tag input is modelled as a class:
  - `value` is the prop from the parent;
  - `Receive` stands for the parent re-rendering with a new list;
  - `Type` stands for typing;
  - `preventDefault` and rendering are not modelled.
- TrendBadge.Tooltip: takes the previous value already printed (`prevShown`). `toLocaleString` and template number formatting are not modelled, and neither is the printed number in the card's value slot.
- Not part of this model:
  - `highlightText`, because it is regex semantics over unescaped user text;
  - `cn` and `formatDate`;
  - the sentiment categorizers and `getDateRange`, whose code is not in `src/lib/utils.tsx`;
  - the date-range picker presets, layout titles, sidebar and static pages, and the raw data viewer.
