# PSR Q3 payment dashboard: the data pipeline, in Dafny

The dashboard loads a table of Pakistani payment-system statistics. Each row
has a `Transaction Type`, a `Sub_type` and, for each of five quarters
(Q3 FY24 to Q3 FY25), a volume column and a value column. The page lets the
user narrow the rows by type and sub-type, pick a metric and a quarter, and
search the table. It shows four summary cards, a line chart of the ten
largest type/sub-type series, one pie chart per quarter, and a CSV export of
the selection.

This project models the computations behind those views and proves what
they promise:

- `Numbers`: `cleanNumber`. It removes whitespace, no-break spaces and
  commas, reads the longest numeric prefix as `parseFloat` does, and falls
  back to 0.
- `Rows`: the row, the quarters, the metrics, and the column names built from
  them.
- `Filters`:
  - the type/sub-type selection of `applyFilters`;
  - the "non-zero Q3 FY25 volume" selection of `resetFilters`;
  - the sub-type options of `updateSubTypeOptions`;
  - the case-insensitive table search of `updateTable`.
- `Summary`: the cards of `updateSummary`, that is, the two totals and the
  two distinct counts.
- `Ranking`: the stable descending sort that `Array.prototype.sort` performs
  with a `b - a` comparator. It is given both as a specification function and
  as an in-place insertion sort on an array.
- `Trend`: `updateChart`. A loop groups the selection by
  "type - sub-type", and the first row of each key wins. The groups are then
  ranked by their five-quarter total, and the ten largest are kept.
- `Pie`: `updatePieCharts`. With one type selected, each quarter gets that
  type's rows, taken from all rows and not only the selection, sorted in
  place by value.
- `Export`: the CSV text of `exportToCSV`. It uses a fixed header and quotes
  only fields that contain a comma. It comes with a reference reader, used to
  state what a reader gets back.
- `Page`: the page state as a class. `allData` and `filteredData` are
  fields, and so are the three selector values. Its methods are the event
  handlers that reassign them.

Numbers are modelled as exact reals. A cell that is absent and a cell that
is empty both count as 0, as the `|| 0` fallbacks do.

## Model

| member | source | states |
|---|---|---|
| Numbers.Strip | script.js:492 | no whitespace, no-break space or comma is left in the cleaned text, and every other character of the cell is kept, as often as it occurs and in its order |
| Numbers.TrimAfterStrip | script.js:492 | the `.trim()` after the replacement never changes anything |
| Numbers.SeparatorInsensitive | script.js:491-493 | inserting a space, no-break space or comma anywhere in a cell does not change its cleaned number |
| Numbers.ParseFloatFails | script.js:493 | `parseFloat` fails exactly when the text does not start with an optional sign followed by a digit, or by a point and a digit |
| Numbers.DecimalPrefix | script.js:493 | `digits.digits` followed by any text that cannot continue it (anything but a digit, or `e`/`E` with an optionally signed digit) parses to the decimal value of the digits; the rest is ignored |
| Numbers.IntegerPrefix | script.js:493 | a run of digits followed by any text that cannot continue it (anything but a digit, a point, or `e`/`E` with an optionally signed digit) parses to the integer value of the digits |
| Numbers.NegativePrefix | script.js:493 | a leading minus negates the parse of the rest, and fails when the rest fails |
| Numbers.CleanDecimal | script.js:491-494 | a cell that is a decimal numeral once separators are removed cleans to that numeral's value |
| Numbers.ThousandsSeparatorExample | script.js:491-494 | "1,234.50" cleans to 1234.5 |
| Numbers.UnitSuffixExample | script.js:493 | "12.5eur" parses to 12.5: an `e` without exponent digits ends the numeral |
| Numbers.FailedParsesAreZero | script.js:493 | unparseable text, the empty cell and the absent cell all give 0 |
| Rows.MetricSuffix | script.js:171 | capitalising the metric selector's value (`volume`/`value`) gives the column suffix (`Volume`/`Value`) |
| Rows.ColumnsDistinct | script.js:334 | the ten quarter/metric columns have distinct names |
| Rows.SeriesReadsTemplate | script.js:333-334 | entry i of a row's series is the cleaned cell named by the chart's template: quarter i, `_`, and the capitalised metric selector value |
| Rows.FallbackIsNeutral | script.js:334 | `cell \|\| 0` gives 0 both for an empty and for an absent cell |
| Seqs.DistinctInOrderSpec | script.js:127-131 | `[...new Set(xs)]` has no duplicates, contains exactly the elements of `xs`, and orders them by first occurrence |
| Filters.ApplyFilters | script.js:147-154 | the selection contains exactly the rows matching both selectors, each as often as in the data, in data order |
| Filters.SelectAllKeepsEverything | script.js:148-151 | with both selectors on 'all', every row is selected |
| Filters.SelectedRowsCarrySelection | script.js:148-151 | with a type (and a sub-type) selected, every selected row has that type (and that sub-type) |
| Filters.ResetColumn | script.js:168-171 | the reset filter's computed column name is the Q3 FY25 volume column |
| Filters.ResetRows | script.js:170-173 | the reset selection contains exactly the rows whose cleaned Q3 FY25 volume is non-zero, in data order |
| Filters.SubTypeOptions | script.js:114 | the first option is always 'all' |
| Filters.SubTypeOptionsSpec | script.js:114-131 | after 'all', each sub-type of the rows of the selected type (all rows for 'all') appears exactly once, ordered by first appearance |
| Filters.TypeOptionsSpec | script.js:89 | the type selector lists each transaction type once, only types that occur, in first-seen order |
| Filters.ContainsIff | script.js:216 | `includes` holds exactly when the term occurs as a substring |
| Filters.TableRows | script.js:211-217 | the table shows the rows of the chosen source, filtered or all, whose lower-cased type or sub-type contains the lower-cased term, each as often as in the source, in order |
| Filters.EmptySearchShowsAll | script.js:209-216 | an empty search shows the whole source |
| Filters.SearchIgnoresCase | script.js:209-216 | a search term and its lower-case form show the same rows |
| Filters.TypeMatchIsListed | script.js:213-216 | a row whose type contains the term, ignoring case, is listed |
| Summary.Summarize | script.js:190-199 | the counts are at most the number of rows and at least 1 when there are rows; no rows gives all zeros |
| Summary.SumAppend | script.js:190-196 | the totals add up over concatenated selections |
| Summary.SetsAppend | script.js:198-199 | the distinct types (sub-types) of two selections together are the union of each one's |
| Summary.SummarizeAppend | script.js:190-199 | the summary of two selections together: the totals add up and the counts are the sizes of the unions of the distinct values |
| Summary.SumSplits | script.js:190-196 | the total of a filter plus the total of its complement is the total of all rows |
| Summary.ResetKeepsVolumeTotal | script.js:168-173 | the reset selection has the same Q3 FY25 volume total as all rows, since it drops only zero-volume rows |
| Summary.SelectedCounts | script.js:198-199 | with a type (sub-type) selected, the type (sub-type) count is at most 1 |
| Summary.SubTypeCountMatchesOptions | script.js:199 | over all rows, the sub-type count equals the number of sub-type options after 'all' |
| Ranking.SortDescSpec | script.js:349-354 | the sort orders by non-increasing key and is a permutation |
| Ranking.SortDescStable | script.js:479 | the elements of any one key keep their relative order |
| Ranking.SortDescMembers | script.js:479 | the sort neither adds nor loses elements |
| Ranking.InsertLast | script.js:479 | one insertion step places `a[i]` among the sorted prefix, after every element not smaller, and leaves the rest of the array alone |
| Ranking.SortInPlace | script.js:479 | the array ends up as the stable descending sort of its old contents |
| Trend.UpdateChart | script.js:326-355 | the grouping loop and the in-place sort produce exactly the top ten groups by total |
| Trend.GroupValues | script.js:349 | `Object.values` of the grouping map lists the groups in key insertion order |
| Trend.GroupsSpec | script.js:328-346 | there is one group per distinct key, in first-appearance order, and its series is that of the key's first row |
| Trend.GroupNamesDistinct | script.js:330 | no two groups share a label |
| Trend.TopTrendSize | script.js:355 | the chart has min(10, number of groups) datasets |
| Trend.TopTrendSorted | script.js:350-354 | datasets are in non-increasing order of total |
| Trend.TopTrendFromGroups | script.js:328-355 | every dataset shown is a group of the selection, with the series of its key's first row |
| Trend.TopTrendIsTop | script.js:348-355 | every group left out has a total no larger than every group shown |
| Trend.TopTrendTies | script.js:350-355 | among groups of equal total, those shown are the first ones in first-appearance order |
| Pie.PieSpec | script.js:446-457 | labels and data have equal length; with 'all' selected every chart is empty |
| Pie.UpdatePieCharts | script.js:443-489 | five charts, one per quarter in order, each equal to that quarter's specification |
| Pie.QuarterPie | script.js:472-481 | the in-place sort of the slices, split into labels and data, is the stable descending order of the slices |
| Pie.PieSorted | script.js:479 | the data are in non-increasing order |
| Pie.PieContents | script.js:459-477 | the slices are exactly those of the rows of the selected type, with multiplicity |
| Pie.PieLabels | script.js:459-480 | every label is a sub-type of a row of the selected type, and every such row has its slice |
| Pie.PieTies | script.js:479 | slices of equal value keep the row order |
| Export.HeadersLayout | script.js:392 | the header is the two classification columns, then volume and value for each quarter in order |
| Export.DecodeOne | script.js:399 | a field without a double quote, encoded, reads back as itself, whether or not it contained a comma |
| Export.SplitJoin | script.js:400-402 | splitting a join on its separator gives the parts back when none contains the separator |
| Export.HeaderFirst | script.js:394-395 | the header line always comes first, and alone when nothing is selected |
| Export.CsvLayout | script.js:394-402 | with no line break in any field, the file's lines are the header and then one line per selected row |
| Export.LineRoundTrip | script.js:396-400 | with no double quote in any field, a row's line reads back as its twelve field texts, with an absent field read as empty |
| Export.QuoteBreaksField | script.js:399 | a field with both a quote and a comma does not read back: `a",b` comes back as two fields |
| Page.Dashboard.Load | script.js:44-50 | after loading, every row is selected, both selectors read 'all' and the sub-type list holds every sub-type |
| Page.Dashboard.UpdateSubTypeOptions | script.js:110-140 | the options are rebuilt for the selected type and the selector falls back to 'all'; nothing else changes |
| Page.Dashboard.ApplyFilters | script.js:143-154 | the selection is recomputed from all rows and the two selectors; the page stays valid |
| Page.Dashboard.ResetFilters | script.js:163-179 | the selectors return to 'all', 'all' and volume, and the selection becomes the rows with non-zero Q3 FY25 volume |
| Page.Dashboard.SelectType | script.js:68-72 | choosing a type rebuilds the sub-type list and selects that type's rows |
| Page.Dashboard.SelectSubType | script.js:73-76 | choosing an offered sub-type narrows the selection to it |
| Page.Dashboard.SelectMetric | script.js:77-80 | changing the metric re-applies the selectors, which drops a reset selection |
| Page.Dashboard.Cards | script.js:187-205 | the cards summarise the selection; the counts are bounded by its size and by the numbers of distinct types and sub-types among all loaded rows |
| Page.Dashboard.TrendChart | script.js:319-360 | at most ten datasets, in non-increasing order of total |
| Page.Dashboard.PieChart | script.js:443-489 | labels and data have equal length, and the charts are empty when every type is selected |
| Page.Dashboard.ExportText | script.js:391-402 | the export of an empty selection is the header line alone |
| Page.Dashboard.Table | script.js:208-217 | the table lists a subsequence of the chosen source, and only loaded rows |

## Left out

- Loading: `fetch`, Papa Parse and its trim-and-unquote transform (script.js:32-58). The parsed rows are the parameter of `Page.Dashboard.Load`, and a failed load, with its alert, is not modelled.
- Rendering: DOM building and event wiring, the table cells (script.js:219-236), the quarter label of the summary cards, and every Chart.js call, including the y-axis title (script.js:358) and the `if (chart)` guards.
- `getRandomColor` and the pie palette: colours are random or purely cosmetic.
- `formatNumber`: number formatting for display only.
- The Blob, object URL and download link of the export (script.js:404-410): the model stops at the CSV text.
- Floating point: sums are exact reals. The model has no rounding, no `Infinity`/`NaN` text, no overflow and no negative zero. The trend chart's `isNaN` warning cannot fire, because `cleanNumber` never returns NaN.
- Numbers.ParseFloatFails: `parseFloat` also accepts the prefix `Infinity`, which is not modelled; such text is read as non-numeric.
- `toLowerCase` and `toUpperCase` are modelled on ASCII letters only; other characters are left unchanged.
- Every row is assumed to carry both classification columns. A row without `Transaction Type` or `Sub_type` would make the table search throw.
- The metric selector's value is one of `volume`/`value`, and the summary quarter selector's value is one of the five quarters (`Metric`, `Quarter`).
- A sub-type that is literally named `all` cannot be selected apart from "All Sub Types", because both options have the value 'all'. The model keeps this behaviour.
- Page.Dashboard.Table: the search term is a parameter. Handling keystrokes and switching between the filtered and all-rows tables only re-runs it.
- The page's starting values are taken from its HTML, which is not part of this model: both selectors start on 'all' and the metric on volume (`Page.Dashboard.Load`), and the type selector's first option is 'all' (`Filters.TypeOptions`).
