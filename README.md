# anomaly-watch, modelled in Dafny

anomaly-watch is a browser tool. It reads a CSV file and lets the user pick a
date column and a value column, with keyword-based suggestions for both. It
then flags every point whose z-score against the whole series exceeds a
sensitivity threshold. Each flagged point is a spike above the mean or a dip
below it. The page ranks the spikes and dips and hands the two most extreme of
each to a summary. That summary compares them with a median-like baseline.

This project models that pipeline and proves what it promises:

- `CsvParser` (src/utils/dataProcessing.ts, `parseCSV`) splits and trims lines and cells. It drops blank lines and pairs cells with headers by position.
- `AnomalyDetector` (src/utils/dataProcessing.ts, `detectAnomalies`) covers projection, filtering, stable sorting by timestamp, the population mean and variance, z-scores and classification.
- `Statistics` holds sums, mean, variance and Samuelson's inequality (no point lies more than `sqrt(n - 1)` standard deviations from the mean).
- `Numbers` holds JavaScript's division by zero (`Infinity`, `-Infinity`, `NaN`) and its comparisons with `NaN`.
- `ColumnSuggestion` (src/components/ColumnSelector.tsx) covers the keyword scores, the two `forEach` loops, the fallbacks, the confidence and the auto-fill. The `ColumnSelector` class holds the suggestion state and `applySuggestions`.
- `IndexPage` (src/pages/Index.tsx) has a `Page` class with the page's state hooks, the upload, processing and reset handlers, and the anomaly, spike and dip derivations with the top-2 slices.
- `InsightsSummary` (src/components/InsightsSummary.tsx) has the in-place sort of the copied values, the baseline, and the sign rule of the percent change.
- `SensitivitySlider` (src/components/SensitivitySlider.tsx) has the threshold's label and colour bands.
- `Sequences` and `Wrappers` are generic: filter, count, a stable insertion sort that is proved to be the only stable sort, and `Option`.

The host library is passed in as a `Host` value: `new Date(s).getTime()` and
`parseFloat(s)` as partial functions, and `Math.sqrt` as a function on reals.
Facts about z-scores that need an exact square root take it as a hypothesis:
`sqrt(v) >= 0` and `sqrt(v)^2 == v`.

Edge cases that the model keeps as the code has them:

- **Text with no content line.** The code reads `lines[0].split` on `undefined` and throws inside `onload`, so the upload never resolves. The model returns `None`, and `Page.HandleFileUpload` then changes nothing.
- **Zero standard deviation.** The code computes `0 / 0 = NaN` for every z-score, so nothing is flagged. If the host's `sqrt` returned 0 for a non-zero deviation, the z-score would be `±Infinity` and the point would be flagged. The model keeps `NaN` and the infinities.
- **A `__proto__` header.** Assigning a string to `row['__proto__']` goes to the inherited prototype setter, which ignores it. So the row gets no key of that name, `Object.keys` lists no such column, and the model does the same (`CsvParser.ProtoHeaderAssignsNothing`).
- **The four-reading example** (100, 102, 98, 500). The mean is 200 and the population variance is 30002. So the standard deviation is about 173.2 and the last z-score about 1.73, and nothing is flagged at 2.5 (`AnomalyDetector.FourDailyReadings`).
- **Short series.** By Samuelson's inequality, a series with `n - 1 <= t^2` points can flag nothing at threshold `t`. At the default 2.5 a series needs at least 8 points before anything can be flagged. The five readings 100, 102, 98, 500, 5000 therefore flag nothing: the largest z-score is about 1.99, below 2, the Samuelson bound `sqrt(4)`.

## Model

| member | source | states |
|---|---|---|
| CsvParser.Split | src/utils/dataProcessing.ts:15 | `split` yields at least one piece |
| CsvParser.SplitPiecesFree | src/utils/dataProcessing.ts:15 | no piece of a split contains the separator |
| CsvParser.JoinSplit | src/utils/dataProcessing.ts:15 | joining the pieces with the separator gives back the text |
| CsvParser.SplitJoin | src/utils/dataProcessing.ts:19 | splitting separator-free pieces joined by the separator gives back the pieces |
| CsvParser.SplitAppend | src/utils/dataProcessing.ts:15 | splitting `a + sep + b` is splitting `a` followed by splitting `b` |
| CsvParser.TrimSpec | src/utils/dataProcessing.ts:16 | `trim` keeps a contiguous middle with only whitespace cut on either side; the result is empty iff the text is all whitespace, else it starts and ends with non-whitespace |
| CsvParser.TrimIdempotent | src/utils/dataProcessing.ts:16 | trimming twice is trimming once |
| CsvParser.IsWhitespace | src/utils/dataProcessing.ts:16 | the characters `trim` removes: the ECMAScript white space and line terminators (definition; used by TrimSpec) |
| CsvParser.IsContentLineIff | src/utils/dataProcessing.ts:15 | a line survives the filter iff it is not all whitespace |
| CsvParser.IsContentLine | src/utils/dataProcessing.ts:15 | the filter's test: the trimmed line is non-empty (definition; stated by IsContentLineIff) |
| CsvParser.Fields | src/utils/dataProcessing.ts:19 | a line yields one trimmed cell per comma-separated piece |
| CsvParser.Trim | src/utils/dataProcessing.ts:16 | `trim` as leading and then trailing whitespace removed (definition; stated by TrimSpec) |
| CsvParser.ContentLines | src/utils/dataProcessing.ts:15 | the newline-separated lines that are not blank, in order (definition; stated by IsContentLineIff and BlankLineIgnored) |
| CsvParser.Cell | src/utils/dataProcessing.ts:22 | the cell at a header's position, `undefined` past the end of the line (definition) |
| CsvParser.RowOfLookup | src/utils/dataProcessing.ts:20-23 | the row's keys are exactly the header names other than `__proto__`, and each of them holds the cell at its last position, `undefined` when the line is too short |
| CsvParser.RowOfKeys | src/utils/dataProcessing.ts:21-22 | the row has one key per distinct header name other than `__proto__` |
| CsvParser.RowOfValues | src/utils/dataProcessing.ts:21-22 | with duplicate names, the later position's cell wins |
| CsvParser.ProtoHeaderAssignsNothing | src/utils/dataProcessing.ts:21-22 | a `__proto__` header, wherever it stands, gives the row no key of that name |
| CsvParser.RowOf | src/utils/dataProcessing.ts:20-23 | the row object: one assignment per header in order, later duplicates overwriting, `__proto__` assigning nothing (definition; its keys and values are stated by RowOfLookup) |
| CsvParser.ExtraCellsDropped | src/utils/dataProcessing.ts:21-22 | cells beyond the last header do not change the row |
| CsvParser.RowOfCellsAgree | src/utils/dataProcessing.ts:21-22 | the row depends only on the cells at header positions |
| CsvParser.BuildRow | src/utils/dataProcessing.ts:20-24 | the `forEach` of assignments builds the row that pairs headers and cells by position |
| CsvParser.TableOf | src/utils/dataProcessing.ts:16-25 | no lines fail; otherwise the header is the first line's fields and there is one row per remaining line |
| CsvParser.ParseLines | src/utils/dataProcessing.ts:16-25 | the row-building loop computes the table of the content lines |
| CsvParser.ParseText | src/utils/dataProcessing.ts:15-25 | `parseCSV`'s text step computes the table of the text |
| CsvParser.ParseCsv | src/utils/dataProcessing.ts:15-25 | `parseCSV` on the file's text: `None` when no line has content, else the table of the content lines (definition; stated by ParseFailsIffAllBlank and ParsedRows) |
| CsvParser.ParseFailsIffAllBlank | src/utils/dataProcessing.ts:15-16 | parsing fails exactly when every line is blank |
| CsvParser.NoContentIffAllBlank | src/utils/dataProcessing.ts:15 | no line survives exactly when all lines are blank |
| CsvParser.ParsedRows | src/utils/dataProcessing.ts:15-25 | the header is the first surviving line and row `r` pairs it with surviving line `r + 1`, in input order |
| CsvParser.TableRows | src/utils/dataProcessing.ts:18-25 | each row of the table is built from its own line |
| CsvParser.SplitOfWhitespaceIsBlank | src/utils/dataProcessing.ts:15 | an all-whitespace stretch contributes no content line |
| CsvParser.BlankLineIgnored | src/utils/dataProcessing.ts:15 | inserting a blank line anywhere leaves the parse unchanged |
| AnomalyDetector.Lookup | src/utils/dataProcessing.ts:43-44 | `row[column]` is defined iff the key exists and the row had a cell for it |
| AnomalyDetector.Project | src/utils/dataProcessing.ts:42-46 | a row yields an observation iff both its cells exist and parse, and then the observation holds the parsed timestamp and number |
| AnomalyDetector.Survivors | src/utils/dataProcessing.ts:41-46 | the projected rows that pass the filter, at most one per row |
| AnomalyDetector.ParsedData | src/utils/dataProcessing.ts:41-47 | the parsed data is in timestamp order and a permutation of the surviving observations |
| AnomalyDetector.DateKey | src/utils/dataProcessing.ts:47 | the comparator's key, the timestamp in milliseconds (definition) |
| AnomalyDetector.Values | src/utils/dataProcessing.ts:50 | one value per observation, in order |
| AnomalyDetector.StdDev | src/utils/dataProcessing.ts:53 | `Math.sqrt` of the population variance as the host computes it (definition; facts that need an exact root take it as a hypothesis) |
| AnomalyDetector.SurvivorsMembers | src/utils/dataProcessing.ts:41-46 | an observation survives iff some row's date and value both parse to it |
| AnomalyDetector.SurvivorsCount | src/utils/dataProcessing.ts:41-46 | there is one survivor per row whose two cells parse |
| AnomalyDetector.SurvivorsAppend | src/utils/dataProcessing.ts:41-46 | survivors of concatenated rows are the concatenated survivors, so input order is kept |
| AnomalyDetector.ParsedDataIsStableSort | src/utils/dataProcessing.ts:47 | the parsed data is sorted by timestamp, is a permutation of the survivors, and keeps the input order of equal timestamps |
| AnomalyDetector.SortedInputKeepsOrder | src/utils/dataProcessing.ts:47 | survivors already in timestamp order are left as they are |
| AnomalyDetector.Classify | src/utils/dataProcessing.ts:59-66 | a point keeps its date and value, its z-score is `(value - mean) / stdDev` with JavaScript's division, it is anomalous iff `Math.abs` of the z-score exceeds the threshold, it has a type iff it is anomalous, and the type is spike iff the z-score is above 0, else dip |
| AnomalyDetector.Detect | src/utils/dataProcessing.ts:50-68 | one output point per parsed observation |
| AnomalyDetector.DetectAnomalies | src/utils/dataProcessing.ts:34-69 | one point per parsed observation, so never more points than rows |
| AnomalyDetector.DetectKeepsObservations | src/utils/dataProcessing.ts:58-63 | the output carries every parsed date and value through unchanged, in order |
| AnomalyDetector.OutputSortedByDate | src/utils/dataProcessing.ts:47-58 | the output is in non-decreasing timestamp order |
| AnomalyDetector.NoValidRowsNoPoints | src/utils/dataProcessing.ts:41-58 | when no row parses, the output is empty |
| AnomalyDetector.ClassifyDirection | src/utils/dataProcessing.ts:65 | for a non-negative stdDev, a point is a spike iff anomalous and above the mean, and a dip iff anomalous and at or below it |
| AnomalyDetector.ClassifySquared | src/utils/dataProcessing.ts:59-60 | for an exact positive stdDev and a threshold `t >= 0`, a point is anomalous iff `(v - mean)^2 > t^2 * variance` |
| AnomalyDetector.ThresholdMonotone | src/utils/dataProcessing.ts:60 | a point anomalous at a higher threshold is anomalous at a lower one |
| AnomalyDetector.DetectThresholdMonotone | src/utils/dataProcessing.ts:58-60 | raising the threshold never adds an anomaly, pointwise and in number |
| AnomalyDetector.ConstantSeriesFlagsNothing | src/utils/dataProcessing.ts:51-60 | an all-equal series flags nothing, whatever `sqrt` returns |
| AnomalyDetector.FewPointsFlagNothing | src/utils/dataProcessing.ts:50-60 | with an exact square root and `n - 1 <= t^2`, nothing is flagged |
| AnomalyDetector.DefaultThresholdNeedsEightPoints | src/utils/dataProcessing.ts:38-60 | at thresholds of at least 2.5, at most seven points flag nothing |
| AnomalyDetector.FourDailyReadings | src/utils/dataProcessing.ts:50-60 | the readings 100, 102, 98, 500 have mean 200 and variance 30002 and flag nothing at 2.5 |
| Statistics.DeviationsFromMeanCancel | src/utils/dataProcessing.ts:51 | deviations from the mean sum to zero |
| Statistics.Sum | src/utils/dataProcessing.ts:51 | the `reduce` sum from the left starting at 0 (definition; additivity in SumAppend) |
| Statistics.Square | src/utils/dataProcessing.ts:52 | `Math.pow(d, 2)` as `d * d` (definition; sign and order in SquareSign and SquareMonotone) |
| Statistics.SquareSign | src/utils/dataProcessing.ts:52 | a square is non-negative, and zero only for 0 |
| Statistics.SquareMonotone | src/utils/dataProcessing.ts:52-53 | between non-negative numbers, squaring keeps the order |
| Statistics.SumAppend | src/utils/dataProcessing.ts:51 | the sum of a concatenation is the sum of the sums |
| Statistics.Mean | src/utils/dataProcessing.ts:51 | the sum divided by the number of values (definition) |
| Statistics.Variance | src/utils/dataProcessing.ts:52 | the squared deviations from the mean, summed and divided by N (definition) |
| Statistics.VarianceNonNegative | src/utils/dataProcessing.ts:52 | the population variance is non-negative |
| Statistics.VarianceZeroIffConstant | src/utils/dataProcessing.ts:51-52 | the variance is zero iff every value equals the mean |
| Statistics.ConstantMean | src/utils/dataProcessing.ts:51 | the mean of equal values is that value |
| Statistics.Samuelson | src/utils/dataProcessing.ts:50-53 | every squared deviation is at most `(n - 1)` times the population variance |
| Statistics.DeviationBound | src/utils/dataProcessing.ts:51-52 | for deviations that sum to zero, each square is at most `(n - 1)` times the mean square |
| Statistics.CauchySchwarz | src/utils/dataProcessing.ts:52 | `(sum d)^2 <= n * sum d^2` |
| Numbers.Divide | src/utils/dataProcessing.ts:59 | `a / b` is finite iff `b != 0`, then it times `b` is `a`; it is `NaN` iff both are 0 |
| Numbers.Abs | src/utils/dataProcessing.ts:60 | `Math.abs` is non-negative, keeps finiteness and `NaN`, and maps both infinities to `Infinity` |
| Numbers.Scale | src/components/InsightsSummary.tsx:18 | `* 100` keeps finiteness and `NaN`, and a finite product divided by 100 gives back the number |
| Numbers.GreaterThan | src/utils/dataProcessing.ts:60 | `>` against a threshold, true for `Infinity` and false for `-Infinity` and `NaN` (definition) |
| Numbers.DividePositive | src/utils/dataProcessing.ts:65 | `a / b > 0` iff `a > 0` and `b >= 0`, or both are negative |
| Numbers.ScalePositive | src/components/InsightsSummary.tsx:18 | multiplying by 100 keeps the sign |
| Numbers.RankOrder | src/pages/Index.tsx:43-44 | the sort key orders the non-`NaN` numbers, infinities included, as `<=` does |
| Numbers.Rank | src/pages/Index.tsx:43-44 | the sort key of a z-score, finite and ordered like the numbers (definition; stated by RankOrder) |
| ColumnSuggestion.Lower | src/components/ColumnSelector.tsx:39 | lowercasing keeps the length |
| ColumnSuggestion.KeywordLists | src/components/ColumnSelector.tsx:31-32 | the two keyword lists hold non-empty lowercase words, and no word is in both |
| ColumnSuggestion.ContainsIff | src/components/ColumnSelector.tsx:41 | `includes` holds iff the keyword occurs at some position |
| ColumnSuggestion.Contains | src/components/ColumnSelector.tsx:41 | `includes` as a search from each starting position (definition; stated by ContainsIff) |
| ColumnSuggestion.MissingCharacter | src/components/ColumnSelector.tsx:41 | a keyword with a character the name lacks does not occur in it |
| ColumnSuggestion.KeywordScoreAtLeast | src/components/ColumnSelector.tsx:40-42 | every keyword found adds at least its length |
| ColumnSuggestion.KeywordScoreZero | src/components/ColumnSelector.tsx:40-42 | for non-empty keywords the score is 0 iff no keyword occurs |
| ColumnSuggestion.KeywordScoreOnly | src/components/ColumnSelector.tsx:40-42 | when exactly one keyword occurs, the score is its length |
| ColumnSuggestion.KeywordScoreNone | src/components/ColumnSelector.tsx:58-60 | with no keyword present, the score is 0 |
| ColumnSuggestion.EmptyNameScoresZero | src/components/ColumnSelector.tsx:39-42 | an unnamed column scores 0 |
| ColumnSuggestion.KeywordScore | src/components/ColumnSelector.tsx:40-42 | the `reduce` over the keywords, adding each present keyword's length (definition; stated by KeywordScoreAtLeast and KeywordScoreZero) |
| ColumnSuggestion.Score | src/components/ColumnSelector.tsx:39-42 | a column's keyword score after lowercasing (definition) |
| ColumnSuggestion.Best | src/components/ColumnSelector.tsx:35-66 | the pick of one `forEach` loop (definition; stated by BestSpec) |
| ColumnSuggestion.BestSpec | src/components/ColumnSelector.tsx:35-48 | no considered column scores above the pick; a positive pick is the earliest column with the top score; a zero pick is `''` |
| ColumnSuggestion.PickBest | src/components/ColumnSelector.tsx:35-66 | the `forEach` loop (with an optional skipped column) computes the earliest best pick |
| ColumnSuggestion.FindOther | src/components/ColumnSelector.tsx:74 | `find` returns a column other than the given one, or fails only when every column equals it |
| ColumnSuggestion.FindOtherFirst | src/components/ColumnSelector.tsx:74 | the column `find` returns is the first one that differs from the given column |
| ColumnSuggestion.Confidence | src/components/ColumnSelector.tsx:77 | the confidence lies in [50, 95] and exceeds 70 iff the two scores total at least 3 |
| ColumnSuggestion.SuggestColumns | src/components/ColumnSelector.tsx:30-84 | the effect's statements compute the suggestion of the column list |
| ColumnSuggestion.Suggest | src/components/ColumnSelector.tsx:29-84 | the effect's suggestion with the fixed keyword lists (definition) |
| ColumnSuggestion.SuggestBy | src/components/ColumnSelector.tsx:35-84 | the two loops, the fallbacks and the confidence (definition; stated by DateSuggestion, ValueSuggestion and ValueFallback) |
| ColumnSuggestion.AutoFill | src/components/ColumnSelector.tsx:86-93 | a selection is filled only when empty, the confidence exceeds 70 and there is a suggestion; it is never overwritten |
| ColumnSuggestion.DateSuggestion | src/components/ColumnSelector.tsx:35-71 | the date suggestion is the earliest top-scoring date column, or `columns[0]` when nothing scores |
| ColumnSuggestion.ValueSuggestion | src/components/ColumnSelector.tsx:51-66 | a keyword-found value suggestion is not the loop's date column and is the earliest top scorer among the others |
| ColumnSuggestion.ValueFallback | src/components/ColumnSelector.tsx:51-75 | with no value keyword scoring, the value suggestion stays `''` for one column; otherwise it is the first column other than the date suggestion, or `columns[1]` when that one is unnamed or none exists |
| ColumnSuggestion.DistinctWhenDateFound | src/components/ColumnSelector.tsx:35-75 | with a date keyword found, named columns and another column present, the two suggestions differ |
| ColumnSuggestion.SuggestionsAreNames | src/components/ColumnSelector.tsx:69-75 | with at least two named columns, both suggestions are non-empty |
| ColumnSuggestion.FallbacksScoreNothing | src/components/ColumnSelector.tsx:69-77 | when nothing scores, the confidence is 50 whatever the fallbacks pick |
| ColumnSuggestion.SameColumnTwice | src/components/ColumnSelector.tsx:55-71 | `["amount", "x"]` suggests "amount" for both columns, with confidence 95 |
| ColumnSuggestion.AmountScore | src/components/ColumnSelector.tsx:57-60 | "amount" scores 6 on the value keywords |
| ColumnSuggestion.NoDateKeywordIn | src/components/ColumnSelector.tsx:39-42 | "amount" and "x" score 0 on the date keywords |
| ColumnSuggestion.ColumnSelector.constructor | src/components/ColumnSelector.tsx:22-26 | there is no suggestion at first |
| ColumnSuggestion.ColumnSelector.SuggestionEffect | src/components/ColumnSelector.tsx:29-95 | for non-empty columns, the suggestion is stored and each empty selection is auto-filled; an empty list changes nothing |
| ColumnSuggestion.ProcessButtonGuard | src/components/ColumnSelector.tsx:97 | processing is enabled iff both selections are non-empty, and a click detects iff there is also data |
| ColumnSuggestion.CanProcess | src/components/ColumnSelector.tsx:97 | the button is enabled when both selections are non-empty (definition) |
| ColumnSuggestion.ColumnSelector.ApplySuggestions | src/components/ColumnSelector.tsx:99-104 | with a suggestion, both selections are overwritten by it; otherwise nothing changes |
| IndexPage.Distinct | src/pages/Index.tsx:29 | the keys of a row number at most its headers |
| IndexPage.DistinctSpec | src/pages/Index.tsx:29 | the keys are exactly the header names, without repeats |
| IndexPage.ColumnsOf | src/pages/Index.tsx:29 | the first row's keys: the header names other than `__proto__`, each once, in first-occurrence order, none without a data row (definition) |
| IndexPage.ColumnsAreFirstRowKeys | src/pages/Index.tsx:29 | the columns are the first row's keys, without repeats, and empty iff there is no data row or the first row has no key |
| IndexPage.ColumnsOfKeys | src/pages/Index.tsx:29 | for any table whose first row has the own header names as keys, the columns list exactly those keys once each |
| IndexPage.DetectorOutputWellTyped | src/utils/dataProcessing.ts:59-66 | every detector point has a type iff it is anomalous, and no anomalous point has a `NaN` z-score |
| IndexPage.Anomalies | src/pages/Index.tsx:42 | the flagged points in series order (definition; stated by AnomaliesSpec) |
| IndexPage.Spikes | src/pages/Index.tsx:43 | the spike anomalies sorted by descending z-score (definition; stated by SpikesMembers and SpikesOrder) |
| IndexPage.Dips | src/pages/Index.tsx:44 | the dip anomalies sorted by ascending z-score (definition; stated by DipsMembers and DipsOrder) |
| IndexPage.SpikeKey | src/pages/Index.tsx:43 | the descending comparator's key, the negated rank of the z-score (definition; order stated by SpikesOrder) |
| IndexPage.DipKey | src/pages/Index.tsx:44 | the ascending comparator's key, the rank of the z-score (definition; order stated by DipsOrder) |
| IndexPage.AnomaliesSpec | src/pages/Index.tsx:42 | the anomalies are exactly the flagged points, and they keep a date order |
| IndexPage.AnomalyCount | src/components/InsightsSummary.tsx:39 | the number of anomalies shown is the number of flagged points |
| IndexPage.DetectorAnomaliesInDateOrder | src/pages/Index.tsx:42 | the anomalies of the detector's output are in timestamp order |
| IndexPage.SpikesMembers | src/pages/Index.tsx:43 | the spikes are exactly the anomalies typed spike |
| IndexPage.DipsMembers | src/pages/Index.tsx:44 | the dips are exactly the anomalies typed dip |
| IndexPage.SpikesOrder | src/pages/Index.tsx:43 | the spikes are in non-increasing z-score order |
| IndexPage.DipsOrder | src/pages/Index.tsx:44 | the dips are in non-decreasing z-score order |
| IndexPage.FlaggedTyped | src/pages/Index.tsx:43-44 | an anomaly is a spike iff it is not a dip |
| IndexPage.SpikesAndDipsPartitionAnomalies | src/pages/Index.tsx:42-44 | spikes and dips together are a permutation of the anomalies |
| IndexPage.TopTwo | src/pages/Index.tsx:164-165 | `slice(0, 2)` is a prefix of length `min(2, n)` |
| IndexPage.TopSpikesMostExtreme | src/pages/Index.tsx:164 | the two spikes handed on have z-scores at least those of every other spike |
| IndexPage.TopDipsMostExtreme | src/pages/Index.tsx:165 | the two dips handed on have z-scores at most those of every other dip |
| IndexPage.Page.constructor | src/pages/Index.tsx:19-24 | the page starts empty, with sensitivity 2.5 |
| IndexPage.Page.HandleFileUpload | src/pages/Index.tsx:26-32 | a parsed upload stores the rows and the first row's keys; a failed parse changes nothing; selections, results and sensitivity stay |
| IndexPage.Page.HandleProcessData | src/pages/Index.tsx:34-40 | with data and both selections, the results become the detector's output for the current sensitivity; otherwise they stay |
| IndexPage.CanDetect | src/pages/Index.tsx:35 | processing runs only with data and both columns selected (definition) |
| IndexPage.Page.Reset | src/pages/Index.tsx:125-131 | data, results, columns and both selections are cleared; sensitivity stays |
| InsightsSummary.SortAscending | src/components/InsightsSummary.tsx:25 | the copied array is sorted ascending in place and stays a permutation of itself |
| InsightsSummary.SiftDown | src/components/InsightsSummary.tsx:25 | inserting the next value keeps the prefix sorted and the array a permutation |
| InsightsSummary.AscendingUnique | src/components/InsightsSummary.tsx:25 | two ascending sequences with the same elements are equal, so any correct sort gives the same result |
| InsightsSummary.Sorted | src/components/InsightsSummary.tsx:25 | the values in ascending order, a permutation of them |
| InsightsSummary.Baseline | src/components/InsightsSummary.tsx:24-25 | the sorted values' element at `floor(n / 2)`, 0 for none (definition; stated by BaselineIsMedian) |
| InsightsSummary.ComputeBaseline | src/components/InsightsSummary.tsx:22-25 | mapping, sorting the copy and indexing gives the baseline of the anomaly values, 0 for none |
| InsightsSummary.AnomalyValues | src/components/InsightsSummary.tsx:23 | one value per anomaly, each that anomaly's value, in order |
| InsightsSummary.BaselineIsMedian | src/components/InsightsSummary.tsx:25 | the baseline is one of the values, with at least `floor(n/2) + 1` values at most it and `n - floor(n/2)` at least it |
| InsightsSummary.BaselineIgnoresOrder | src/components/InsightsSummary.tsx:23-25 | the baseline does not depend on the order of the anomalies |
| InsightsSummary.EmptyBaselineIsZero | src/components/InsightsSummary.tsx:24-25 | without anomalies the baseline is 0 and every change against it is infinite or `NaN` |
| InsightsSummary.PercentLabel | src/components/InsightsSummary.tsx:17-20 | the percent-change text ends in `%` |
| InsightsSummary.PlusPrefix | src/components/InsightsSummary.tsx:18-19 | the text starts with `+` iff the value is above a non-negative baseline or below a negative one |
| InsightsSummary.NoChangeAtBaseline | src/components/InsightsSummary.tsx:18 | a value equal to a non-zero baseline is a 0% change |
| InsightsSummary.PercentChange | src/components/InsightsSummary.tsx:18 | the change relative to the baseline in percent, with JavaScript's division (definition; stated by PlusPrefix and NoChangeAtBaseline) |
| SensitivitySlider.SensitivityLabel | src/components/SensitivitySlider.tsx:8-13 | "Very High" iff `t <= 2.0`, "High" iff `2.0 < t <= 2.5`, "Medium" iff `2.5 < t <= 3.0`, "Low" iff `t > 3.0` |
| SensitivitySlider.SensitivityColor | src/components/SensitivitySlider.tsx:15-20 | red, orange, yellow and green over the same four bands |
| SensitivitySlider.ColorMatchesLabel | src/components/SensitivitySlider.tsx:8-20 | two thresholds share a label iff they share a colour |
| SensitivitySlider.LabelMonotone | src/components/SensitivitySlider.tsx:8-13 | a higher threshold never reads as more sensitive |
| SensitivitySlider.DefaultCaption | src/components/SensitivitySlider.tsx:10 | the default 2.5 reads "High" in orange |
| Sequences.Filter | src/pages/Index.tsx:42 | `filter` keeps a sub-multiset, no longer than the input (order and membership in FilterMembers and FilterKeepsSorted) |
| Sequences.FilterMembers | src/pages/Index.tsx:42 | the filtered elements are exactly the input's elements that pass |
| Sequences.FilterKeepsSorted | src/pages/Index.tsx:42 | filtering a sorted sequence keeps it sorted |
| Sequences.FilterPartition | src/pages/Index.tsx:43-44 | filters by complementary tests split the multiset |
| Sequences.CountPermutation | src/components/InsightsSummary.tsx:25 | a permutation has the same count of passing elements |
| Sequences.Count | src/utils/dataProcessing.ts:58-60 | the number of elements that pass, at most the length |
| Sequences.CountIsFilterLength | src/pages/Index.tsx:42 | the count of passing elements is the length of the filter |
| Sequences.SortBy | src/utils/dataProcessing.ts:47 | the sort by a subtracting comparator gives a sorted permutation of the input |
| Sequences.SortByStable | src/utils/dataProcessing.ts:47 | elements with equal keys keep their input order |
| Sequences.SortByMembers | src/utils/dataProcessing.ts:47 | sorting keeps exactly the same elements |
| Sequences.SortBySortedIsIdentity | src/utils/dataProcessing.ts:47 | an input already in key order comes back unchanged |
| Sequences.StableSortUnique | src/utils/dataProcessing.ts:47 | two key-sorted sequences with the same elements of every key, in the same order, are equal |
| Sequences.SortByIsTheStableSort | src/utils/dataProcessing.ts:47 | any key-sorted sequence that keeps the input order of each key is the sort's result |

## Left out

- File reading, `FileReader` callbacks and promises (src/utils/dataProcessing.ts:10-14, 27-31) are I/O. Only the text-to-table step is modelled.
- `new Date(...).getTime()`, `parseFloat` and `Math.sqrt` belong to the host library. They are parameters of `Host`, so neither `parseFloat`'s acceptance of prefixes such as `"12abc"` nor its `Infinity` input is modelled. Values are finite reals.
- Floating-point rounding, overflow and underflow are not modelled: arithmetic is on exact reals, and only division by zero follows JavaScript.
- Numbers.Divide, InsightsSummary.PercentChange, InsightsSummary.PlusPrefix: the reals have a single zero, so the sign of a `-0` is lost. `parseFloat("-0")` gives `-0` in the program, and anomalies of -0, -0 and 500 give a baseline of `-0`, so 500 against it is `-Infinity%` without a `+`; the model divides by the one zero and gives `Infinity` with a `+`.
- `toFixed`, `toLocaleDateString` and `toISOString` formatting are left out. `InsightsSummary.PercentLabel` takes the digits as a parameter, so it models only the sign prefix and the `%`.
- `console.log` calls are left out; they change no state.
- `Object.keys` puts integer-like keys first. The model lists keys in first-occurrence order, as for every other key.
- `toLowerCase` is modelled for ASCII letters only.
- AnomalyDetector.Lookup: a name that is not a key of the row reads as `undefined`. In the program, an inherited name such as `__proto__` or `toString` reads the prototype's member instead, which is not a string; the model treats it as a missing cell, so the row is dropped.
- The slider's `onChange` re-runs processing with the sensitivity of the previous render (src/pages/Index.tsx:119-122). That is React state-update timing and is left out; `Page.HandleProcessData` uses the stored sensitivity.
- When the effect runs (its dependency list) is React scheduling. `ColumnSelector.SuggestionEffect` models one run of its body.
- Rendering, JSX, CSS, src/components/AnomalyChart.tsx and src/components/FileUpload.tsx are presentation or DOM event handling with no computation.
- IndexPage.Page.HandleFileUpload: the code throws inside `onload` when no line has content. The model represents that failure as a parse result of `None` that leaves the page unchanged.
