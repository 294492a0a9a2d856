# Sleep health survey: clean, filter, aggregate

A Dafny model of the analysis pipeline behind the sleep-health dashboard
(`app.py`) and the stand-alone analysis script (`sleepAnalysis.py`). Both
turn the survey table into per-occupation tables in three stages:

- **Cleaning.**
  - A missing sleep disorder becomes `"No Disorder"`, and every disorder is stripped of surrounding whitespace.
  - The occupation synonyms `"Sales Representative"` and `"Salesperson"` become `"Sales"`, and `"Software Engineer"` becomes `"Engineer"`.
  - The BMI category `"Normal"` becomes `"Normal Weight"`.
- **Filtering.**
  - An occupation is eligible when it has at least five rows.
  - The dashboard keeps the occupations the user selected, or every eligible occupation when the selection is empty.
  - Kept rows stay in their original order.
  - The occupation axis lists the distinct occupations in order of first occurrence.
- **Aggregation.**
  - Count tables per (occupation, category), with a missing pair counted as 0.
  - Their row-normalised percentages.
  - The sum of selected BMI percentages.
  - The majority-gender annotation.
  - Per-occupation means.
  - In the script, a `Total` column, the division by it, and a three-disorder report.

Modules, one per stage plus shared helpers:

| file | module | what it holds |
|---|---|---|
| `wrappers.dfy` | `Wrappers` | `Option` (a nullable cell) and `Result` (a report or the columns pandas reports missing) |
| `text.dfy` | `Text` | Python's `str.strip()` |
| `sequences.dfy` | `Sequences` | distinctness, first index, `unique()` in first-occurrence order |
| `survey.dfy` | `Survey` | the `Record` row, its categorical and numeric columns, and counting |
| `cleaner.dfy` | `Cleaner` | the three column rewrites, `Clean`, and the class `Frame` whose methods overwrite a column in place |
| `filter.dfy` | `Filter` | eligibility, the selection fallback, the order-preserving filter, the label axis |
| `aggregator.dfy` | `Aggregator` | group tables, percentages, the combining loop, gender majority, means |
| `app.dfy` | `App` | the dashboard: loading, selection, and every chart series |
| `sleep_analysis.dfy` | `SleepAnalysis` | the script: relabel, filter, fill, count, `Total`, divide, report; and its agreement with the dashboard |

Modelling choices:

- **Tables.** A data frame is a `seq<Record>`. A nullable disorder is an `Option<string>`. A group table is a `GroupTable`: a column list plus a map from occupation to a map from category to value. A cell read with a default (`.get(c, 0)`, `reindex(...).fillna(0)`) is `Cell` on a percentage table and `CountCell` on a count table. Both are the generic `CellOr` with a default of 0, and give 0 where the row or the column is absent.
- **Group-by keys.** Grouping on two keys drops rows whose category is missing, as pandas does by default (`dropna=True`). After cleaning no disorder is missing, and `App.LabelsAreGroupKeys` proves that each grouped table then has exactly the label rows.
- **Arithmetic.** Percentages and means are exact `real`s.
- **Division by zero.** A percentage of an empty group is 0, where pandas gives NaN. The model proves that no row of a table it builds is empty. A mean of an empty group is `None`.
- **In-place updates.** Column overwrites (`df[col] = ...`) are methods of `Cleaner.Frame` and `SleepAnalysis.CountFrame`. Each one is specified by the column function it applies. The `bmi_combined +=` loop is the method `Aggregator.CombineCategories`, with a loop invariant.
- **Whitespace-only disorders.** `str.strip()` turns a disorder that is only whitespace into `""`, which stays present, and neither `app.py` line 16 nor `sleepAnalysis.py` line 32 replaces it afterwards. So `Cleaner.FillDisorder` maps `Some("  ")` to `Some("")`.

## Model

| member | source | states |
|---|---|---|
| Text.Strip | app.py:16 | the result has no whitespace at either end; it is the part of the input after its leading whitespace, and only whitespace follows it |
| Text.StripFixesExactlyTrimmed | app.py:16 | stripping leaves a string unchanged exactly when it neither starts nor ends with whitespace |
| Text.StripIdempotent | app.py:16 | stripping twice is stripping once |
| Sequences.Unique | app.py:58 | `unique()` has no duplicates and holds exactly the elements of its input |
| Sequences.UniqueKeepsFirstOccurrenceOrder | app.py:58 | `unique()` lists elements in the order of their first occurrence |
| Survey.Categories | app.py:67 | the columns of an unstacked count table are distinct and are exactly the values present in the column |
| Survey.CountOccupation | app.py:40 | an occupation's `value_counts()` entry never exceeds the number of rows; it is positive exactly when a row carries it (`Survey.CountOccupationPositive`) |
| Survey.CountOccupationPositive | app.py:40 | an occupation's `value_counts()` entry is positive exactly when some row carries it |
| Survey.CountOccupationOfColumn | sleepAnalysis.py:27 | `value_counts()` depends on the occupation column alone: tables with the same occupation column count every occupation alike |
| Survey.CountPresentPositive | app.py:67 | an occupation has rows in a two-key group-by exactly when one of its rows has the category present |
| Survey.CountPresentWhenNoneMissing | app.py:67 | when no category is missing, an occupation's group is all of its rows |
| Survey.CountOfAbsentCategory | app.py:67 | a category that never occurs counts 0 for every occupation (`fill_value=0`) |
| Survey.CountAtMostPresent | app.py:67 | one cell never exceeds its group's size |
| Survey.CountInCons | app.py:194-196 | counting one more, different, category adds exactly its count |
| Survey.SumCountIsCountIn | app.py:194-196 | summing the cells of distinct categories counts the rows in any of them |
| Survey.CountInNone | app.py:193 | no selected category counts no rows |
| Survey.CountInAtMostPresent | app.py:194-196 | rows in any set of categories never exceed the group's size |
| Survey.CountInCovering | app.py:70 | categories covering every present value count the whole group |
| Survey.RowTotalIsGroupSize | app.py:70 | a count table row sums to its group's size |
| Survey.AgreeingCounts | sleepAnalysis.py:27-36 | tables equal in occupation and one column give equal occupation counts, group sizes, cells and present values |
| Cleaner.FillDisorder | app.py:16 | the result is present and trimmed; a missing value becomes `"No Disorder"`; a present one is stripped |
| Cleaner.Replace | app.py:19-23 | `Series.replace` maps a table key to its value and leaves every other value unchanged |
| Cleaner.ReplaceOccupation | app.py:19-23 | an occupation changes exactly when it is one of the three synonyms; two become `"Sales"`, one `"Engineer"` |
| Cleaner.ReplaceBmi | app.py:26 | a BMI category changes exactly when it is `"Normal"`, which becomes `"Normal Weight"` |
| Cleaner.FillDisorderColumn | app.py:16 | same number of rows; each row has only its disorder filled and stripped |
| Cleaner.ReplaceOccupationColumn | sleepAnalysis.py:13-18 | same number of rows; each row has only its occupation relabelled |
| Cleaner.ReplaceBmiColumn | app.py:26 | same number of rows; each row has only its BMI category relabelled |
| Cleaner.Clean | app.py:16-26 | the cleaned table has the same rows in the same order, each cleaned on its own as `CleanedFrom` says: disorder filled, occupation and BMI relabelled, every other field kept |
| Cleaner.CleanIsRowwise | app.py:12-28 | cleaning keeps row count, row order and every untouched field; no cleaned disorder is missing or padded |
| Cleaner.RelabellingIdempotent | app.py:19-26 | relabelling occupations or BMI categories twice is relabelling once (no target is a key) |
| Cleaner.CleanIdempotent | app.py:12-28 | cleaning a cleaned table changes nothing |
| Cleaner.FillCommutesWithRelabel | sleepAnalysis.py:18-32 | filling disorders and relabelling occupations give the same rows in either order |
| Cleaner.Frame.constructor | app.py:13 | a frame holds the rows it was loaded with |
| Cleaner.Frame.FillDisorders | app.py:16 | the disorder column is overwritten by its filled and stripped values |
| Cleaner.Frame.ReplaceOccupations | app.py:19-23 | the occupation column is overwritten by its relabelled values |
| Cleaner.Frame.ReplaceBmiCategories | app.py:26 | the BMI column is overwritten by its relabelled values |
| Filter.EligibleOccupations | app.py:40 | an occupation is eligible exactly when it has at least 5 rows |
| Filter.Selection | app.py:50-52 | with nothing selected, the occupations with at least 5 rows; otherwise exactly the selected ones |
| Filter.Keep | app.py:55 | every kept row is a row of the input whose occupation is selected |
| Filter.KeepConcat | app.py:55 | filtering a concatenation filters each part, so kept rows keep their order |
| Filter.KeepCountsOccupation | app.py:55 | a selected occupation keeps all its rows and any other keeps none |
| Filter.KeepCountsCells | app.py:55 | the same holds for every cell and group size of a count table |
| Filter.Labels | app.py:58 | the labels are distinct and are exactly the occupations of the filtered rows |
| Filter.KeepAgreeing | sleepAnalysis.py:29 | filtering preserves agreement of two tables on occupation and one column |
| Filter.EligibleOfAgreeing | sleepAnalysis.py:27-28 | tables with the same occupation column have the same eligible occupations, whatever their other columns hold |
| Filter.SelectOccupations | app.py:40-58 | the empty selection falls back to the eligible occupations; a selected occupation keeps exactly its rows; labels are distinct, are the kept occupations, and follow first occurrence |
| Aggregator.GroupKeys | app.py:67 | the index of a two-key group-by is exactly the occupations with a present category |
| Aggregator.CountTable | app.py:67 | every row holds exactly the table's columns, which are the column's categories; the rows are the group keys |
| Aggregator.CountCell | sleepAnalysis.py:53 | a count cell is the stored count where the row and the column exist, and 0 otherwise |
| Aggregator.Share | app.py:70 | a count within its total gives a percentage in [0, 100]; the whole group is 100; a zero count is 0 |
| Aggregator.Normalise | app.py:70 | dividing by row sums keeps the columns, the rows and the rectangular shape |
| Aggregator.PercentTable | app.py:67-70 | the percentage table is rectangular, with the column's categories as columns and the group keys as rows; its cells are given by `Aggregator.PercentTableCell` |
| Aggregator.Cell | app.py:73-77 | a percentage read with `.get(c, zeros)` and `fillna(0)` is the stored value where the row and the column exist, and 0 otherwise |
| Aggregator.RowSum | app.py:70 | `sum(axis=1)` over the listed columns is at least every summed cell, and 0 when none of them is in the row |
| Aggregator.ShareAdditive | app.py:196 | percentages of one total add like their counts |
| Aggregator.ShareMonotone | app.py:218 | within one non-empty group, a larger percentage means a larger count, and conversely |
| Aggregator.RowSumOfCountTable | app.py:70 | a count table row summed over any columns gives the counts of those categories |
| Aggregator.CountTableCells | app.py:67 | each cell, with a default of 0, is the number of rows of that occupation and category |
| Aggregator.RowTotalOfCountTable | app.py:70 | the divisor `sum(axis=1)` is the group's size, which is positive |
| Aggregator.PercentTableCell | app.py:67-70 | each percentage cell is the category's share of the group's rows and lies in [0, 100] |
| Aggregator.PercentRowIsShares | app.py:70 | a percentage row is, for every category, its share of the group |
| Aggregator.SumCellsIsShareOfSum | app.py:70 | summed percentage cells are the share of the summed counts |
| Aggregator.PercentagesSumTo100 | app.py:67-70 | the percentages of distinct categories covering every value add up to 100 |
| Aggregator.SelectedSumAdditive | app.py:193-196 | combining two lists of categories adds their combined percentages |
| Aggregator.SelectedSumIsShareOfSelected | app.py:189-196 | combining distinct selected categories gives the share of rows in any of them, within [0, 100] |
| Aggregator.SelectedSumIsShareOfSum | app.py:194-196 | skipping categories that are no column loses nothing, since they count 0 |
| Aggregator.CombineCategories | app.py:193-196 | for each label, the loop's result is the sum of the selected categories' percentages that are columns (0 when none is selected) |
| Aggregator.GenderMajority | app.py:216-218 | the tag is M exactly when the male percentage is strictly larger (ties give F), and carries the larger percentage |
| Aggregator.GenderMajorityByCounts | app.py:212-218 | on the gender percentage table, the tag is M with the men's share of the group when men outnumber women, and F with the women's share otherwise (ties included) |
| Aggregator.Mean | app.py:114-117 | a mean exists exactly when the occupation has rows |
| Aggregator.MeansByLabel | app.py:114-117 | one mean per label, in label order |
| Aggregator.SumMetricBounds | app.py:114 | a sum of values within [lo, hi] lies between n·lo and n·hi |
| Aggregator.MeanWithinBounds | app.py:114-117 | a mean of values within [lo, hi] lies within [lo, hi] |
| App.LoadData | app.py:12-28 | loading gives a fresh frame holding the cleaned rows |
| App.ColumnByLabel | app.py:73-77 | one value per label, read from the table with a default of 0 |
| App.OverweightObese | app.py:267-270 | one value per label, the combined Overweight and Obese percentage of that label |
| App.GenderTags | app.py:215-218 | one majority tag per label, in label order |
| App.FilteredNoneMissing | app.py:55 | no filtered row has a missing disorder |
| App.LabelsAreGroupKeys | app.py:189 | with no missing category, the labels are exactly the group-by index, and each group is all the occupation's rows |
| App.LabelHasRows | app.py:58 | every label has at least one row |
| App.DisorderBarIsShare | app.py:73-77 | each disorder bar is that disorder's share of the label's rows, within [0, 100] |
| App.DisorderBarsSumTo100 | app.py:67-77 | when every disorder is one of the three plotted, a label's three bars add up to 100 |
| App.OverweightObeseIsDefaultCombination | app.py:263-270 | the Overweight + Obese series equals the default combined BMI series and is the share of heavy rows |
| App.CombinedBmiIsShare | app.py:189-196 | the combined BMI value for distinct categories is the share of the label's rows in them, within [0, 100] |
| App.GenderTagByCounts | app.py:212-218 | each label's tag is M exactly when it has more men than women, and is the tag its head counts call for, percentage included |
| App.DisorderSeriesAreShares | app.py:67-77 | each of the three disorder series holds, per label, that disorder's share of the label's rows |
| App.MeansAreAverages | app.py:114-117 | each mean series holds, per label, the sum over the label's rows divided by their number |
| App.CombinedBmiAreShares | app.py:189-196 | the combined BMI series holds, per label, the selected percentages' sum, which for distinct categories is their joint share |
| App.GenderTagsFollowCounts | app.py:212-218 | every gender annotation is M with the men's share when men outnumber women, and F with the women's share otherwise |
| App.HeavySeriesAreShares | app.py:263-270 | the Overweight + Obese series holds, per label, the share of overweight or obese rows |
| App.Dashboard | app.py:31-274 | the labels are those of the cleaned, selected rows; every chart series holds the shares and means above; every gender annotation is the majority sex with its share of the label's rows, ties going to F |
| SleepAnalysis.WithTotal | sleepAnalysis.py:46 | each row gains a Total equal to the sum of its cells, other cells unchanged; Total is appended as a column unless it already is one |
| SleepAnalysis.DivideByTotal | sleepAnalysis.py:49 | dividing by Total keeps the columns, rows and cells of the table |
| SleepAnalysis.Absent | sleepAnalysis.py:52 | the listed names that are not columns, which pandas reports in its KeyError |
| SleepAnalysis.Format | sleepAnalysis.py:52-53 | the report fails exactly when a reported disorder is no column, naming those missing; otherwise one line per occupation with the three percentages and the raw Total |
| SleepAnalysis.CountFrame.constructor | sleepAnalysis.py:36 | the frame holds the count table |
| SleepAnalysis.CountFrame.AddTotal | sleepAnalysis.py:46 | the table is overwritten by the table with its Total column |
| SleepAnalysis.Report | sleepAnalysis.py:36-53 | a report, when there is one, has one line per group of the analysed rows; its failure and lines are stated by the lemmas below |
| SleepAnalysis.Run | sleepAnalysis.py:13-53 | the script yields the report; it fails exactly when a reported disorder never occurs in the analysed rows; otherwise it has one line per eligible occupation |
| SleepAnalysis.TotalIsGroupSize | sleepAnalysis.py:46 | the Total of each row is the group's size |
| SleepAnalysis.DividedCell | sleepAnalysis.py:49 | each divided category cell is the category's share of the group, the same value the dashboard's percentage table holds |
| SleepAnalysis.TotalBecomesHundred | sleepAnalysis.py:49 | the Total column is 100 in every row after the division |
| SleepAnalysis.DividedRowSumsToHundred | sleepAnalysis.py:49-52 | when the three reported disorders are the only ones, their percentages add up to 100 |
| SleepAnalysis.FillCommutesWithKeep | sleepAnalysis.py:29-32 | filling after filtering gives the same rows as filtering after filling |
| SleepAnalysis.FillOfConcat | sleepAnalysis.py:32 | filling a concatenation fills each part |
| SleepAnalysis.FillAgrees | sleepAnalysis.py:32 | filling keeps each row's occupation and gender |
| SleepAnalysis.Analysed | sleepAnalysis.py:18-32 | the analysed rows are at most the input rows, all with a disorder and an eligible occupation |
| SleepAnalysis.AnalysedGroups | sleepAnalysis.py:27-32 | no analysed disorder is missing; an occupation keeps all its relabelled rows when it has at least 5, otherwise none |
| SleepAnalysis.AnalysedKeysAreEligible | sleepAnalysis.py:27-36 | the rows of the count table are exactly the eligible occupations |
| SleepAnalysis.ReportFailsOnMissingDisorder | sleepAnalysis.py:52 | the report fails exactly when one of the three disorders never occurs, and it names exactly those |
| SleepAnalysis.ReportCoversEligible | sleepAnalysis.py:27-53 | a report has one line per eligible occupation, with no fallback |
| SleepAnalysis.ReportLines | sleepAnalysis.py:46-53 | each line's Total is the occupation's row count, at least 5, and each percentage is that disorder's share of it |
| SleepAnalysis.ReportLinesSumToHundred | sleepAnalysis.py:49-53 | when the three disorders are the only ones, each line's percentages add up to 100 |
| SleepAnalysis.CleanAgreesWithScript | sleepAnalysis.py:18-32 | the dashboard's cleaning and the script's relabel-then-fill agree on occupation and disorder |
| SleepAnalysis.SameEligible | sleepAnalysis.py:27-28 | both scripts find the same eligible occupations |
| SleepAnalysis.FilteredAgreesWithAnalysed | sleepAnalysis.py:27-32 | with nothing selected, the dashboard's rows agree with the script's on occupation and disorder |
| SleepAnalysis.CountTableOfAgreeing | sleepAnalysis.py:36 | tables agreeing on occupation and a column give the same count table |
| SleepAnalysis.ScriptsAgree | sleepAnalysis.py:27-36 | the script and the dashboard, with nothing selected, count the same disorder table |

## Left out

- Reading the CSV file (`pd.read_csv`): the survey table is an input sequence. Failures of that read (a missing file, a missing column) are not modelled.
- The Streamlit page: caching, widgets, checkboxes, info messages and prose. A multiselect's result is an input parameter. The metric multiselect of the second chart only chooses which bars are drawn, so it is not modelled.
- Matplotlib drawing: bar offsets, axis limits (including `age_by_occupation.min() * 0.95`), annotations and legends.
- Rounding and string formatting (`:.1f`, `:.0f`, `.round(1).astype(str) + "%"`). Values are exact reals, not IEEE doubles. `MajorityLabel` keeps the percentage and the letter rather than the formatted text.
- pandas-exploration.py is not part of this model: it is a scratchpad whose results are discarded.
- Order of columns and rows: pandas sorts group-by keys and unstacked columns. The model keeps the unstacked columns (`Survey.Categories`) in first-occurrence order. It holds group keys, the rows of every grouped table and the lines of the script's report as map keys, which have no order, so the occupation-sorted order of the printed `sleepAnalysis.py` report is not modelled. Every property proved is about cells, sums and key sets, none of which depends on order. The dashboard's chart series follow `labels`, which keeps the first-occurrence order of `unique()` as the source does.
- App.Dashboard: `bmi_counts` and `gender_counts` are `reindex(labels).fillna(0)` before the division, while the model divides first and reads with a default. `App.LabelsAreGroupKeys` proves that reindexing adds no row and drops none, so the two agree.
- Aggregator.Share: pandas gives NaN for a 0/0 percentage and the model gives 0. No table row the pipeline builds is empty (`Aggregator.RowTotalOfCountTable`), so the case is never reached.
- Aggregator.Mean: pandas gives NaN for an occupation without rows and the model gives `None`. The dashboard only asks for labels that have rows, so every mean it uses is present.
- Cleaner.FillDisorder: `Text.IsSpace` lists the code points of Python's `str.isspace()` one by one. The model treats strings as sequences of code points, as Python does, and performs no encoding or normalisation.
- Numeric range checks of the dataset (age, stress and so on) are not enforced, as in the source. `Aggregator.MeanWithinBounds` shows that means stay within whatever bounds hold for the rows.
