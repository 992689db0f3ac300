# Campus energy dashboard — a Dafny model

This project models the data pipeline of the campus energy dashboard
(`dashboard.py`). The pipeline works in these steps:

1. It reads every CSV file of meter readings in the data directory.
2. It labels every reading with the building's name. The name is the file
   stem up to its first underscore, so several files (`B1_jan`, `B1_feb`)
   can share one building.
3. It concatenates the files, coerces the timestamps and drops the
   incomplete rows.
4. It computes daily totals, weekly totals and a per-building summary
   (mean, min, max, sum) of the kWh column.
5. It feeds every reading into a `BuildingManager` of `Building` objects.
6. It computes the figures of the text report: campus total, highest
   consuming building, peak load time, number of buildings and date range.

Modules, in dependency order:

- `Wrappers`: `Option`.
- `Meter`: a cleaned table row, the kWh sum, the set of buildings, and
  Python's string order (`StrLess`), which pandas uses to order its group
  keys.
- `GroupBy`: `groupby(...).agg(...)`. It is a fold that keeps one group per
  distinct key, sorted by key, as pandas returns them. Each group's value is
  the fold of the group's own rows. The fold conserves any total that its
  per-row steps carry.
- `Loader`: `load_and_combine_data` as an imperative method over the list of
  files, specified by the function `Combined`. Also the building label and
  the `dropna` cleaning.
- `Aggregation`: `calculate_daily_totals`, `calculate_weekly_aggregates` and
  `building_wise_summary`.
- `Domain`: `MeterReading`, and the `Building` and `BuildingManager` classes,
  with the fields that their methods update in place. `FeedManager` is the
  `iterrows` loop of the main block.
- `Report`: the report figures of `export_results`.
- `Pipeline`: the main block, end to end.

Timestamps are integers, because only their order matters. The mapping
of a timestamp to its date (`.dt.date`) and to its week (`.dt.to_period('W')`)
is a parameter, and so is the string-to-timestamp parse of
`pd.to_datetime(..., errors='coerce')`. `parse` stands for the result
that `to_datetime` gives each cell when it converts the whole combined
column. The model applies it cell by cell, so it does not capture a
format inferred from one file changing how another file's cells parse.
Kilowatt-hours are integers. A file
whose `read_csv` raised is a `CsvFile` with `parsed == None`; a `kwh` cell read
as NaN is `None`.

pandas sorts group keys by default, so the summary is sorted
by building name, and `idxmax` on the summary breaks ties in favour of the
alphabetically first building. `Report.HighestIsLargest` proves that
tie-break.

## Model

| member | source | states |
|---|---|---|
| Loader.BuildingLabel | dashboard.py:26 | the label is a prefix of the stem and has no underscore; when the stem has an underscore, the one right after the label is that underscore; a stem without an underscore is its own label |
| Loader.BuildingLabelUnique | dashboard.py:26 | any underscore-free prefix of the stem that ends at an underscore or at the end of the stem is the label, so the label is determined by those properties |
| Loader.Tag | dashboard.py:27 | every line of the frame gets the file's building; the timestamp and kwh cells are unchanged and no line is added or lost |
| Loader.Coerce | dashboard.py:38 | row by row, the timestamp becomes the parse result (missing when unparsable); kwh and building are unchanged |
| Loader.LoadAndCombine | dashboard.py:14-41 | the loop over the files skips every file whose read failed and returns the cleaned, coerced concatenation of the others (an empty table when none loaded) |
| Loader.CleanAppend | dashboard.py:39 | dropping incomplete rows distributes over concatenation |
| Loader.CleanKeepsExactlyComplete | dashboard.py:39 | a row is in the cleaned table if and only if a row with that timestamp and kwh, both present, and that building was in the input |
| Loader.CleanRowsComeFromInput | dashboard.py:39 | every cleaned row comes from a complete input row |
| Loader.CleanLength | dashboard.py:39 | cleaning never adds rows; it keeps the length if and only if every row was complete |
| Loader.CleanOfCompleteRows | dashboard.py:39 | cleaning a table with no missing cells leaves every row in place, in order |
| Loader.CombinedIsPerFile | dashboard.py:22-39 | the combined table is the concatenation, in file order, of each loaded file cleaned on its own |
| Loader.CombinedRowsFromFile | dashboard.py:22-39 | every line of a loaded file with a parseable timestamp and a kwh value reaches the combined table, labelled with that file's building |
| Loader.CombinedRowFromLoadedFile | dashboard.py:22-39 | conversely, every combined row comes from such a line of a loaded file and carries that file's building label |
| Loader.CleanCount | dashboard.py:39 | the cleaned table has exactly as many rows as the input has complete rows |
| Loader.CombinedCount | dashboard.py:22-39 | the combined table has exactly one row per line of the loaded files whose timestamp parses and whose kwh is present; lines of failed files and dropped lines contribute none |
| Loader.LineSurvivesCleaning | dashboard.py:37-39 | a line of a parsed file with a parsable timestamp and a kwh value appears, labelled, in that file's cleaned frame |
| Meter.SumKwhAppend | dashboard.py:155 | the kwh sum of two tables put together is the sum of their sums |
| Meter.StrLessIrreflexive | dashboard.py:57 | no building name sorts before itself in Python's string order |
| Meter.StrLessTransitive | dashboard.py:57 | Python's string order is transitive |
| Meter.StrLessAsymmetric | dashboard.py:57 | of two names, at most one sorts before the other |
| Meter.StrLessTotal | dashboard.py:57 | of two different names, one sorts before the other |
| Aggregation.StrLessIsOrder | dashboard.py:57 | Python's string order is a strict total order, so it can order the building groups |
| Aggregation.PeriodLessIsOrder | dashboard.py:48 | the (period, building) order is a strict total order |
| GroupBy.Slot | dashboard.py:48 | the insertion point of a key in a sorted group list: every key before it is smaller, and the key there is not |
| GroupBy.AggregateSpec | dashboard.py:48 | for a strict total order, the group-by result is sorted by key, its keys are exactly the keys of the rows, and every group's value is the fold of the rows with that key |
| GroupBy.SortedKeysCount | dashboard.py:48 | a strictly sorted group list has one group per distinct key |
| GroupBy.AggregateConserves | dashboard.py:48 | summing the groups selected by a key predicate gives the sum over the rows whose key it selects, whenever the fold carries a running total |
| Aggregation.PeriodTotals | dashboard.py:48 | the per-(period, building) totals are sorted, cover exactly the pairs in the table with one row each, each is the kWh sum of its non-empty group, and each building's period totals add up to its total |
| Aggregation.PeriodTotalsAreSums | dashboard.py:48 | each group value of the sum aggregation is the kWh sum of the group's rows |
| Aggregation.PeriodTotalsConserve | dashboard.py:48 | each building's period totals add up to the kWh sum of its rows |
| Aggregation.DailyTotals | dashboard.py:46-49 | sorted by (date, building), with exactly one row per pair present in the table, holding that day's kWh sum, and a building's daily totals add up to its total |
| Aggregation.WeeklyTotals | dashboard.py:51-54 | sorted by (week, building), with exactly one row per pair present in the table, holding that week's kWh sum, and a building's weekly totals add up to its total |
| Aggregation.MinKwh | dashboard.py:57 | the 'min' aggregate is at most every reading of the group and is one of them |
| Aggregation.MaxKwh | dashboard.py:57 | the 'max' aggregate is at least every reading of the group and is one of them |
| Aggregation.FoldIsStats | dashboard.py:57 | one pass over a group yields its count, min, max and sum |
| Aggregation.SumBetweenMinAndMax | dashboard.py:57 | a group's sum lies between count times its min and count times its max |
| Aggregation.SummaryRowDescribes | dashboard.py:57-58 | a summary row built from a group's statistics describes the group: avg is sum over count and lies between min and max |
| Aggregation.BuildingStatsSpec | dashboard.py:57 | the statistics group-by over buildings is sorted by name, has exactly the table's buildings and each group folds its own rows |
| Aggregation.SummaryHasOneRowPerBuilding | dashboard.py:56-59 | the summary has exactly one row per building of the table, in name order |
| Aggregation.SummaryCoversBuilding | dashboard.py:56-59 | every building of the table has a summary row |
| Aggregation.SummaryRowDescribesBuilding | dashboard.py:57-58 | the i-th summary row holds the mean, min, max and sum of exactly that building's readings |
| Aggregation.SummaryConserves | dashboard.py:57 | the summary's total_kwh column adds up to the campus total |
| Domain.Building.constructor | dashboard.py:70-72 | a new building has the given name and no readings |
| Domain.Building.AddReading | dashboard.py:74-75 | appends the reading and raises the total consumption by its kWh |
| Domain.ReadingsTotalOfRows | dashboard.py:77-78 | the total consumption of the readings made from rows is the kWh sum of those rows |
| Domain.ReadingsOf | dashboard.py:190 | one reading per row, with the row's timestamp and kWh |
| Domain.BuildingManager.constructor | dashboard.py:85-86 | a new manager has no buildings |
| Domain.BuildingManager.AddBuilding | dashboard.py:88-89 | the name now maps to a fresh building with no readings (replacing any earlier one); other names keep their objects |
| Domain.BuildingManager.AddReadingToBuilding | dashboard.py:91-94 | a known building keeps its object and gets the reading appended; an unknown one is created first; the registry changes by exactly that append and nothing else |
| Domain.FedGroupsByBuilding | dashboard.py:188-190 | feeding the table yields one entry per building of the table, holding that building's readings in table order |
| Domain.FeedManager | dashboard.py:188-190 | the loop leaves a manager whose registry is the fed table, with one building per building of the table and each total equal to that building's kWh sum |
| Report.IndexOfMax | dashboard.py:156-157 | `idxmax` is the first position of the largest value |
| Report.HighestConsumingBuilding | dashboard.py:156 | the building of the first summary row with the largest total |
| Report.PeakLoadTime | dashboard.py:157 | the timestamp of the first row with the largest reading |
| Report.FirstTimestamp | dashboard.py:166 | the first timestamp is at most every row's timestamp and belongs to a row |
| Report.LastTimestamp | dashboard.py:166 | the last timestamp is at least every row's timestamp and belongs to a row |
| Report.SummaryOfNonEmptyTable | dashboard.py:56-59 | a non-empty table has a non-empty summary |
| Report.HighestIsLargest | dashboard.py:156 | the highest-consuming building is in the table, no building has a larger total, and every building before it in name order has a strictly smaller total |
| Report.HighestBeats | dashboard.py:156 | the same, for one given building |
| Report.PeakIsLargestReading | dashboard.py:157 | the peak load time is the timestamp of a reading no other reading exceeds |
| Report.ReportMeaning | dashboard.py:155-166 | the report's total equals the summary's total and the campus kWh sum, its building count is the number of distinct buildings, and its date range encloses every row |
| Pipeline.PerBuildingTotalsAgree | dashboard.py:46-59 | for each building, its daily totals, its weekly totals, its summary total_kwh and its manager total all equal its kWh sum |
| Pipeline.ConsumptionAgrees | dashboard.py:188-193 | any per-building map holding each building's kWh sum (as read off the manager) agrees with every building's daily and weekly totals and with the summary row by row |
| Pipeline.RunPipeline | dashboard.py:173-199 | exits without results if and only if the combined table is empty; otherwise the daily, weekly, summary, manager and report results are those of the combined table, and all per-building totals agree |

## Left out

- `create_dashboard` (lines 99-144): plotting, with no result beyond the
  image. Its weekly mean per building (line 116) and its per-hour maxima
  (line 125) only feed the plots. The maxima are grouped by (building,
  hour of day), a key the model does not have.
- File and directory I/O. The glob over `data/` is the input list of files,
  in glob order, and several files can have the same label. A missing
  directory acts like a list with no files.
  `read_csv` with `on_bad_lines='skip'` is the already-parsed line list, or
  `None` when the read raised. Writing the CSVs and `summary.txt` is left
  out. `exit(1)` is the `NoData` outcome.
- Logging, and the printed order of the manager's per-building reports.
- `Building.generate_report` and the text of `summary.txt`: string formatting
  with `:.2f`. The figures they print are modelled (`TotalConsumption`,
  `CampusReport`); the text is not.
- Floating point: kWh values are integers, not floats; NaN reaches
  the model only as a missing cell that the cleaning drops.
- `Building.TotalConsumption` has no contract of its own. `AddReading` and
  `ReadingsTotalOfRows` state what it computes.
- Loader.Clean, Loader.Frames and Loader.Concat have no contracts of their
  own. `CleanKeepsExactlyComplete`, `CleanRowsComeFromInput`, `CleanCount`
  and `CleanAppend` state what `Clean` does. `CombinedIsPerFile`,
  `CombinedRowsFromFile`, `CombinedRowFromLoadedFile` and `CombinedCount`
  state what `Frames` and `Concat` compose to.
- GroupBy.Aggregate has no contract of its own. `AggregateSpec`,
  `SortedKeysCount` and `AggregateConserves` state its meaning.
- Report.SummaryReport has no contract of its own. `ReportMeaning` states
  its meaning.
- Meter.SumKwh and Meter.StrLess have no contracts of their own.
  `SumKwhAppend` and the StrLess lemmas (`StrLessIrreflexive`,
  `StrLessTransitive`, `StrLessAsymmetric`, `StrLessTotal`) state their
  meaning.
- Aggregation.BuildingSummary has no contract of its own. Its properties are
  the lemmas `SummaryHasOneRowPerBuilding`, `SummaryCoversBuilding`,
  `SummaryRowDescribesBuilding` and `SummaryConserves`.
- Calendar arithmetic of pandas (`.dt.date`, `.to_period('W')`,
  `pd.to_datetime`): these are parameters.
- The derived columns that the aggregations add to the caller's table
  (`date`, `week`, `hour`) as a side effect. The plots read them, and
  `df.to_csv` (line 151) writes them to the cleaned CSV; the model's
  combined table keeps only timestamp, kwh and building.
- Missing columns. A file without a `kwh` column is modelled as lines whose
  kwh is missing, which `concat` fills with NaN and `dropna` removes. A file
  without a `timestamp` column is modelled as lines whose timestamp cell
  `parse` rejects. The `KeyError` raised at line 38 or 39 when no loaded
  file has the column at all is not modelled. A kwh column that is not
  numeric is not modelled either.
- `idxmax` returns an index label, not a position. `concat` with
  `ignore_index=True` numbers the rows 0, 1, 2, ... and `dropna(inplace=True)`
  keeps those labels, with gaps where rows were dropped. The labels stay
  unique and increasing, so `loc` on the label of the first maximum picks
  the first maximal row. The model indexes that row by its position.
- `create_csv.py`, which generates sample data, is not part of this model.
