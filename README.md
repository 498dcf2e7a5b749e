# Cirrhosis analysis script: a model of its data shaping

The repository is one linear analysis script over a table of liver-cirrhosis
patients. It projects the table onto five columns (N_Days, Status, Age,
Sex, Stage) and computes the share of missing cells. If that share is below
ten percent, it derives the data for a run of charts:

- the sex pie, `[male, female]`;
- the stage pie, where missing stages become 'Unknown', the categories are
  counted by descending frequency, and a fixed label list is laid over the
  counts by position;
- the status pie, `[C, CL, D]`;
- three per-status groups for a box plot;
- a recoded `(Status, N_Days)` view handed to a Kaplan–Meier fit.

This project models that discrete layer as pure Dafny functions over
`seq<Row>`. A `Row` holds five optional cells, and `None` stands for a NaN.
The lemmas prove what each step promises.

Modules, one per step of the script:

- `Table` (table.dfy): the row record, the five columns, and per-column
  null and non-null counts (`isnull().sum()`, `count()`). It also holds the
  mask count `len(col[col == v])`, where a null cell equals nothing.
- `QualityGate` (gate.dfy): the missing-value gate, lines 13-18. numpy's
  quotient is modelled with its `inf` and `nan` outcomes.
- `Composition` (composition.dfy): the sex and status slice values.
- `StageComposition` (stage.dfy): `fillna('Unknown')`, `value_counts()`,
  and the positional labels of the stage pie, including the "no valid
  data" branch.
- `StatusGroups` (groups.dfy): the three `loc[Status == s]` selections.
- `SurvivalInput` (survival.dfy): the `(Status, N_Days)` view and the two
  chained frame-wide `replace` calls.
- `Pipeline` (pipeline.dfy): the single branch of the script, and a
  ten-patient scenario worked through end to end.

Three consequences of the script as written:

- **Gate denominator.** The gate divides the null cells by `count().sum()`,
  the non-null cells, not by all cells. So the ratio can exceed 1, and the
  gate is stricter than a test over all cells. `QualityGate.StricterThanAllCells` proves that the script's gate
  implies the all-cells gate. `QualityGate.AllCellsReadingDiffers` gives an
  11-row table where the two disagree: there the all-cells share is 9.1
  percent, but the script computes exactly 10 percent and aborts.
- **Stage labels.** The stage labels are positional. A table whose Stage
  column is entirely missing gets one slice, of category 'Unknown', and the
  label list handed to the pie for that one slice starts with 'Stage 3',
  not 'No Data' (`StageComposition.AllMissingStagesLabelledStage3`).
- **Ten-patient table.** The ten-patient table has two null Stage cells:
  2 of 48 non-null cells, about 4.2 percent. The gate passes, and the
  slices are [6, 4], [3, 2, 5], and five stage slices of 2, one for each of
  stages 1 to 4 and one for 'Unknown' (`Pipeline.TenPatientScenario`).

## Model

| member | source | states |
|---|---|---|
| `Table.ColumnNulls` | biostatistics_projekt.py:14 | `isnull().sum()` of one column: never more than the rows; `ColumnCount` is its complement, `FewerColumnNulls` its monotonicity |
| `Table.NullCells` | biostatistics_projekt.py:14 | `isnull().sum().sum()` over a column list: at most columns times rows; `CountCells` is its complement |
| `Table.ColumnCount` | biostatistics_projekt.py:15 | a column's non-null count plus its null count is the number of rows |
| `Table.CountCells` | biostatistics_projekt.py:14-15 | over any list of columns, non-null plus null cells is columns times rows |
| `Table.Occurrences` | biostatistics_projekt.py:34-35 | a mask count never exceeds the column length, and equals it exactly when every cell holds that value |
| `Table.OccurrencesAmong` | biostatistics_projekt.py:78-80 | the cells whose value lies in a set: at most the column length, equal to it exactly when no cell is null or outside the set |
| `Table.OccurrencesAmongInsert` | biostatistics_projekt.py:78-80 | counting one more, distinct value adds exactly its own mask count |
| `QualityGate.Missing` | biostatistics_projekt.py:14 | the null cells of the projection: at most five per row; `ByColumn` and `CellsPartition` characterise it |
| `QualityGate.NonNull` | biostatistics_projekt.py:15 | the non-null cells of the projection: together with `Missing` exactly five per row |
| `QualityGate.Proceeds` | biostatistics_projekt.py:16-18 | `percent < 10`: only a non-empty table with some non-null cell can pass; `ProceedsIff` characterises it exactly |
| `QualityGate.ByColumn` | biostatistics_projekt.py:14 | helper for `GateFromColumnNulls` and the worked tables: unfolds `Missing` into the five per-column null counts |
| `QualityGate.GateFromColumnNulls` | biostatistics_projekt.py:14-18 | from per-column null counts summing to k: k cells are missing, 5·rows − k are non-null, and the gate proceeds iff `k * 100 < 10 * (5 * rows - k)` |
| `QualityGate.CellsPartition` | biostatistics_projekt.py:14-15 | missing cells plus non-null cells of the projection are 5 times the rows |
| `QualityGate.MissingPercent` | biostatistics_projekt.py:16 | the percentage is finite exactly when some cell is non-null, and is then non-negative; it is 0/0 (nan) exactly for the empty table |
| `QualityGate.ProceedsIff` | biostatistics_projekt.py:16-18 | the gate proceeds iff `missing * 100 < 10 * nonNull` |
| `QualityGate.AbortsWithoutData` | biostatistics_projekt.py:16-18 | with no non-null cell the gate aborts, on `inf` or, for the empty table, on `nan` |
| `QualityGate.ProceedsWhenComplete` | biostatistics_projekt.py:14-18 | a non-empty table with no null cell has 0 percent missing and proceeds |
| `QualityGate.Monotone` | biostatistics_projekt.py:14-18 | filling in null cells of a table of the same size never turns proceed into abort |
| `QualityGate.FewerColumnNulls` | biostatistics_projekt.py:14 | a more complete table has no more nulls in any column |
| `QualityGate.StricterThanAllCells` | biostatistics_projekt.py:14-18 | whenever the script's gate proceeds, so does the gate computed over all rows times five cells |
| `QualityGate.AllCellsReadingDiffers` | biostatistics_projekt.py:14-18 | an 11-row table with 5 null cells aborts although the all-cells share is below 10 percent |
| `Composition.SexSlices` | biostatistics_projekt.py:34-39 | slices are `[male, female]`; male + female is at most the rows, with equality exactly when every Sex is 'M' or 'F' |
| `Composition.StatusSlices` | biostatistics_projekt.py:77-81 | slices are `[C, CL, D]`; their sum is at most the rows, with equality exactly when every Status is C, CL or D |
| `Composition.StatusCountsAmong` | biostatistics_projekt.py:78-80 | the three status counts add up to the rows whose status is one of the three codes |
| `StageComposition.FillStage` | biostatistics_projekt.py:46 | same length; every missing stage becomes 'Unknown', every present stage is kept |
| `StageComposition.TallyPositive` | biostatistics_projekt.py:48 | a category has a positive frequency exactly when it occurs |
| `StageComposition.ValueCounts` | biostatistics_projekt.py:48 | each category exactly once with its own positive frequency, in non-increasing order of frequency, the frequencies summing to the series length |
| `StageComposition.EvenValueCounts` | biostatistics_projekt.py:48 | when every category occurs k times, every slice of the value counts is k and the slices number the series length divided by k |
| `StageComposition.SumOfTallies` | biostatistics_projekt.py:48 | over distinct categories covering the series, the frequencies sum to its length |
| `StageComposition.StagePie` | biostatistics_projekt.py:45-57 | the "no valid data" branch is taken exactly for the empty table; otherwise the slices are the value counts of the filled column and the labels are the fixed list |
| `StageComposition.LabelsArePositional` | biostatistics_projekt.py:51-52 | label i goes on the i-th slice, which is at least as large as every later slice, whatever its category |
| `StageComposition.AllMissingStagesLabelledStage3` | biostatistics_projekt.py:46-52 | an all-missing Stage column gives the single slice ('Unknown', rows), and the label list handed to the pie for it starts with 'Stage 3' |
| `StatusGroups.WithStatus` | biostatistics_projekt.py:101-103 | every row of a group has that group's status, and the group is as large as the status's mask count |
| `StatusGroups.MatchingIndices` | biostatistics_projekt.py:101-103 | the positions of a group are strictly increasing, in range, and are exactly the positions with that status |
| `StatusGroups.WithStatusSelects` | biostatistics_projekt.py:101-103 | the j-th row of a group is the table row at the j-th matching position, so table order is preserved |
| `StatusGroups.Partition` | biostatistics_projekt.py:101-103 | the three groups hold only their own status and are as large as the C, CL and D counts |
| `StatusGroups.PartitionByPosition` | biostatistics_projekt.py:101-103 | by row position the groups are pairwise disjoint, and together they are exactly the rows with status C, CL or D |
| `StatusGroups.GroupSizes` | biostatistics_projekt.py:101-103 | the group sizes add up to at most the rows, and to exactly the rows iff every status is C, CL or D |
| `SurvivalInput.SurvivalView` | biostatistics_projekt.py:121 | the `(Status, N_Days)` view has one row per patient; `RecodeIsPointwise` states its cells |
| `SurvivalInput.Replace` | biostatistics_projekt.py:122 | a frame-wide `replace` keeps the number of rows; `ReplaceAt` states what it does to each cell |
| `SurvivalInput.Recode` | biostatistics_projekt.py:121-122 | the two chained `replace` calls keep the number of rows; `RecodeIsPointwise` ties them to the per-patient `EventIndicator` |
| `SurvivalInput.ReplaceAt` | biostatistics_projekt.py:122 | a frame-wide `replace` acts on each cell of each row independently |
| `SurvivalInput.RecodeIsPointwise` | biostatistics_projekt.py:121-122 | the recoded view has one row per patient; its status is the event indicator of that patient's status ('D' to 0, 'C'/'CL' to 1, others unchanged) and its N_Days is unchanged |
| `SurvivalInput.EventIndicatorValues` | biostatistics_projekt.py:122 | the indicator is 0 exactly for 'D', 1 exactly for 'C' or 'CL', and null exactly for a null status |
| `Pipeline.Analyse` | biostatistics_projekt.py:13-136 | reporting runs iff the gate proceeds; then the table is non-empty, the stage pie exists, the survival view has one row per patient, and each box-plot group is as large as its status slice |
| `Pipeline.TenPatientScenario` | biostatistics_projekt.py:13-81 | the ten-patient table passes the gate and yields sex slices [6, 4], status slices [3, 2, 5] and five stage slices of 2, whose categories are exactly stages 1 to 4 and 'Unknown' |

## Left out

- Reading the CSV file (lines 8-9) is file I/O. The model starts from the loaded rows.
- All drawing is left out (histograms, pies, box plots, subplots, legend, `show`). So are matplotlib's own errors, such as a label or explode list whose length differs from the number of slices. The model gives the data each chart receives. In particular, a table whose Stage column is entirely missing hands the stage pie one slice with five labels and five `explode` entries (lines 51-52); the script itself stops there with matplotlib's error, which the model does not represent.
- `describe`, `stats.skew` and `stats.kurtosis` (lines 91-98) are floating-point statistics in a foreign library.
- The Kaplan–Meier fit and plot (lines 125-133) happen inside a library that is not part of this model. Only the recoded input it receives is modelled.
- The `'Stage' in our_patients.columns` test (line 45) always holds: line 13 would already have failed without that column. Its else-branch (lines 58-59) is therefore not modelled.
- The Age and N_Days series handed to the histograms (lines 24, 65) are plain column reads and are not modelled separately.
- `QualityGate.MissingPercent`: computes in exact reals, not in IEEE doubles. The two agree on the gate decision, because equal ratios give the same double and the exact boundary 1/10 gives exactly 10.0. Rounding could flip the strict test only for tables of more than about 10^15 cells.
- `StageComposition.ValueCounts`: the order pandas gives to categories with equal counts is internal to pandas. The model lists tied categories in order of first occurrence, and its contract promises only non-increasing counts.
- Stage values are modelled as integers. The loaded column holds them as floats (1.0 to 4.0). Each value is still counted as its own category.
