# Streamlit data dashboard: data preparation and filtering

This project models the decision-making part of `app.py`, a Streamlit
dashboard over an uploaded CSV file, and proves properties of that model in
Dafny. The model has three stages, which run one after another on every run
of the script (app.py:143-147):

1. **Imputer** (`infomation`, app.py:36-42). If any cell of the frame is
   missing, the imputer visits every column in order and replaces that
   column in place:
   - a numeric (int64/float64) column gets its missing cells filled with
     the skip-null mean;
   - any other column gets them filled with `mode()[0]`.
2. **Side bar filter** (`side_bar`, app.py:62-101):
   - one slider range per selected numeric column, defaulting to the
     column's observed `(min, max)`;
   - a copy of the frame reduced to the rows that lie inside every range;
   - then a projection onto the selected categorical and numeric columns,
     or all columns when nothing is selected.
3. **Chart section** (`chartsection`, app.py:103-139). Line, scatter and box
   plots need at least two numeric columns. The X box offers every numeric
   column, and the Y box offers every numeric column except the chosen X.

The table is an abstract value (`Frame.Table`):
- an ordered list of uniquely named columns, each `Numeric` or
  `Categorical`;
- rows of optional cells, where `None` is a missing value (null / NaN).

Numbers are mathematical reals. The frame the imputer mutates is a class
(`Frame.DataFrame`), and `df[col] = ...` is its `Assign` method.

The loops of the source are methods proved against specification functions:

| method | loop | specification |
|---|---|---|
| `ImputeNulls` | app.py:38-42 | `Imputed` |
| `BuildFilters` | app.py:73-84 | `SliderFilters` |
| `ApplyFilters` | app.py:88-89 | `Select` |

The properties of the source are then proved about those functions.

Points where what the code does differs from what one might expect:

- **Mode tie-break.** pandas' `Series.mode()` returns the most frequent
  values sorted, so `mode()[0]` is the smallest of them. For text that means
  code-point lexicographic order. It is not the value the column shows
  first, as one might expect. `Stats.Mode` and `Stats.IsFirstMode` state
  the sorted rule.
- **A numeric column with no present value.** Its mean is NaN, and
  `fillna(NaN)` leaves the column as it was; the imputer does not fail. The
  model fills with "missing" (`FillValue` returns `None`). `Imputer.StillMissing` proves that such
  columns are the only place a missing cell survives.
- **A categorical column with no present value.** Here `mode()[0]` fails,
  because the mode is empty. This is the only case excluded by a
  precondition (`Imputer.Imputable`).
- **Null cells in the range filter.** A missing numeric cell is NaN, and NaN
  fails both comparisons of the range test, so such a row is dropped.

The user's widget choices are plain inputs:

| widget | Dafny input |
|---|---|
| the two multiselects | `selCat`, `selNum`, constrained by `Filter.ValidSelection` |
| the sliders that were moved | `picks`, a map from column to range |
| the chart box | `kind` |
| the two axis boxes | `xPick`, `yPick` |

A selectbox whose pick is not one of its options shows its first option.

## Model

| member | source | states |
|---|---|---|
| Frame.DataFrame.constructor | app.py:17 | the frame holds exactly the parsed, well-formed table |
| Frame.DataFrame.Assign | app.py:40-42 | `df[col] = cells` replaces column j with `cells`, keeps the header and every other cell, and keeps the frame well formed |
| Frame.IndexOf | app.py:89 | the first position of a column name; it is in range exactly when the column exists, and no earlier column has that name |
| Frame.ColumnCellsWithColumn | app.py:40-42 | after `df[col] = cells`, reading `df[col]` back gives `cells`, and every other column reads as before |
| Frame.UniqueNamesDistinct | app.py:17 | unique column names are exactly a header in which no name repeats |
| Stats.Mean | app.py:40 | the mean times the number of present values is their sum |
| Stats.Min | app.py:74 | the minimum is one of the values and no value is below it |
| Stats.Max | app.py:75 | the maximum is one of the values and no value is above it |
| Stats.MeanWithinRange | app.py:40 | the mean lies between the minimum and the maximum |
| Stats.Mode | app.py:42 | `mode()[0]` occurs at least as often as any value, and is the smallest value with that frequency |
| Stats.FirstModeUnique | app.py:42 | there is only one such value, so the fill is determined by the column |
| Imputer.AllColumnsFillable | app.py:36-42 | once the frame has a missing cell, every column can be filled (categorical ones have a present value) |
| Imputer.FillValue | app.py:39-42 | numeric column: the mean of the present values, which lies between their minimum and maximum, or missing exactly when there is none; categorical column: the smallest most frequent present value |
| Imputer.FillNa | app.py:40-42 | filling with NaN leaves the series unchanged; filling with a value leaves no missing cell |
| Imputer.FillNaIdempotent | app.py:40-42 | filling a filled series again with the same value changes nothing |
| Imputer.ColumnFill | app.py:39-42 | the fill value of a column has the column's type |
| Imputer.Imputed | app.py:36-42 | the imputed table has the same header and the same number of rows |
| Imputer.FillColumn | app.py:39-42 | one pass of the column loop fills column j of the frame in place, keeping it well formed |
| Imputer.FillColumns | app.py:38-42 | after the loop, the frame holds the table with every column filled |
| Imputer.ImputeNulls | app.py:36-42 | the frame is changed in place into `Imputed` of its old contents and stays well formed |
| Imputer.ImputeCleanIsNoOp | app.py:36 | a frame without a missing cell is left unchanged |
| Imputer.ImputeKeepsPresent | app.py:38-42 | every present cell keeps its value and position |
| Imputer.ImputeFillsNumeric | app.py:39-40 | a missing numeric cell becomes the mean of the column's original present values, or stays missing when the column had none |
| Imputer.ImputeFillsCategorical | app.py:41-42 | a missing categorical cell becomes the smallest most frequent original present value |
| Imputer.StillMissing | app.py:39-42 | a cell still missing afterwards is in a numeric column that had no present value and still has none |
| Imputer.ImputeLeavesOnlyEmptyColumns | app.py:36-42 | the imputed table is well formed and retains missing cells only in all-null numeric columns |
| Imputer.ImputeFillsValuedColumns | app.py:38-42 | a column that had a present value has no missing cell afterwards |
| Imputer.FilledWhereNumbers | app.py:39-40 | an imputed column with a number has no missing cell |
| Imputer.ImputeLeavesNoNull | app.py:36-42 | without all-null columns, the imputed table has no missing cell at all |
| Imputer.ImputeIdempotent | app.py:36-42 | imputing an imputed table changes nothing |
| Filter.SelectSound | app.py:88-89 | every row kept satisfies every range |
| Filter.SelectIsSubsequence | app.py:88-89 | the kept rows are a subsequence of the input, so order is kept and no row is added |
| Filter.SelectCounts | app.py:88-89 | a row occurs as often as in the input if it passes every range, and not at all otherwise |
| Filter.SelectKeepsAll | app.py:86-89 | when every row passes, the copy keeps all rows |
| Filter.KeepInRangeStep | app.py:89 | one more boolean mask on the filtered rows is the same as one more range in the conjunction |
| Filter.ApplyFilters | app.py:86-89 | the loop over `numerical_filters`, taken in any key order, yields exactly the rows passing all ranges |
| Filter.Observed | app.py:74-75 | the default slider range runs from a present value to a present value and encloses all present values |
| Filter.SliderFilters | app.py:70-84 | `numerical_filters` has exactly the selected numeric columns as keys |
| Filter.BuildFilters | app.py:70-84 | the loop builds the picked or default range for every selected numeric column |
| Filter.DefaultRangesKeepAllRows | app.py:74-89 | sliders left at their defaults drop no row when the selected columns have no missing cells |
| Filter.Project | app.py:92-94 | `df[names]` has the selected columns in the given order and the same number of rows |
| Filter.ProjectWellFormed | app.py:94 | projecting onto distinct existing names keeps the table well formed |
| Filter.ProjectByName | app.py:94 | each selected column keeps its type and all its cells |
| Filter.SelectionDistinct | app.py:64-68 | categorical and numeric selections are disjoint and name existing columns |
| Filter.RangeFilteredShape | app.py:86-89 | the filtered copy keeps the header, stays well formed and has no more rows |
| Filter.SideBar | app.py:62-101 | `side_bar` returns the filtered, projected view, and the frame is only read |
| Filter.ViewShape | app.py:92-101 | the view's columns are the selection in order, or all columns when nothing is selected; it is well formed and no longer than the frame |
| Filter.SelectWellFormed | app.py:88-89 | a row-filtered well-formed table is well formed |
| Filter.NoSelectionIsIdentity | app.py:99-101 | with nothing selected the view is the whole frame |
| Chart.NumericColumns | app.py:110 | the names offered are exactly those of the numeric columns, in header order (a subsequence of the header) |
| Chart.NumericColumnsDistinct | app.py:110 | the numeric column names are distinct |
| Chart.Without | app.py:119 | the Y options are exactly the numeric names other than X, in their original order (a subsequence of the input) |
| Chart.WithoutLength | app.py:119 | removing X leaves one option fewer, hence at least one when there are two numeric columns |
| Chart.SelectBox | app.py:118-119 | the box shows the pick when it is an option, and otherwise the first option |
| Chart.ChartSection | app.py:106-139 | no chart exactly for no kind or a kind without behaviour; the warning exactly for line/scatter/box with fewer than two numeric columns; otherwise X is the X box's choice among the numeric columns, the Y options are the numeric columns without X in order, Y is the Y box's choice among them and differs from X, and the box plot is labelled by all numeric columns in header order |
| Dashboard.Run | app.py:143-147 | one run imputes the frame in place, then returns the side bar's view and the chart outcome on that view |
| Dashboard.DefaultSlidersKeepImputedRows | app.py:36-89 | after imputation, sliders left at their defaults keep every row |
| Dashboard.ScenarioRows | app.py:88-89 | on x = 1, 2, 3, the range [2, 3] keeps the second and third rows |
| Dashboard.ScenarioProjection | app.py:92-94 | projecting those rows onto x gives the x cells 2 and 3 |
| Dashboard.ScenarioSelection | app.py:70-84 | selecting x with the slider at [2, 3] gives the filter map {x: [2, 3]} |
| Dashboard.FilterScenario | app.py:70-101 | the whole view for that selection is the column x with the rows 2 and 3 |
| Dashboard.UploadTableImputable | app.py:36-42 | the table a = 1, null, 3 and b = x, y, x can be imputed |
| Dashboard.UploadMean | app.py:40 | the present values of a are 1 and 3, with mean 2 |
| Dashboard.ImputeScenario | app.py:36-42 | the missing a becomes 2.0 |
| Dashboard.SparseColumns | app.py:36-42 | an all-null numeric column has no numbers, and the text column's present values are just x |
| Dashboard.SparseNumericStaysMissing | app.py:39-40 | the all-null numeric column stays missing and the imputer does not fail |
| Dashboard.SparseCategoricalFilled | app.py:41-42 | the missing text cell receives x |

## Left out

- Upload and CSV parsing (app.py:14-21). `pd.read_csv` is not modelled. The frame starts from an already parsed, well-formed table, whose column names are unique as `read_csv` makes them.
- dtype inference. Only the two kinds that drive the branches are modelled: int64/float64 are Numeric, everything else is Categorical. bool and datetime columns are not distinguished.
- Streamlit widgets, layout, messages, warnings and reruns (the `st.*` calls throughout). They are I/O. The widgets' results are the inputs listed above, and `Run` models one run of the script.
- Filter.BuildFilters: the slider step (app.py:76) is not modelled, because it only affects how the widget moves. Clamping of a picked range to the observed bounds is not modelled either: a pick is used as given.
- Filter.ValidSelection: a selected numeric column must have a present number. Otherwise `float(min())` is NaN and the slider cannot be built; this is a precondition rather than a modelled failure.
- Imputer.Imputable: a categorical column that is all null makes `mode()[0]` fail in the source. This is a precondition rather than a modelled failure.
- The column summary table and `df.info()` text (app.py:24-34, 44-51), and `describe()` and `corr()` (app.py:53-57). These are display only.
- Chart drawing (app.py:121-139). matplotlib figures are not modelled. The outcome records the chosen axes and the box plot's labels.
- The categorical column list in the chart section (app.py:111). It is computed but never used.
- Bar, Pie and Histogram. They have no behaviour in the source and give `NoChart`.
- Floating-point rounding. The mean is an exact real, and NaN is modelled as a missing cell.
- Filter.ApplyFilters takes the dictionary's keys in any order, which is more general than Python's insertion order. The result does not depend on the order.
