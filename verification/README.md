# Curve matching (Task_1/mapping.py) in Dafny

This project models the decision logic of the curve-matching program in
`Task_1/mapping.py`. The program works on three tables: training curves,
ideal curves and test points.

- It picks the columns whose name starts with `y` (`get_columns`).
- For every training curve it chooses the ideal curve of equal length with the
  smallest sum of squared errors. It then keeps the four entries with the
  smallest rounded mean squared error (`find_best_fit`).
- It records, for each chosen ideal function, the largest absolute pointwise
  deviation from its training curve (`compute_max_deviation`).
- It assigns every test point to the selected ideal function with the smallest
  deviation that is within sqrt(2) times that function's recorded deviation
  (`map_test_data`).

Tables are immutable values: a sequence of named columns of exact reals.
Every stage is a pure function, with a method wherever the source's loop is
worth mirroring. Files, one module each:

- `options.dfy`: `Option`.
- `numeric.dfy`: the extended reals that stand for `float('inf')`, `Abs`, the
  SSE, the largest absolute difference, `round(v, 4)`, and the sqrt(2)
  tolerance test.
- `argmin.dfy`: the "start at +infinity, replace only when strictly smaller"
  scan that both `find_best_fit` and `map_test_data` perform.
- `tables.dfy`: columns, tables, `get_columns`, and lookup of a column by name.
- `selection.dfy`: `find_best_fit`, including the stable sort and the top 4.
- `dicts.dfy`: a Python dictionary written in a loop, where the last write wins.
- `mapper.dfy`: the two dictionaries of `TestDataMapper`,
  `compute_max_deviation`, `map_test_data`, and the whole run on loaded tables.
- `smallcases.dfy`: the pipeline on one or two curves.
- `scenario_unit.dfy`: the fixture of the repository's unit tests, worked through.
- `scenario_line.dfy`: a one-curve example worked through.

The tolerance test `deviation <= np.sqrt(2) * max_dev` is stated without a
square root as `deviation * deviation <= 2 * max_dev * max_dev`, with
`max_dev >= 0`. `Numeric.ToleranceIsSqrtTwo` proves that, for a deviation
`d >= 0` and any `s > 0` with `s * s == 2`, this is the same test as
`d <= s * max_dev`.

## Model

| member | source | states |
|---|---|---|
| Tables.GetColumns | Task_1/mapping.py:55-57 | the result is a subsequence of the column names (original order) and holds every name with the prefix exactly as often as the table does, and no other name |
| Tables.GetColumnsMembers | Task_1/mapping.py:55-57 | a name is in get_columns' result if and only if it is a column name that starts with the prefix |
| Tables.Lookup | Task_1/mapping.py:105 | looking up a column gives None exactly when no column has that name, and otherwise the values of a column with that name |
| Tables.LookupOwnColumn | Task_1/mapping.py:110 | when names are distinct, looking up a column's own name returns that column's values |
| Numeric.Sse | Task_1/mapping.py:117 | the sum of squared errors is never negative |
| Numeric.SseSelf | Task_1/mapping.py:117 | a curve compared with itself has SSE 0 |
| Numeric.MaxAbsDiff | Task_1/mapping.py:194-195 | np.max(np.abs(a - b)) is at least every pointwise absolute difference and equals one of them |
| Numeric.RoundCloseToValue | Task_1/mapping.py:124 | round(v, 4) lies within 0.00005 of v, on the 0.0001 grid |
| Numeric.RoundMonotone | Task_1/mapping.py:124 | round(v, 4) never reverses the order of two values |
| Numeric.RoundOfGridValue | Task_1/mapping.py:124 | a value already on the 0.0001 grid is unchanged by round(v, 4) |
| Numeric.ToleranceIsSqrtTwo | Task_1/mapping.py:231-234 | for d >= 0, `d <= sqrt(2) * m` holds exactly when `d*d <= 2*m*m` with m >= 0 |
| Numeric.ZeroWithinTolerance | Task_1/mapping.py:231-234 | a deviation of 0 passes the tolerance test for every non-negative recorded deviation |
| ArgMin.FirstMin | Task_1/mapping.py:106-122 | the scan ends on None exactly when no cost is present; otherwise on a present cost that is no larger than any present cost and strictly smaller than every present cost before it |
| Selection.FitColumn | Task_1/mapping.py:104-124 | the entry is (None, +inf) exactly when no ideal curve has the training length; otherwise it names an ideal curve of that length whose SSE is at most every such curve's and strictly below every earlier such curve's, with MSE round(SSE/n, 4) |
| Selection.BestFits | Task_1/mapping.py:104-124 | one entry per training curve, in column order, each satisfying FitColumn's best-fit property |
| Selection.Insert | Task_1/mapping.py:127 | inserting adds exactly the one entry: the result is a permutation of the input plus that entry |
| Selection.InsertSorted | Task_1/mapping.py:127 | insertion keeps an ascending sequence ascending |
| Selection.InsertWithMse | Task_1/mapping.py:127 | insertion leaves the order of the entries of every MSE unchanged and puts the new entry first among its equals |
| Selection.SortByMse | Task_1/mapping.py:127 | the sort's result is ascending by MSE (+inf last) and a permutation of its input |
| Selection.SortByMseStable | Task_1/mapping.py:127 | the sort is stable: for every MSE the entries with that MSE keep their relative order |
| Selection.WithMseOfPrefix | Task_1/mapping.py:127 | cutting a sequence after n entries keeps, for every MSE, the first entries with that MSE |
| Selection.PrefixHoldsSmallest | Task_1/mapping.py:127 | the first n entries of an ascending sequence are no larger than any entry left out |
| Selection.Rank | Task_1/mapping.py:126-127 | sorted(...)[:4] has min(4, n) entries, ascending, taken from its input, each no larger than any entry left out, and for every MSE the kept entries are the first ones with that MSE |
| Selection.FindBestFit | Task_1/mapping.py:101-133 | min(4, #training curves) entries, ascending by MSE, each a best-fit entry of some training curve, with no entry used twice; no kept entry has a larger MSE than a dropped one, and entries of equal MSE keep their best_fits order (stable sort) |
| Selection.FindBestFitKeepsAll | Task_1/mapping.py:126-133 | with at most four training curves the result is a permutation of all best-fit entries |
| Dicts.Overwrite | Task_1/mapping.py:190-195 | after the loop of writes, the keys are the old keys plus every written key |
| Dicts.OverwriteUnwritten | Task_1/mapping.py:190-195 | a key no write mentions keeps its old value |
| Dicts.OverwriteLast | Task_1/mapping.py:190-195 | a written key holds the value of its last write |
| Dicts.OverwriteValues | Task_1/mapping.py:190-195 | every value in the result was in the old dictionary or was written |
| Dicts.LastOfExists | Task_1/mapping.py:190-195 | every written key has a last write |
| Mapper.PairDeviation | Task_1/mapping.py:194-195 | the recorded deviation is non-negative, at least every absolute difference of the paired columns, and equal to one of them |
| Mapper.RecordSelected | Task_1/mapping.py:190-191 | selected_functions gains every entry's training column, maps it to the ideal function of the last entry for that column, and keeps every other key |
| Mapper.RecordDeviations | Task_1/mapping.py:190-195 | max_deviation gains every chosen ideal function, maps it to the deviation of the last entry that chose it (a later entry overwrites an earlier one), and keeps every other key |
| Mapper.ComputeMaxDeviation | Task_1/mapping.py:178-198 | both dictionaries after the loop: keys added, last write wins, untouched keys unchanged |
| Mapper.LastForTrainExists | Task_1/mapping.py:190-191 | every training column an entry mentions has a last entry |
| Mapper.LastForIdealExists | Task_1/mapping.py:190-195 | every ideal function an entry chooses has a last entry choosing it |
| Mapper.ComputeMaxDeviationCovered | Task_1/mapping.py:190-195 | if every selected function had a max_deviation entry before, it has one after |
| Mapper.RecordSelectedIdempotent | Task_1/mapping.py:190-191 | recording the same entries twice into selected_functions equals recording them once |
| Mapper.RecordDeviationsIdempotent | Task_1/mapping.py:190-195 | recording the same entries twice into max_deviation equals recording them once |
| Mapper.ComputeMaxDeviationIdempotent | Task_1/mapping.py:178-198 | running compute_max_deviation again on the same entries changes nothing |
| Mapper.FirstRow | Task_1/mapping.py:223 | None exactly when no row holds x; otherwise the first row holding x |
| Mapper.Offer | Task_1/mapping.py:223-234 | a candidate offers a deviation only at the first row with the point's x and only when that deviation passes the tolerance test; no offer means no such row or a failed test |
| Mapper.AssignPoint | Task_1/mapping.py:217-239 | x and y copied; no function exactly when no candidate offers; +inf when unassigned; otherwise a candidate whose offer is the deviation, no larger than any offer and strictly below every offer visited earlier |
| Mapper.AssignPointOrderIndependent | Task_1/mapping.py:222 | any two orders of the same candidate set give the same assigned/unassigned outcome and the same deviation |
| Mapper.AssignPointTieGoesToFirst | Task_1/mapping.py:234-237 | of two candidates offering the same deviation, the first one visited wins |
| Mapper.AssignPointTieDependsOnOrder | Task_1/mapping.py:222-237 | with a tie between two different candidates, the two visiting orders assign different functions |
| Mapper.AssignPointExactHit | Task_1/mapping.py:223-237 | a point on a candidate's curve at the first row with its x is assigned with deviation 0 when that candidate's recorded deviation is non-negative |
| Mapper.MatchPoint | Task_1/mapping.py:219-239 | the source's inner loop, strict-< replacement included, computes AssignPoint |
| Mapper.SetOrder | Task_1/mapping.py:222 | the set is visited as a duplicate-free listing of exactly its elements |
| Mapper.MapTestData | Task_1/mapping.py:214-241 | one row per test point, in order, x and y copied; None with +inf exactly when no selected function offers; otherwise a selected function whose offer is the deviation and no larger than any other offer |
| Mapper.BestFitPaired | Task_1/mapping.py:188-194 | a best-fit entry naming an ideal function pairs two columns of one non-zero length |
| Mapper.BestFitsPaired | Task_1/mapping.py:188-194 | every entry of find_best_fit that names an ideal function pairs two columns of one non-zero length |
| Mapper.FindBestFitPaired | Task_1/mapping.py:188-194 | when every entry names an ideal function, every entry can be handed to compute_max_deviation |
| Mapper.MaxDeviationOfTables | Task_1/mapping.py:188-195 | the state after compute_max_deviation on fresh dictionaries: every selected function has a max_deviation entry, and every selected function is one find_best_fit chose |
| Mapper.MaxDeviationOfTablesReady | Task_1/mapping.py:222-231 | on a rectangular ideal table, every function map_test_data visits can be looked up without a KeyError |
| Mapper.MapTables | Task_1/mapping.py:178-241 | the whole run: one row per test point, in order, x and y copied, and every assigned function is the ideal function of some find_best_fit entry |
| SmallCases.GetColumnsOfTwo | Task_1/mapping.py:57 | get_columns on [a, b], where only b has the prefix, is [b] |
| SmallCases.GetColumnsOfThree | Task_1/mapping.py:57 | get_columns on [a, b, c], where b and c have the prefix, is [b, c] |
| SmallCases.IdealCurvesOfTwo | Task_1/mapping.py:110 | an ideal table with two curves gives their values in column order |
| SmallCases.FitColumnOfTwo | Task_1/mapping.py:120-122 | over two ideal curves of the right length, the second is chosen only when its SSE is strictly smaller |
| SmallCases.OneCurveBestFits | Task_1/mapping.py:104-124 | one training curve gives one best-fit entry |
| SmallCases.TwoCurveBestFits | Task_1/mapping.py:104-124 | two training curves give two entries, in column order |
| SmallCases.SingleCurveBestFit | Task_1/mapping.py:126-133 | with one training curve, find_best_fit returns its one entry |
| SmallCases.SortedPair | Task_1/mapping.py:127 | sorting two entries of different MSE puts the smaller first |
| SmallCases.TwoCurvesBestFit | Task_1/mapping.py:126-133 | with two training curves of different MSE, find_best_fit lists the smaller MSE first |
| SmallCases.SingleEntryState | Task_1/mapping.py:190-195 | one entry leaves a fresh mapper with one selection and one recorded deviation |
| SmallCases.OverwriteTwo | Task_1/mapping.py:190-195 | two dictionary writes are two map updates, applied in order |
| SmallCases.TwoEntriesState | Task_1/mapping.py:190-195 | two entries recorded in order into fresh dictionaries, the second write winning on a shared key |
| SmallCases.SharedIdealState | Task_1/mapping.py:195 | when two entries choose the same ideal function, the deviation recorded for it is the second entry's |
| SmallCases.OfferAtFirstRow | Task_1/mapping.py:223-234 | a candidate's offer is the deviation at the first row with the point's x, when that deviation passes the test |
| SmallCases.OneCandidateRows | Task_1/mapping.py:217-239 | with a single selected function that offers d to every point, every row is assigned to it with deviation d |
| UnitScenario.UnitColumns | Task_1/test_mapping.py:40-44 | get_columns on the unit-test tables gives ['y1', 'y2'] |
| UnitScenario.UnitBestFitCount | Task_1/test_mapping.py:68-73 | find_best_fit on the unit-test tables has two entries |
| UnitScenario.UnitBestFit | Task_1/test_mapping.py:68-73 | find_best_fit on the unit-test tables gives y1 -> y2 with MSE 0, then y2 -> y2 with MSE 0.01 |
| UnitScenario.UnitState | Task_1/test_mapping.py:97-101 | compute_max_deviation on those entries selects y2 for both curves and records only y2 -> 0.1, the second write overwriting the first |
| UnitScenario.UnitMapping | Task_1/test_mapping.py:103-108 | map_test_data gives three rows, in order, each assigned to y2 with deviation 0.05 |
| LineScenario.LineBestFit | Task_1/mapping.py:101-133 | the training curve y1 = x is matched to the ideal curve y1 = x, not y2 = 2x, with MSE 0 |
| LineScenario.LineState | Task_1/mapping.py:178-198 | the whole compute_max_deviation run records y1 -> y1 and a deviation of 0 |
| LineScenario.LinePointOnCurve | Task_1/mapping.py:217-239 | the point (1, 1) on y1 is assigned to y1 with deviation 0 |
| LineScenario.LinePointOffCurve | Task_1/mapping.py:227-239 | the point (1, 5) fails the test sqrt(2) * 0 and is left unassigned with deviation +inf |

## Left out

- Loading the tables from SQLite in `DataHandling.__init__` and `save_to_database` (Task_1/mapping.py:37-52, 243-251) is database I/O. The model starts from tables already in memory and ends with the rows.
- `Task_1/CSV_DB.py`, `Task_1/visualization.py` and `Task_1/main.py` are not part of this model. They hold CSV ingestion, plotting and orchestration, with no matching logic.
- The `try`/`except` in `find_best_fit` (Task_1/mapping.py:135-137) is not modelled. It prints an error and returns None. The only failure inside it the model could reach is a division by zero on an empty training curve. `Selection.NonEmptyCurves` is required instead.
- All `print` calls, including the shape-mismatch message at line 113, are left out. They have no effect on the results.
- Floating point is not modelled; every value is an exact real.
  - `np.sqrt(2)` becomes the exact test described above.
  - `round(v, 4)` is modelled as exact round-half-to-even to four decimals.
- Selection.FindBestFit: the result is a sequence of entries in dictionary order. It does not model a Python `dict` with two equal training-column keys, because a table read from SQLite cannot have duplicate column names.
- Mapper.ComputeMaxDeviation requires every entry to name an ideal function. It also requires both columns of each entry to exist with one non-zero length. In the source, a `(None, +inf)` entry that reaches the top four makes `ideal_data[None]` raise a KeyError, and that failure is not modelled.
- Mapper.MapTestData requires every selected function to have an x column, its own column of the same length, and a max_deviation entry. Those are the lookups that would otherwise raise. On a pandas table, equal column lengths always hold. `Mapper.MaxDeviationOfTablesReady` shows the precondition holds after `compute_max_deviation`.
- Mapper.SetOrder: CPython's hash order for iterating `set(self.selected_functions.values())` is not modelled. The method picks some duplicate-free order. `Mapper.MapTestData` states only what holds in every order. `Mapper.AssignPointOrderIndependent` and `Mapper.AssignPointTieDependsOnOrder` say what does and does not depend on the order.
- Mapper.MapTables: the whole run states that rows copy the test points and that assigned functions come from `find_best_fit`. The per-point minimality is stated in `Mapper.MapTestData`. The concrete unit-test state is stated in `UnitScenario.UnitState` on the entries `UnitScenario.UnitBestFit` proves `find_best_fit` returns. That combination is not restated as one lemma over the loaded tables.
- Behaviours of the source worth noting:
  - an entry `(None, +inf)` is ranked last rather than left out of the ranking;
  - an unassigned test point keeps the deviation `+inf` rather than the smallest deviation examined;
  - the candidate set is visited in set order, not sorted order.
