# Feature engineering for half-hourly electricity demand

This project is a Dafny model of the feature-engineering service of an Australian
electricity-demand forecasting pipeline. The service reads two tables from MongoDB:

- half-hourly total demand per state (`state`, `DATETIME`, `TOTALDEMAND`, …);
- temperature readings per state (`state`, `DATETIME`, `LOCATION`, `TEMPERATURE`, …).

From these it builds a training table and writes it to a target collection. The run
(`feature-engineering/app.py`, `run`) does the following:

1. drops `LOCATION` from the temperature frame;
2. left-merges demand with temperature on `(state, DATETIME)`;
3. fills the gaps of every value column with an iterative imputer;
4. derives eight calendar columns: year, month, day of month, day of week, weekday
   flag, half-hour slot, public holiday and daylight; month, day of week and slot
   are sine-encoded;
5. adds ten look-ahead columns `h1_<c>` and `h24_<c>`: the value of `c` in the
   reading 2 and 48 places later among the same state's readings in time order
   (one hour and one day later only when no reading is missing);
6. adds 48 dense demand targets `TM30` … `TM1440`: `TM(30·i)` is the demand of the
   reading `i` places later among the same state's readings in time order;
7. drops every row with a missing cell;
8. replaces the target collection with the result.

Any exception ends the run with a message. An exception raised before the target is
dropped leaves it as it was. An empty result is the exception: the target is dropped
first, then writing no records raises, so the target ends dropped and absent.

The model is organised by step:

| module | what it models |
|---|---|
| `Wrappers` | `Option` (a pandas NaN is `None`) and `Result` (an exception is `Failure`) |
| `Table` | rows keyed by `(state, DATETIME)` with a map of cells, column lists, the `groupby('state')` view, `dropna` |
| `Counting` | how many readings a state has at, after or in any window around a time; unique keys |
| `Order` | `sort_values` by `['state', 'DATETIME']` and by `'DATETIME'` |
| `Shift` | `groupby('state')[c].shift(-k)`: a positional look-ahead inside each state |
| `Horizons` | a list of look-ahead assignments (target column, base column, offset) and its effect on a frame |
| `Frames` | the mutable `DataFrame` that the steps update in place |
| `Features` | `add_lagged_features` and `add_shifted_demand_features` as methods with loops |
| `Survival` | which readings `dropna` keeps after the two look-ahead steps |
| `Calendar` | half-hour slot, day of week, `transform_periodic_values`, the weekday flag |
| `Daylight` | `STATE_TIMEZONES` and `is_daylight` (both the service's and the exploration script's) |
| `Join` | the left merge on `(state, DATETIME)` |
| `Imputation` | `impute_missing_values`, with the fitted imputer as a parameter |
| `Derive` | the eight calendar columns |
| `Pipeline` | the target collection and `run` from end to end |

`DATETIME` is an integer number of minutes since 1970-01-01 00:00 UTC. The readings
are half-hourly.

The outside world is passed in as a parameter:

- the imputer's `fit_transform`;
- the holiday calendar;
- the time-zone offsets and sun times that `is_daylight` consults;
- the calendar date of a day number;
- `sin` and `pi`.

The branches, the column names, the offsets 2, 48 and 1 … 48 and the error paths
follow app.py. There is one deliberate difference: the `is_weekday` column holds the
corrected flag (see "## Findings" and the `Derive.WithFeatures` line under
"## Left out").

Three facts about the code shape the model:

- The merge is a **left** join (`how='left'`, app.py:244). It is not an outer join.
- Temperature readings that share a key are **not** averaged before the merge. The
  merge repeats the demand row once per such reading (`Join.MergeMultiplies`).
- A value column with no value at all does **not** pass through the imputer. The
  imputer drops such a column, the rebuilt frame no longer fits its column list, and
  the run fails (`Imputation.Impute`).

## Model

| member | source | states |
|---|---|---|
| `Table.AddColumnName` | feature-engineering/app.py:202-203 | assigning a new column appends its name once; the old columns stay first and distinct names stay distinct |
| `Table.RemoveColumnName` | feature-engineering/app.py:241 | dropping a column removes exactly that name and keeps the others distinct; with distinct names the others keep their order (the list without position `k`); without `c` the list is unchanged |
| `Table.SetColumn` | feature-engineering/app.py:202-203 | `df[c] = values` sets cell `c` of row `i` to `values[i]` and leaves every key and every other cell as it was |
| `Table.DropColumn` | feature-engineering/app.py:241 | dropping `LOCATION` keeps every row and key and removes that one cell from each row |
| `Table.DropNa` | feature-engineering/app.py:269 | `dropna` keeps exactly the rows without a missing cell, never more rows than before |
| `Table.DropNaMultiplicity` | feature-engineering/app.py:269 | `dropna` keeps each complete row exactly as often as it occurs and drops every incomplete one |
| `Table.DropNaAppend` | feature-engineering/app.py:269 | `dropna` works row by row and keeps the order: on a concatenation it is the concatenation of the two results |
| `Table.FilterAtRank` | feature-engineering/app.py:202 | a row sits in its state's group at its rank, the number of same-state rows before it |
| `Table.StripAll` | feature-engineering/app.py:178-226 | removing the added columns gives back each row with only the other cells |
| `Order.SortValues` | feature-engineering/app.py:189 | `sort_values` returns a permutation of the rows (same multiset, same length) that is sorted by the key |
| `Order.FilterChronological` | feature-engineering/app.py:189 | after either sort, the rows of one state are in time order, so a positional shift inside a group moves forward in time |
| `Order.SortValuesMembers` | feature-engineering/app.py:218 | sorting brings in no new row |
| `Counting.CountPermutation` | feature-engineering/app.py:189 | reordering rows keeps every count of readings by state and window |
| `Counting.UniqueKeysPermutation` | feature-engineering/app.py:218 | reordering rows keeps `(state, DATETIME)` unique when it was unique |
| `Counting.CountDropNa` | feature-engineering/app.py:269 | `dropna` never adds a reading to any count by state and window |
| `Counting.UniqueKeysDropNa` | feature-engineering/app.py:269 | `dropna` keeps unique keys unique |
| `Counting.LaterBelowSize` | feature-engineering/app.py:202-203 | a row has fewer later readings of its state than its state has readings |
| `Shift.ShiftSource` | feature-engineering/app.py:202 | the row a shift reads from is later in the frame and in the same state |
| `Shift.GroupShift` | feature-engineering/app.py:202-203 | the shifted column has one cell per row |
| `Shift.GroupShiftSource` | feature-engineering/app.py:202-203 | `groupby('state')[c].shift(-k)` gives row `i` the cell `c` of the `k`-th later row of its own state, and a missing cell when there is none; it never reads another state |
| `Shift.GroupShiftValue` | feature-engineering/app.py:202-203 | row `i` of the shifted column is `c` of the row whose rank in the state is rank(`i`)+`k`, missing past the state's end |
| `Shift.ShiftSourceRank` | feature-engineering/app.py:202-203 | the source row has rank exactly `k` more than row `i`; there is none exactly when the state has at most rank(`i`)+`k` rows |
| `Shift.GroupShiftCongruent` | feature-engineering/app.py:202-203 | the shift depends only on the keys and on column `c`, not on the other cells |
| `Shift.AheadNone` | feature-engineering/app.py:202 | looking `k` rows ahead in a group finds nothing exactly when the group has fewer than `k` rows left |
| `Horizons.AddShifts` | feature-engineering/app.py:201-203 | a run of look-ahead assignments keeps the number of rows |
| `Horizons.AddShiftsSpec` | feature-engineering/app.py:201-203 | after the assignments every key is kept, each row gains exactly the target columns, every other cell is unchanged, and each target is the group shift of its base column on the frame before |
| `Horizons.AddShiftsRestore` | feature-engineering/app.py:201-203 | removing the target columns gives back the frame before: the assignments change nothing else |
| `Horizons.AddShiftsOffset` | feature-engineering/app.py:201-203 | target `j` of row `i` is the base column of the state's row `offset` places later, missing past the end |
| `Horizons.AddColumnNames` | feature-engineering/app.py:201-203 | the new columns are the old ones plus the targets; distinct names stay distinct |
| `Horizons.AddColumnNamesHas` | feature-engineering/app.py:201-203 | a column is in the extended list exactly when it was there before or is a target |
| `Horizons.LagHorizons` | feature-engineering/app.py:192-203 | each lag column `c` gets `h1_c` at offset 2 and then `h24_c` at offset 48, in the loop's order |
| `Horizons.LagHorizonsValid` | feature-engineering/app.py:201-203 | for distinct lag columns the twenty assignments write distinct targets and none reads a column another writes |
| `Horizons.DenseHorizons` | feature-engineering/app.py:221-224 | assignment `i` writes `TM(30·i)` from `TOTALDEMAND` at offset `i` |
| `Horizons.DenseTargets` | feature-engineering/app.py:221-224 | the dense step adds exactly the 48 distinct columns `TM30` … `TM1440` |
| `Frames.DataFrame.constructor` | feature-engineering/app.py:158 | a frame is built from a column list and rows that fit it |
| `Frames.DataFrame.SetColumn` | feature-engineering/app.py:202-203 | assigning a column updates the frame in place: the column list gains `c` and the rows become `Table.SetColumn` of the old rows |
| `Frames.DataFrame.Drop` | feature-engineering/app.py:241 | `drop(c, inplace=True)` succeeds exactly when `c` is a column, removing it; otherwise (a `KeyError`) the frame is unchanged |
| `Frames.DataFrame.DropNa` | feature-engineering/app.py:269 | `dropna(inplace=True)` keeps the columns and replaces the rows by the complete ones |
| `Frames.DataFrame.SortValues` | feature-engineering/app.py:218 | `sort_values(inplace=True)` keeps the columns and puts the rows in sorted order |
| `Frames.DataFrame.SortedCopy` | feature-engineering/app.py:189 | `sort_values` without `inplace` returns a fresh frame with the sorted rows and leaves the original alone |
| `Frames.PermutationKeepsShape` | feature-engineering/app.py:189 | a reordered frame still fits its column list |
| `Features.AddLaggedFeatures` | feature-engineering/app.py:178-205 | returns a fresh frame: the input sorted by state and time with the ten look-ahead columns added |
| `Features.AddLagColumns` | feature-engineering/app.py:201-203 | the loop over the lag columns leaves the frame equal to all its assignments applied to the frame before |
| `Features.AddShiftedDemandFeatures` | feature-engineering/app.py:207-226 | sorts the frame in place by time, adds `TM30` … `TM1440` with the loop, and returns the same frame object |
| `Features.LagOffsets` | feature-engineering/app.py:189-203 | in the lagged frame, `h1_c` is `c` two readings later and `h24_c` is `c` 48 readings later in the same state, in time order, missing past the state's end |
| `Features.DenseOffsets` | feature-engineering/app.py:218-224 | in the dense frame, `TM(30k)` is the demand `k` readings later in the same state, in time order, missing past the state's end |
| `Features.LaggedKeepsRows` | feature-engineering/app.py:178-205 | the lag step only reorders and adds columns: without them it is the sorted input, a permutation of it |
| `Features.ShiftedKeepsRows` | feature-engineering/app.py:207-226 | the dense step only reorders and adds columns: without them it is the time-sorted input, a permutation of it |
| `Features.LagColumnsValid` | feature-engineering/app.py:192 | the five lag columns give ten valid assignments |
| `Survival.RankLater` | feature-engineering/app.py:202-203 | a row's rank in its state plus one plus its number of later readings is the state's size |
| `Survival.ShiftedCellSome` | feature-engineering/app.py:202-203 | a shifted cell is present exactly when the state has more than rank+`k` rows |
| `Survival.StepComplete` | feature-engineering/app.py:201-224 | after one run of look-aheads a row is complete exactly when it was complete and has at least the largest offset of later readings |
| `Survival.FeatureCounts` | feature-engineering/app.py:178-226 | the two look-ahead steps keep every count by state and window |
| `Survival.FeatureKeys` | feature-engineering/app.py:178-226 | unique keys stay unique through both sorts and the lag step |
| `Survival.LaggedComplete` | feature-engineering/app.py:178-205 | a lagged row of a complete frame is complete exactly when its state has at least 48 later readings |
| `Survival.ShiftedComplete` | feature-engineering/app.py:178-226 | after both steps a row is complete exactly when its state has at least 48 later readings |
| `Survival.RowSurvival` | feature-engineering/app.py:263-269 | `dropna` after the two steps keeps exactly the rows whose state has at least 48 later readings: every state loses its last 48 rows |
| `Survival.DropNaByLater` | feature-engineering/app.py:269 | when completeness is decided by the later-reading count, so is what `dropna` keeps |
| `Survival.SmallStateVanishes` | feature-engineering/app.py:263-269 | a state with at most 48 readings contributes no row |
| `Survival.KeptUnique` | feature-engineering/app.py:263-269 | with unique keys going in, the table `dropna` leaves has unique keys |
| `Survival.KeptRowsCounted` | feature-engineering/app.py:263-269 | every kept row's key occurs once and has at least 48 later readings, counted in any frame with the same counts |
| `Survival.KeptReadingsCounted` | feature-engineering/app.py:263-269 | every reading with at least 48 later readings of its state comes out |
| `Calendar.Hour` | feature-engineering/app.py:258 | the hour of a reading is in 0 … 23 |
| `Calendar.Minute` | feature-engineering/app.py:258 | the minute of a reading is in 0 … 59 |
| `Calendar.PeriodSlot` | feature-engineering/app.py:258 | the half-hour slot is in 0 … 47 |
| `Calendar.PeriodSlotFormula` | feature-engineering/app.py:258 | the slot is `hour * 2 + minute // 30` |
| `Calendar.PeriodSlotDaily` | feature-engineering/app.py:258 | the slot repeats every day |
| `Calendar.PeriodSlotNext` | feature-engineering/app.py:258 | consecutive half-hourly readings have consecutive slots, wrapping 47 to 0 |
| `Calendar.DayOfWeek` | feature-engineering/app.py:256 | `dayofweek` is in 0 … 6 |
| `Calendar.DayOfWeekNext` | feature-engineering/app.py:256 | the next day's `dayofweek` is one more, wrapping Sunday (6) to Monday (0) |
| `Calendar.TransformPeriodicRange` | feature-engineering/app.py:166-176 | `transform_periodic_values` lies in [-1, 1] |
| `Calendar.IsWeekdayAlwaysTrue` | feature-engineering/app.py:256-257 | the flag as written, which tests the sine-encoded day, is true for every reading |
| `Calendar.DayOfWeekAfter` | feature-engineering/app.py:256 | `k` days later the day of the week has moved on by `k`, modulo 7 |
| `Calendar.WeekdaysPerWeek` | feature-engineering/app.py:256-257 | under the intended flag, any seven consecutive days hold exactly five weekdays |
| `Calendar.IsWeekdaySaturday` | feature-engineering/app.py:256-257 | 1970-01-03 is a Saturday; the written flag calls it a weekday and the corrected flag does not |
| `Calendar.WeekFromSize` | feature-engineering/app.py:256-257 | from any day of the week, five of the next seven days are Monday … Friday |
| `Daylight.Timezone` | feature-engineering/app.py:20-25 | a state has a time zone exactly when it is NSW, QLD, SA or VIC; the zone is an `Australia/` zone; any other state is a `KeyError` naming the state |
| `Daylight.TimezoneInjective` | feature-engineering/app.py:20-25 | no two states share a time zone |
| `Daylight.IsDaylight` | feature-engineering/app.py:124-141 | fails exactly for an unknown state; otherwise true exactly when the instant is strictly between sunrise and sunset of its local date |
| `Daylight.IsDaylightLocalDate` | feature-engineering/app.py:134-139 | the answer depends only on the zone's offset at the instant and on the sun times of the local date |
| `Daylight.IsDaylightEmptyDay` | feature-engineering/app.py:141 | on a date whose sunset is not after sunrise, no instant is daylight |
| `Daylight.LocalDayAhead` | feature-engineering/app.py:135-139 | in a zone ahead of UTC, a late-evening UTC reading takes the next local date's sun times |
| `Daylight.LocalDaySame` | feature-engineering/app.py:135-139 | earlier readings keep their UTC date |
| `Daylight.IsDaylightScratch` | feature-engineering/scratch.py:14-31 | the script's variant fails exactly for an unknown state |
| `Daylight.ScratchAlwaysTrue` | feature-engineering/scratch.py:31 | when sunrise is not after sunset, the script's test holds for every instant |
| `Daylight.VariantsAgree` | feature-engineering/scratch.py:31 | on an ordinary date the script and the service agree exactly on the daylight instants |
| `Daylight.ScratchNightCounterexample` | feature-engineering/scratch.py:31 | a reading at 20:00 with sunset at 18:00 is night for the service and daylight for the script |
| `Join.KeyMatches` | feature-engineering/app.py:244 | the right rows with a given key, as many as the right frame has |
| `Join.MergeRow` | feature-engineering/app.py:244 | one left row comes out once per partner, or once without one, always with its key |
| `Join.LeftMerge` | feature-engineering/app.py:244 | a left merge has at least as many rows as the left frame |
| `Join.LeftMergeAppend` | feature-engineering/app.py:244 | the merge works left row by left row and keeps their order: on a concatenation it is the concatenation of the two merges |
| `Join.LeftMergeKeepsKeys` | feature-engineering/app.py:244 | every left key comes out, and every merged row carries a left key |
| `Join.MergeRowCells` | feature-engineering/app.py:244 | every row produced from one left row keeps that row's cells, when the right columns are new |
| `Join.LeftMergeKeepsCells` | feature-engineering/app.py:244 | whatever the right keys, every left row comes out with its key and all its cells |
| `Join.Partner` | feature-engineering/app.py:244 | a left row has a partner exactly when the right frame has its key |
| `Join.MergeMultiplies` | feature-engineering/app.py:244 | the merge keeps the demand row count exactly when no demand row has two temperature readings |
| `Join.LeftMergeAt` | feature-engineering/app.py:244 | with unique right keys, merged row `i` is demand row `i` joined with its partner |
| `Join.LeftMergeCells` | feature-engineering/app.py:244 | with unique right keys the merge keeps the left keys and cells and fills each right column from the partner, or leaves it missing |
| `Join.LeftMergeShape` | feature-engineering/app.py:244 | the merge of two frames with disjoint columns has the left columns then the right ones |
| `Join.LeftMergeCounts` | feature-engineering/app.py:244 | with unique right keys the merge keeps every count, so unique demand keys stay unique |
| `Imputation.Numeric` | feature-engineering/app.py:158 | the imputer reads a number as itself and a gap as a gap; it cannot read text |
| `Imputation.Matrix` | feature-engineering/app.py:152-158 | the imputer's input has one row per frame row and one column per value column |
| `Imputation.Cells` | feature-engineering/app.py:158-162 | an imputed row holds a number in every value column |
| `Imputation.Impute` | feature-engineering/app.py:143-164 | succeeds exactly when there is a row and a column, every cell is readable, no column is wholly missing and the output fits; the result keeps each row's key and holds the imputed value in every cell |
| `Imputation.ImputeShape` | feature-engineering/app.py:143-164 | an imputed frame fits its columns and has no missing cell |
| `Imputation.ImputeKeepsReadings` | feature-engineering/app.py:143-164 | an imputer that only fills gaps leaves every reading as it was |
| `Derive.FeatureColumn` | feature-engineering/app.py:253-260 | one derived column has one value per row |
| `Derive.WithFeatures` | feature-engineering/app.py:253-260 | the calendar columns keep every key and add to each row the derived value of each column, leaving the other cells alone |
| `Derive.DeriveError` | feature-engineering/app.py:111-141 | the derivation raises exactly when the holiday calendar or the time-zone table fails for some row |
| `Derive.AddCalendarFeatures` | feature-engineering/app.py:253-260 | the eight assignments in place: on success the rows are `WithFeatures` of the old rows and the columns gain the eight names, in order |
| `Derive.Assign` | feature-engineering/app.py:253-260 | one assignment extends the derived frame by one column |
| `Derive.WithFeaturesShape` | feature-engineering/app.py:253-260 | a complete frame with its calendar columns fits the extended column list and has no missing cell |
| `Derive.WeekdayColumnAsWritten` | feature-engineering/app.py:257 | the modelled weekday column equals the always-true column of the source exactly on Monday … Friday readings |
| `Derive.DerivedColumnsInOrder` | feature-engineering/app.py:253-260 | the eight calendar columns are added in the order of the assignments |
| `Derive.FeaturesPresent` | feature-engineering/app.py:253-260 | without a lookup error, every calendar column has a value in every row |
| `Derive.EncodedFeaturesBounded` | feature-engineering/app.py:254-258 | month, day of week and slot are encoded in [-1, 1] |
| `Derive.FeaturesPeriodic` | feature-engineering/app.py:256-258 | the slot repeats daily; day of week and the weekday flag repeat weekly |
| `Derive.DerivedColumnsPlain` | feature-engineering/app.py:192 | no calendar column is demand, a location or a look-ahead column; every lag column is demand or a calendar column |
| `Pipeline.Collection.constructor` | feature-engineering/app.py:272 | a target collection either exists or holds no record |
| `Pipeline.Collection.Drop` | feature-engineering/app.py:273 | dropping the collection leaves it absent and empty |
| `Pipeline.Collection.InsertMany` | feature-engineering/app.py:276 | inserting succeeds exactly for a non-empty list, creating the collection and appending the records; an empty list raises and changes nothing |
| `Pipeline.LagColumnsPresent` | feature-engineering/app.py:192-203 | the calendar columns add no demand column; with demand present every lag column is there |
| `Pipeline.MergeImpute` | feature-engineering/app.py:244-247 | the merge then imputation; a success fits the joined columns |
| `Pipeline.FeatureSteps` | feature-engineering/app.py:250-269 | the calendar columns, look-ahead steps and `dropna`, with the error of a failed lookup or a missing `TOTALDEMAND` |
| `Pipeline.BuildTable` | feature-engineering/app.py:244-269 | merge, imputation and feature steps on two frames, with their errors |
| `Pipeline.Run` | feature-engineering/app.py:228-280 | the run drops `LOCATION` from the temperature frame in place (a `KeyError` without it) and computes the feature table; on an error the target is untouched; on success the target is replaced by the table, and an empty table leaves it dropped and absent |
| `Pipeline.JoinedCounts` | feature-engineering/app.py:241-244 | with one temperature reading per key, the merged frame fits its columns and keeps demand's counts and unique keys |
| `Pipeline.DerivedColumnsShape` | feature-engineering/app.py:244-260 | no column before the look-ahead steps is a look-ahead column |
| `Pipeline.FeatureTableValue` | feature-engineering/app.py:228-269 | a successful run had `LOCATION`, a successful imputation, no lookup error and `TOTALDEMAND`, and its table is `dropna` of the two look-ahead steps on the derived frame |
| `Pipeline.DerivedCounts` | feature-engineering/app.py:241-260 | the derived frame keeps demand's counts and unique keys |
| `Pipeline.DerivedShape` | feature-engineering/app.py:247-260 | the derived frame fits its columns and has no missing cell |
| `Pipeline.DerivedPrepared` | feature-engineering/app.py:241-260 | the frame reaching the look-ahead steps is complete, has unique keys and all lag columns, and has no look-ahead column yet |
| `Pipeline.PipelineSurvival` | feature-engineering/app.py:228-276 | every row of the written table carries the key of exactly one demand reading, one with at least 48 later readings of its state; every such demand reading comes out; the written table has unique keys |
| `Pipeline.PipelineSmallState` | feature-engineering/app.py:228-276 | a state with at most 48 demand readings is absent from the written table |

## Left out

- Reading from MongoDB (`read_mongo_data`, the client, `close_connection`) is not modelled. The frames are parameters. The `_id` column is never part of them.
- `check_collection_exists` becomes the `present` field of `Pipeline.Collection`. A database error is not modelled.
- The printed progress and error messages are not modelled. An exception becomes a `Failure` carrying a short message, and the run ends there.
- `IterativeImputer` is not modelled. Its fitted `fit_transform` is a parameter; only how its input is read, when it raises and how its output is used are modelled.
- The holiday calendar (`holidays.AU`) is a parameter, and so are the time-zone offsets (`pytz`) and the sun times (`astral`).
- The sun times come from `LocationInfo(timezone=…)`, which uses the library's default coordinates. The model takes the sun times as given, so the choice of coordinates is not modelled.
- Floating point is not modelled: `sin` and `pi` are parameters over reals.
- The calendar date of a day number (`.dt.year`, `.dt.month`, `.dt.day`) is a parameter. Day of week, hour and minute are computed from the minute count.
- `pd.to_datetime` is not modelled: `DATETIME` is already a whole number of minutes since the epoch. Rows whose key is NaN are not modelled.
- `Order.SortValues`: the sort is modelled by insertion sort, which is stable, whereas `sort_values('DATETIME')` uses quicksort, which is not. The properties proved only use "sorted and a permutation", and the two look-ahead steps depend only on each state's time order. Ties in time between rows of one state do not occur when keys are unique.
- `Derive.WithFeatures`, `Derive.AddCalendarFeatures`, `Pipeline.FeatureSteps`, `Pipeline.BuildTable` and `Pipeline.Run`: the `is_weekday` column holds the corrected flag `Calendar.IsWeekday` (false on Saturday and Sunday), whereas app.py:257 writes `True` on every row. `Derive.WeekdayColumnAsWritten` states where the two columns differ. No other column and no row count depends on the flag.
- `Table.DropNa`: its own contract states length and membership; multiplicity is stated by `Table.DropNaMultiplicity` and order by `Table.DropNaAppend`.
- `Join.LeftMerge`: its own contract states only the row count; the order is stated by `Join.LeftMergeAppend`, keys and cells of every left row by `Join.LeftMergeKeepsKeys` and `Join.LeftMergeKeepsCells`, and the exact rows for unique right keys by `Join.LeftMergeAt` and `Join.LeftMergeCells`.
- `Pipeline.Run`: assumes the demand and temperature frames share no value column. Overlapping columns would get the `_x`/`_y` suffixes of `merge`, and those are not modelled.
- `Pipeline.PipelineSurvival` and `Pipeline.PipelineSmallState`: stated for unique `(state, DATETIME)` keys in both inputs, because a duplicate temperature key multiplies rows (`Join.MergeMultiplies`).
- The script part of `feature-engineering/scratch.py` (reading the CSV, counting and printing) is not modelled.
- The exploratory scripts `data-analysis/data_visualisations.py` and `data-analysis/summary_statistics.py` are not part of this model.

## Findings

| source | as written | input that shows it | evidently intended | confidence | as-written member | corrected member |
|---|---|---|---|---|---|---|
| feature-engineering/scratch.py:31 | `not (sunset < t < sunrise)` is true whenever sunrise ≤ sunset, so every reading counts as daylight | a reading at 20:00 UTC on 1970-01-01 with sunrise at 06:00 and sunset at 18:00 | `sunrise < t < sunset`, as in app.py:141 | high, not executed | `Daylight.IsDaylightScratch` (`Daylight.ScratchAlwaysTrue`, `Daylight.ScratchNightCounterexample`) | `Daylight.IsDaylight` (`Daylight.VariantsAgree`, `Daylight.IsDaylightEmptyDay`) |
| feature-engineering/app.py:256-257 | `is_weekday` compares the sine-encoded day of week, which is at most 1, with 5, so the flag is true for every reading | a reading on Saturday 1970-01-03 (day of week 5) | the raw `dayofweek < 5` | high, not executed | `Calendar.IsWeekdayAsWritten` (`Calendar.IsWeekdayAlwaysTrue`, `Calendar.IsWeekdaySaturday`) | `Calendar.IsWeekday` (`Calendar.WeekdaysPerWeek`, `Calendar.IsWeekdaySaturday`) |
