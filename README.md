# Activity simulation, baseline and anomaly alerts — a Dafny model

The repository simulates daily activity counts for named events, derives
a baseline (per-event mean and spread) from one simulated run, and scores a
second, "live" run against that baseline, printing ALERT or OK for each day.
This project models its sequential core and proves what that core promises:

- `initial_input.py` (module `InitialInput`): the `Event` and `EventStats`
  records, the line-level logic of `parse_events_file` and
  `parse_stats_file` (split on `:`, field defaults, storing by name, the
  declared-count check) and `check_consistency`.
- `activityEngine.py` (module `ActivityEngine`): `generate_value_for_event`
  (clamp, round, re-clamp), with the Gaussian draw passed in, and
  `simulate_activity`, which returns the table it would write.
- `analysisEngine.py` (module `AnalysisEngine`): `analyze_activity_log`,
  covering:
  - row and cell filtering;
  - per-column sample collection;
  - the two error cases;
  - mean and Bessel-corrected variance, with their degenerate cases.
- `alertEngine.py` (module `AlertEngine`): `load_baseline`,
  `load_log_values`, `compute_anomaly_scores` and the ALERT/OK rule of the
  result display.

Shared modules model what the Python runtime provides:

- `Wrappers`: `Option` and `Result`. An exception is a `Failure`.
- `PyBuiltins`:
  - `str.strip`, `str.split`;
  - `str` ordering and `sorted`;
  - `round` (half to even), `int()` on floats (truncation) and `round(x, 2)`.
- `Dicts`: an insertion-ordered Python `dict`. It is the key order plus the
  mapping; assigning to an existing key keeps its position. It also has a
  generic "fill a dict in a loop" method proved against a fold.

Numbers are Dafny `real`s, which are exact rather than IEEE floats. Files
are in-memory sequences: the text files are lists of lines, and the CSV
files are lists of rows of cells. Converting text to a number (`float(s)`,
`int(s)`) is a parameter `string -> Option<real>` / `string -> Option<int>`,
and `None` stands for the `ValueError`. The random draw is a parameter
`draw(day, name)`.

Each imperative loop of the source is a Dafny `method` with a `while` loop.
Its `ensures` ties the result to a recursive specification function, and
lemmas prove the source's promises about that function.

## Model

| member | source | states |
|---|---|---|
| PyBuiltins.Strip | initial_input.py:22 | `line.strip()` is the slice of the line that starts after its leading white space and is followed only by white space; it is empty exactly when the line is all white space, and otherwise neither of its ends is white space |
| PyBuiltins.SkipLeadingSpace | initial_input.py:22 | the characters skipped from the front are all white space, and the one the scan stops at is not |
| PyBuiltins.SkipTrailingSpace | initial_input.py:22 | the characters skipped from the back are all white space, and the one before where the scan stops is not |
| PyBuiltins.Split | initial_input.py:26 | `line.split(':')` gives at least one piece and no piece contains `:` |
| PyBuiltins.JoinSplit | initial_input.py:26 | joining the pieces of a split with the separator gives back the line (no text is lost) |
| PyBuiltins.SplitJoin | initial_input.py:26 | splitting a join of `:`-free fields gives back exactly those fields |
| PyBuiltins.SplitPiece | initial_input.py:26 | a `:`-free first field followed by `:` is split off as the first piece |
| PyBuiltins.StrLessIrreflexive | activityEngine.py:37 | no name sorts before itself |
| PyBuiltins.StrLessTransitive | activityEngine.py:37 | the `str` order used by `sorted` is transitive |
| PyBuiltins.StrLessTotal | activityEngine.py:37 | any two different names are ordered one way or the other |
| PyBuiltins.StrLessAsymmetric | activityEngine.py:37 | two names are never each before the other |
| PyBuiltins.StrictlySortedIsDistinct | activityEngine.py:37 | a strictly sorted column list has no repeated name |
| PyBuiltins.Insert | activityEngine.py:37 | inserting a new name into a sorted list keeps it strictly sorted and adds exactly that name |
| PyBuiltins.Sorted | activityEngine.py:37 | `sorted(events.keys())` is strictly increasing, with the same length and the same names as the keys |
| PyBuiltins.SortedUnique | activityEngine.py:37 | two strictly sorted lists of the same names are equal, so the column order is determined by the names alone |
| PyBuiltins.FirstIsLeast | activityEngine.py:37 | no name of a sorted list sorts before its first |
| PyBuiltins.RoundHalfEven | activityEngine.py:22 | `round(x)` is within 0.5 of `x`, and a tie goes to the even integer |
| PyBuiltins.RoundIsNearest | activityEngine.py:22 | no integer is closer to `x` than `round(x)` |
| PyBuiltins.RoundOfInteger | activityEngine.py:22 | `round` leaves whole numbers unchanged |
| PyBuiltins.RoundMonotone | activityEngine.py:22 | `round` preserves order |
| PyBuiltins.Trunc | activityEngine.py:25-27 | `int(x)` truncates toward zero: at most `x` for non-negative `x`, at least `x` for negative `x`, and less than one away |
| PyBuiltins.TruncBetween | activityEngine.py:25-27 | an integer above (below) `x` is above (below) `int(x)` |
| PyBuiltins.Round2 | activityEngine.py:29 | `round(x, 2)` has at most two decimals and lies within 0.005 of `x` |
| PyBuiltins.Round2Between | activityEngine.py:29 | rounding to two decimals stays between bounds that have at most two decimals |
| Dicts.Empty | initial_input.py:20 | `{}` is a well-formed dict with no entries |
| Dicts.Put | initial_input.py:32 | `d[k] = v` keeps the dict well formed and maps `k` to `v`, leaving every other entry as it was; a new key goes last in the key order and an existing key keeps its position |
| Dicts.KeysOf | alertEngine.py:35 | every name of a pair list is among its names |
| Dicts.FromPairs | alertEngine.py:35 | `dict(pairs)` is well formed and its keys are exactly the names of the pairs |
| Dicts.FromPairsEntry | alertEngine.py:35 | every entry of `dict(pairs)` is one of the pairs |
| Dicts.FromPairsLastWins | alertEngine.py:35 | the last pair with a name gives that name's value |
| Dicts.DistinctCard | initial_input.py:34 | a list of distinct names has as many elements as its set |
| Dicts.LenIsKeyCount | initial_input.py:34 | `len(d)` is the number of distinct keys |
| Dicts.ReadPairsEach | alertEngine.py:32-35 | reading the rows succeeds exactly when every row reads, and then gives one pair per row, in order |
| Dicts.StoredLastWins | alertEngine.py:32-35 | once every row has read, each row's key is in the dict, and the last row with a key gives its value |
| Dicts.StoredFromItems | alertEngine.py:32-35 | every entry of the dict filled in the loop comes from some row |
| Dicts.ReadPairsStep | alertEngine.py:32-35 | one more row extends the read pairs, or raises |
| Dicts.ReadPairsPrefixFailure | alertEngine.py:32-35 | once a row raises, the whole loop raises that exception |
| Dicts.StorePairs | alertEngine.py:32-35 | the loop `k, v = read(row); d[k] = v` from `{}` yields `dict` of the pairs read, or the first row's exception |
| InitialInput.ParseEventLine | initial_input.py:26-32 | a line is read exactly when it has at least five fields and its non-blank min, max and weight parse (extra fields are ignored); then the entry is stored under its own name, a blank min becomes 0, a blank max becomes unbounded and a blank weight becomes 1, and non-blank fields are the parsed numbers |
| InitialInput.EventLineFields | initial_input.py:26-32 | the line `name:type:min:max:weight` reads back exactly those fields, with the defaults for blank ones |
| InitialInput.ParseStatsLine | initial_input.py:47-51 | a line of fewer than three fields raises; a line whose second and third fields parse as floats is read, and then the name is the first field and `EventStats(mean, std_dev)` holds exactly those two numbers |
| InitialInput.StatsLineFields | initial_input.py:47-51 | the line `name:mean:std_dev` reads back exactly those fields |
| InitialInput.StripAll | initial_input.py:22 | one stripped line per line of the file, in order |
| InitialInput.Load | initial_input.py:19-37 | the reading shared by `parse_events_file` and `parse_stats_file`: `int` of line 1 as the declared count, one `d[name] = value` per later line in order, then the count check against `len(d)` |
| InitialInput.LoadChecksCount | initial_input.py:23-35 | loading raises on an empty file; a success stores exactly as many distinct names as line 1 declares; a count mismatch means every line read and the declared count differs from the number of distinct names read, which is the count reported as found; once the count and every line read, only a mismatch can fail it, and a declared count equal to the number of distinct names read succeeds |
| InitialInput.LoadStoresLines | initial_input.py:25-32 | every stored entry is what some data line reads as |
| InitialInput.LoadLastLineWins | initial_input.py:25-32 | every data line's name is stored, and the last line with a name gives its entry |
| InitialInput.LoadLines | initial_input.py:23-35 | the reading loop computes exactly the `Load` specification |
| InitialInput.ParseEventsFile | initial_input.py:19-37 | `parse_events_file` on the stripped lines; each event is stored under its own name and always has a min |
| InitialInput.ParseStatsFile | initial_input.py:40-56 | `parse_stats_file` on the stripped lines, with the same count check |
| InitialInput.EventErrors | initial_input.py:60-64 | the first loop's messages, in event order: `MissingStats` for an event without stats, else `NonIntegerMean` for a discrete event with a fractional mean |
| InitialInput.StatsErrors | initial_input.py:65-67 | the second loop's messages, in stats order: `MissingEvent` for each stats name that is not an event |
| InitialInput.Consistency | initial_input.py:58-68 | the whole report: the first loop's messages followed by the second's |
| InitialInput.EventErrorsMeaning | initial_input.py:60-64 | the first loop reports `MissingStats` exactly for names without stats, and `NonIntegerMean` exactly for discrete events with stats and a non-whole mean; there are at most as many messages as names |
| InitialInput.StatsErrorsMeaning | initial_input.py:65-67 | the second loop reports exactly the stats names that are not events, with at most as many messages as names |
| InitialInput.EventErrorsDistinct | initial_input.py:60-64 | every message of the first loop names an event it visited, and over distinct event names no message repeats |
| InitialInput.StatsErrorsDistinct | initial_input.py:65-67 | every message of the second loop names a stats name it visited, and over distinct names no message repeats |
| InitialInput.ConsistencyNoRepeats | initial_input.py:58-68 | no message appears twice in the report, so each inconsistent name is reported exactly once for its kind |
| InitialInput.EventErrorsKinds | initial_input.py:60-64 | the first loop never reports a missing event |
| InitialInput.StatsErrorsKinds | initial_input.py:65-67 | the second loop reports nothing but missing events |
| InitialInput.ConsistencyReport | initial_input.py:58-68 | the report has at most `len(events) + len(stats)` messages; it names every missing-stats event, every discrete event with a non-whole mean and every stats-only name, and no other name |
| InitialInput.ConsistencyOrder | initial_input.py:58-68 | all stats-side messages come after the events-side ones |
| InitialInput.ConsistentIffNoErrors | initial_input.py:58-68 | the list is empty exactly when the key sets are equal and every discrete event's mean is a whole number |
| InitialInput.NoErrorsMeansConsistent | initial_input.py:58-68 | an empty report implies consistent inputs |
| InitialInput.ErrorMeansInconsistent | initial_input.py:58-68 | a non-empty report implies inconsistent inputs |
| InitialInput.CheckConsistency | initial_input.py:58-68 | the two loops compute exactly the report specified by `Consistency` |
| ActivityEngine.Sample | activityEngine.py:9-13 | the value before clamping is the mean itself when the standard deviation is zero, the draw otherwise |
| ActivityEngine.Clamp | activityEngine.py:15-19 | the clamped value is at least min when min ≤ max (or there is no max) and at most max when max is set; it equals max when min > max; a value in range is unchanged, one below min becomes min and one above max becomes max (when min ≤ max) |
| ActivityEngine.ClampInt | activityEngine.py:23-27 | the re-clamp against `int(min)` and `int(max)` has the same properties: the result is between the truncated bounds, equals `int(max)` when `int(min) > int(max)`, leaves an in-range value unchanged, and sends a value below `int(min)` to `int(min)` and one above `int(max)` to `int(max)` |
| ActivityEngine.GenerateValue | activityEngine.py:8-31 | a discrete event gives an integer between `int(min)` and `int(max)` whenever those are ordered; a continuous event gives a float with at most two decimals, within 0.005 of the clamped sample |
| ActivityEngine.ZeroStdIgnoresDraw | activityEngine.py:10-13 | with `std_dev == 0` the draw is not used |
| ActivityEngine.DiscreteValueIsRounded | activityEngine.py:21-27 | a discrete value is `round` of the clamped sample (nearest, ties to even) whenever that already lies within the truncated bounds |
| ActivityEngine.ContinuousValueBounds | activityEngine.py:16-29 | a continuous value stays within ordered bounds that have at most two decimals |
| ActivityEngine.ContinuousValueCanLeaveBounds | activityEngine.py:28-29 | without that condition it can leave them: bounds [0.001, 1] and mean 0.001 give 0.0 |
| ActivityEngine.DiscreteValueCanFallBelowMin | activityEngine.py:21-27 | a discrete value is only re-clamped to `int(min)`, so it can fall below a fractional min: bounds [1.5, 1.7] and mean 1.6 give 1 |
| ActivityEngine.ZeroVarianceGivesMean | activityEngine.py:10-27 | a discrete event with zero spread and a whole-number mean inside its bounds always gives that mean |
| ActivityEngine.DiscreteHalvesRoundToEven | activityEngine.py:22 | means 2.5 and 3.5 log 2 and 4 |
| ActivityEngine.SimulateActivity | activityEngine.py:35-60 | the header is `day` then the event names sorted; there are exactly `days` rows, day numbers 1..days, and each value comes from `generate_value_for_event` for its column; the run raises exactly when some event has no stats and at least one day is simulated, naming the first such event in column order |
| ActivityEngine.SimulateDays | activityEngine.py:47-54 | the day loop yields exactly `days` rows (none for `days <= 0`), row `i` being day `i + 1`; it raises exactly when at least one day runs and some column lacks stats, naming the first such column in sorted order |
| ActivityEngine.SimulateDay | activityEngine.py:48-53 | one day's row has one value per column, in column order; it raises at the first column without stats |
| ActivityEngine.FirstMissing | activityEngine.py:49-51 | the failing column is the first event, in sorted order, without stats |
| AnalysisEngine.CellValue | analysisEngine.py:41-49 | a cell gives at most one value, and only when it is non-blank after stripping and parses as a number |
| AnalysisEngine.RowSample | analysisEngine.py:36-49 | the values the first `c` event columns of a row append to one event's list, in column order |
| AnalysisEngine.ColumnSample | analysisEngine.py:31-49 | an event's whole list: the row samples of the non-blank rows, in row order |
| AnalysisEngine.Processed | analysisEngine.py:37-40 | a row reads either all event columns or up to its own last cell, never past either |
| AnalysisEngine.SquaredDeviations | analysisEngine.py:71 | the sum of squared deviations is never negative |
| AnalysisEngine.Moments | analysisEngine.py:61-74 | an empty sample gives 0 and 0; a single value gives that value and 0; the variance is never negative |
| AnalysisEngine.SumBounds | analysisEngine.py:69 | a sum of values in [lo, hi] lies between `n·lo` and `n·hi` |
| AnalysisEngine.MeanBetween | analysisEngine.py:69 | the mean lies between the smallest and the largest value |
| AnalysisEngine.SumConstant | analysisEngine.py:69 | n copies of `c` sum to `n·c` |
| AnalysisEngine.DeviationsConstant | analysisEngine.py:71 | a constant sample has no squared deviation from its value |
| AnalysisEngine.ConstantSample | analysisEngine.py:68-74 | a constant sample has that value as mean and variance 0 |
| AnalysisEngine.RowSampleAtMostOne | analysisEngine.py:37-49 | with distinct column names one row gives each event at most one value, and nothing to a name it does not reach |
| AnalysisEngine.SampleAtMostDataRows | analysisEngine.py:31-49 | with distinct column names no event collects more values than `total_days` |
| AnalysisEngine.RepeatedNameCollectsTwice | analysisEngine.py:28-49 | a repeated column name collects from both columns, so one row can give it two values |
| AnalysisEngine.BlankRowIgnored | analysisEngine.py:32-34 | a blank row is neither counted as a day nor adds any value |
| AnalysisEngine.ShortRowStops | analysisEngine.py:37-40 | a short row gives nothing to events whose columns lie past its end |
| AnalysisEngine.RowGivesCell | analysisEngine.py:37-49 | a full row's numeric cell under a distinct column gives that event exactly that number |
| AnalysisEngine.RowGivesCellUpTo | analysisEngine.py:37-49 | over the first `c` columns read, a distinct column whose cell gives `v` gives its event exactly `[v]` |
| AnalysisEngine.AnalyzeActivityLog | analysisEngine.py:5-76 | it raises "empty" exactly for a file with no header and "no data rows" exactly when no non-blank row follows; otherwise there is one output row per header event, in header order, with the mean and variance of exactly the values that column collected |
| AnalysisEngine.CollectSamples | analysisEngine.py:30-49 | the row loop counts the non-blank rows and collects each event's sample |
| AnalysisEngine.CollectRow | analysisEngine.py:37-49 | the column loop appends to each event's list exactly that row's values |
| AnalysisEngine.CollectCell | analysisEngine.py:40-49 | a blank or non-numeric cell leaves every list unchanged; a number is appended to its column's event list and nothing else changes |
| AnalysisEngine.CollectStep | analysisEngine.py:41-49 | one column appends its cell's value, if any, to its event's list and leaves the other lists alone |
| AnalysisEngine.Summarize | analysisEngine.py:61-76 | the output loop gives one row per event, in order, with its sample's mean and variance |
| AlertEngine.BaselineRowEntry | alertEngine.py:16-19 | a row of three or more cells reads exactly when both numbers parse, as `(name, (mean, std))` |
| AlertEngine.StoreBaselineRows | alertEngine.py:13-19 | the baseline read from the rows is a well-formed dict |
| AlertEngine.Baseline | alertEngine.py:6-21 | `load_baseline`: a file without a header row raises; otherwise the rows after it are stored in order |
| AlertEngine.BaselineRowsSucceed | alertEngine.py:13-19 | reading succeeds exactly when both numbers of every row of three or more cells parse |
| AlertEngine.BaselineRowsStored | alertEngine.py:13-19 | every row of three or more cells is stored under its name, and the last such row with a name gives its entry |
| AlertEngine.BaselineRowsFrom | alertEngine.py:13-19 | every stored entry is what some row of three or more cells reads as, so shorter rows leave no trace |
| AlertEngine.LoadBaseline | alertEngine.py:6-21 | the loop computes exactly the specified baseline, raising on a missing header row |
| AlertEngine.StorePrefixFailure | alertEngine.py:13-19 | a row that raises makes the whole load raise |
| AlertEngine.ParseAll | alertEngine.py:34 | `list(map(float, cells))` succeeds exactly when every cell parses, and keeps one value per cell in order |
| AlertEngine.Zip | alertEngine.py:35 | `zip` pairs names and values position by position, up to the shorter list |
| AlertEngine.DayValues | alertEngine.py:35 | each of the first `min(len(names), len(values))` names is a key of the day, and gets its own column's value unless a later column repeats the name |
| AlertEngine.DayKeys | alertEngine.py:35 | a day has no key beyond those first names |
| AlertEngine.LogRowEntry | alertEngine.py:33-35 | a row is read exactly when its first cell parses as an integer and every later cell as a float; the day is that integer and its values form a well-formed dict |
| AlertEngine.LogRowValues | alertEngine.py:33-35 | in a row that reads, the name heading column `k + 1` is a key of the day, holding that cell's float unless a later cell falls under the same name |
| AlertEngine.LogRowKeys | alertEngine.py:33-35 | a day read from a row has no key but the names of the columns that row fills |
| AlertEngine.LogDays | alertEngine.py:24-37 | `load_log_values`: a file without a header row raises; otherwise each later row is stored under its day, in order |
| AlertEngine.LogDaysSucceed | alertEngine.py:24-37 | reading the log succeeds exactly when there is a header and every data row has a day number and only numeric values |
| AlertEngine.LogDaysLastRowWins | alertEngine.py:32-35 | every data row's day is stored, the last row for a day winning |
| AlertEngine.LogDaysAreValid | alertEngine.py:24-37 | every day read from the log is a well-formed dict |
| AlertEngine.LoadLogValues | alertEngine.py:24-37 | the loop computes exactly the specified day table |
| AlertEngine.Threshold | alertEngine.py:43-45 | twice the sum of the event weights |
| AlertEngine.DayScore | alertEngine.py:48-61 | one day's score over its names in order: names without a baseline are skipped, the others add `z·weight` and raise `KeyError` when they are not events |
| AlertEngine.ContributionBounds | alertEngine.py:55-61 | with a non-negative weight, `z·weight` is non-negative when the std is, at most `2·weight` when `z <= 2`, strictly below it when `z < 2` and the weight is positive, and 0 for a zero weight |
| AlertEngine.DayScoreStep | alertEngine.py:49-61 | one more name skips, raises or adds `z·weight` to the score |
| AlertEngine.DayScoreSucceeds | alertEngine.py:49-61 | a day is scored exactly when each of its names with a baseline entry is an event; otherwise the error names such a name |
| AlertEngine.DayScoreNonNegative | alertEngine.py:55-61 | with non-negative stds and weights the score is never negative |
| AlertEngine.DayScoreAtMeans | alertEngine.py:53-61 | a day whose values all equal their baseline means scores 0, whatever the weights |
| AlertEngine.IgnoredValueIrrelevant | alertEngine.py:49-56 | the value of a name without a baseline entry, or with a zero std, does not change the score |
| AlertEngine.DayScoreWithinTwo | alertEngine.py:55-61 | with non-negative weights, z-scores of at most 2 give at most twice the weight of the day's names |
| AlertEngine.DayScoreBelowTwo | alertEngine.py:55-61 | with z-scores below 2 the score is 0 or strictly below that bound |
| AlertEngine.WeightAppend | alertEngine.py:44 | the total weight of two lists of names is the sum of their weights |
| AlertEngine.WeightOfSubset | alertEngine.py:44-45 | with non-negative weights, distinct names weigh no more than all events |
| AlertEngine.WeightNonNegative | alertEngine.py:44 | non-negative weights sum to a non-negative total |
| AlertEngine.WeightOfNonEvents | alertEngine.py:44 | names that are not events weigh nothing |
| AlertEngine.Score | alertEngine.py:47-61 | the score of one live day, over its names in the order they were read |
| AlertEngine.Decide | alertEngine.py:126-131 | a day is `ALERT` when its score reaches the threshold and `OK` otherwise |
| AlertEngine.AtMeansVerdict | alertEngine.py:53-61 | a day at its baseline means is OK exactly when the threshold `2·Σ weight` is positive |
| AlertEngine.WithinTwoAtMostThreshold | alertEngine.py:44-61 | with non-negative weights, a day whose every z-score is at most 2 never scores above the threshold |
| AlertEngine.BelowTwoIsOk | alertEngine.py:44-61 | with non-negative weights and a positive threshold, a day whose every z-score is below 2 is OK |
| AlertEngine.ComputeAnomalyScores | alertEngine.py:40-65 | one entry per live day, in the live days' order, holding that day's score and the same threshold `2·Σ weight`; it raises exactly when some day has a baseline name that is not an event |
| AlertEngine.ScoreDay | alertEngine.py:48-61 | the inner loop computes exactly that day's specified score |
| AlertEngine.DayScorePrefixFailure | alertEngine.py:49-61 | a name that raises makes the whole day raise |

## Left out

- Random numbers: `random.gauss` and `random.seed` are left out. The draw is a parameter `draw(day, name)`, so the order in which draws are taken from one generator is not modelled.
- Files and CSV: opening, reading and writing files, `csv.reader` / `csv.writer` quoting, and `readlines` are left out. Lines and rows are given as sequences.
- Number parsing: the text of `float(s)` / `int(s)` (signs, exponents, `inf`, `nan`, underscores) is left out. Parsing is an abstract partial function, and non-finite floats are not represented.
- Floating point: arithmetic is over exact reals, so IEEE rounding of sums, divisions and of `round(x, 2)`'s binary representation is left out.
- AnalysisEngine.AnalyzeActivityLog: returns the variance, not `math.sqrt` of it, and not the `:.2f` text of mean and std written to the output CSV.
- Output: progress prints, the `progress_step` cadence, the warning for a header not starting with `day`, and exception message texts are left out. Errors are datatype values that carry the same data.
- ActivityEngine.SimulateActivity: when stats are missing, the source has already written the header to the file before raising. The model returns only the error.
- The interactive `alert_engine` loop, `run.py` and the `__main__` blocks are left out. This includes printing the verdicts in sorted day order. The ALERT/OK rule itself is `AlertEngine.Decide`.
- AlertEngine.ComputeAnomalyScores: requires every live day to be a well-formed dict. This is a property of how dicts are represented here, and `AlertEngine.LogDaysAreValid` proves it for every log read.
- Code and description disagree on these points; the model follows the code:
  - A name that has a baseline entry and a live value but is not an event makes `compute_anomaly_scores` raise `KeyError` (`UnknownEvent`); it is not skipped.
  - A continuous value can fall outside [min, max] when a bound has more than two decimals, because `round(x, 2)` comes after the clamp (`ActivityEngine.ContinuousValueCanLeaveBounds`).
  - A discrete value can fall below a fractional min, because the re-clamp after rounding is against `int(min)` (`ActivityEngine.DiscreteValueCanFallBelowMin`).
  - In `analyze_activity_log`, a name repeated in the header collects values from every column it heads, so its sample can exceed `total_days` (`AnalysisEngine.RepeatedNameCollectsTwice`).
  - A blank row in the live log makes `load_log_values` raise `IndexError` (`NoDayCell`).
