# Streaming map/reduce scripts, modelled in Dafny

The repository is a set of Hadoop-streaming style Python scripts. Each one
reads tab-separated text lines from standard input and prints lines to
standard output:

- `color_completion_mapper.py` re-keys a record to
  `favourite_color<TAB>completion_percentage`.
- `color_completion_reducer.py` prints, for each run of one colour, the mean
  and the median of its percentages.
- `reducer_analysis.py` echoes every line it reads and prints, for each run
  of one feature, the mean of its percentages, kept as a running sum and
  count.
- `mapper_analysis.py` prints each record's age, gender and region as tagged
  keys with count 1.
- `mapper_correlation.py` prints each record's completion percentage under
  the keys `age`, `gender` and `region`.
- `multi_label.py` splits comma-separated hobby and language fields into
  labels (mapper) and adds up the counts of each label in a `defaultdict`
  (reducer).
- `outlier_handler.py` re-prints age and percentage as floats (mapper), and
  collects the percentages, computes their quartiles with `np.percentile`
  and removes values outside the `1.5 IQR` fences (reducer).
- `days_since_regsitration.py` prints the days from registration to last
  login (mapper) and echoes its input stripped (reducer).

## How the model is organised

- One module per script:
  - `ColorCompletionMapper`
  - `ColorCompletionReducer`
  - `ReducerAnalysis`
  - `MapperAnalysis`
  - `MapperCorrelation`
  - `MultiLabel`
  - `OutlierHandler`
  - `DaysSinceRegistration`
- Python behaviour the scripts rely on, in shared modules:
  - `Text`: `str.strip()` with the `str.isspace()` character set, and
    `str.split(sep)`.
  - `Script`: the outcome of a script run (the printed items, and whether it
    finished or stopped on an uncaught exception at which line). It also has
    the generic mapper loop.
  - `Records`: the `key, value = line.split("\t")` unpacking and `float()`
    skipping.
  - `Grouping`: maximal runs of equal keys, the specification both grouping
    reducers are proved against.
  - `Stats`: exact `np.mean`, `np.median` and `np.percentile` with linear
    interpolation, over `real`.
  - `Calendar`: proleptic Gregorian day numbers, as in `date.toordinal()`.
  - `Strptime`: `datetime.strptime(text, "%Y-%m-%d")`, following CPython's
    regular expression for that format.

Python prints as it goes, so a script that dies on an uncaught exception
keeps the lines it printed before. Every script is specified by
`Outcome(out, status)`, where `status` is `Finished` or
`Crashed(line, error)`. `float()` and `int()` are parameters
`string -> Option<real>` and `string -> Option<int>`; `None` means the call
raises `ValueError`.

Every mapper is a per-line function run by `Script.RunMapper`. The reducers
that keep state across lines are methods with loops:

- `ColorCompletionReducer.Reducer`;
- `ReducerAnalysis.Reducer` with `ReadLines`, `ReadLine`, `Accumulate` and
  `Finish`;
- `MultiLabel.CountLabels` and `MultiLabel.PrintCounts`;
- `OutlierHandler.CollectData`.

Each of these methods is proved equal to a specification function. The
properties are then proved about that function.

The scripts' comments say that bad lines are skipped (`# Skip invalid
entries`, `map_scripts/color_completion_reducer.py:22`; `# Skip invalid
data`, `map_scripts/multi_label.py:27`; `# Skip lines with invalid data`,
`map_scripts/days_since_regsitration.py:30`). Several errors are not caught,
however, and the model follows the code:

- both grouping reducers stop with an uncaught `ValueError` on a line that
  does not split into exactly two fields;
- the mappers of `color_completion_mapper.py`, `multi_label.py` and
  `days_since_regsitration.py` stop with an uncaught `IndexError` on a line
  of exactly two fields;
- `reducer_analysis.py` raises `UnboundLocalError` on empty input, because
  `feature` is bound only inside the loop;
- `reducer_analysis.py` mixes its debug echo with its results.

## Model

| member | source | states |
|---|---|---|
| Text.TrimStart | map_scripts/color_completion_mapper.py:9 | the result is a suffix of the text, every removed character is whitespace, and the result does not start with whitespace |
| Text.TrimEnd | map_scripts/color_completion_mapper.py:9 | the result is a prefix of the text, every removed character is whitespace, and the result does not end with whitespace |
| Text.Strip | map_scripts/color_completion_mapper.py:9 | `str.strip()` with no argument: `TrimEnd(TrimStart(line))`, which removes the characters `str.isspace()` accepts from both ends |
| Text.StripShape | map_scripts/color_completion_mapper.py:9 | `strip()` keeps a contiguous middle slice of the line, removes only whitespace on both sides, and leaves no whitespace at either end |
| Text.StripIdempotent | map_scripts/reducer_analysis.py:10-11 | stripping a stripped line changes nothing |
| Text.StripNoOp | map_scripts/reducer_analysis.py:10-11 | a string with no whitespace at either end is its own strip |
| Text.Split | map_scripts/multi_label.py:17-18 | `split(sep)` gives at least one piece, and no piece contains the separator |
| Text.SplitJoin | map_scripts/multi_label.py:17-18 | joining the pieces of a split rebuilds the text, and there is one more piece than separators |
| Text.JoinSplit | map_scripts/multi_label.py:17-18 | splitting a join of separator-free pieces gives the pieces back |
| Text.NoSeparatorSplit | map_scripts/multi_label.py:17 | a text without the separator is one piece |
| Text.SplitPrefix | map_scripts/multi_label.py:17 | a separator-free prefix before a separator becomes the first piece |
| Text.Fields | map_scripts/color_completion_mapper.py:9-12 | a stripped line has at least one tab field, and no field contains a tab |
| Text.FieldCount | map_scripts/color_completion_mapper.py:12-15 | the number of fields is one more than the number of tabs in the stripped line, so there are at least two exactly when it holds a tab |
| Text.FirstFieldNonEmpty | map_scripts/reducer_analysis.py:11 | a line with a second field has a non-empty first field, because stripping removes a leading tab |
| Text.Rows | map_scripts/reducer_analysis.py:9-11 | one row of fields per input line |
| Text.RowsIndex | map_scripts/reducer_analysis.py:9-11 | row `i` is the fields of line `i` |
| Text.Echoes | map_scripts/reducer_analysis.py:10 | one stripped line per input line |
| Text.EchoesIndex | map_scripts/reducer_analysis.py:10 | echo `i` is line `i` stripped |
| Text.RowsAppend | map_scripts/reducer_analysis.py:9 | the rows of two chunks of input are the chunks' rows in turn |
| Text.RowsPrefix | map_scripts/reducer_analysis.py:9 | the rows of an input prefix are a prefix of the rows |
| Script.RunMapper | map_scripts/color_completion_mapper.py:7-25 | the run finishes exactly when no line raises; otherwise it stops at a raising line, and every earlier line emits |
| Script.RunMapperOutput | map_scripts/color_completion_mapper.py:7-25 | the output is exactly what the lines before the first raising line print, in order |
| Script.RunMapperAppend | map_scripts/color_completion_mapper.py:7 | running over two chunks of input is running over each in turn, with an early stop ending the run |
| Script.RunMapperCons | map_scripts/color_completion_mapper.py:7 | the run over a line followed by more lines: the first line either stops the run or prints before the rest |
| Script.RunMapperBound | map_scripts/color_completion_mapper.py:7-25 | a mapper printing at most `k` items per line prints at most `k` per input line overall |
| Script.RunMapperMember | map_scripts/color_completion_mapper.py:7-25 | an item is printed exactly when some line handled before the stop prints it |
| Script.EmittedAppend | map_scripts/color_completion_mapper.py:7 | the output of lines that do not raise is additive over chunks |
| Records.FirstMalformed | map_scripts/color_completion_reducer.py:16 | the index of the first row the unpacking fails on, or the row count; that row has other than two fields |
| Records.FirstMalformedUnpacks | map_scripts/color_completion_reducer.py:16 | every row before the first malformed one unpacks |
| Records.FirstMalformedGrow | map_scripts/reducer_analysis.py:11 | scanning one more row that unpacks moves the first malformed row past it |
| Records.FirstMalformedStep | map_scripts/reducer_analysis.py:11 | one more row either unpacks, or it is the first malformed row of the whole input |
| Records.FirstMalformedStop | map_scripts/reducer_analysis.py:11 | the first row that does not unpack is the whole input's first malformed row |
| Records.ParsedStep | map_scripts/color_completion_reducer.py:19-22 | one more row adds its parsed pair, if `float()` reads its value |
| Records.FirstMalformedInsert | map_scripts/color_completion_reducer.py:16 | a row that unpacks, inserted before the first malformed row, moves that row one place on |
| Records.UnparsableRowDropped | map_scripts/color_completion_reducer.py:19-22 | a row whose value `float()` refuses adds no pair, wherever it stands |
| Records.FirstMalformedPrefix | map_scripts/color_completion_reducer.py:16 | input with no malformed row has none in any prefix |
| Records.FirstMalformedAppend | map_scripts/color_completion_reducer.py:16 | the first malformed row of two chunks is in the first chunk, or else it is the second chunk's, shifted |
| Records.ParsedAppend | map_scripts/color_completion_reducer.py:19-22 | the parsed pairs of two chunks are the chunks' pairs in turn |
| Grouping.Pairs | map_scripts/color_completion_reducer.py:24-26 | a run stands for one pair per value, each carrying the run's key |
| Grouping.Runs | map_scripts/color_completion_reducer.py:24-36 | there are no more runs than pairs, none exactly when there are no pairs, and every run is non-empty |
| Grouping.RunsLast | map_scripts/reducer_analysis.py:28 | the last run has the key of the last pair |
| Grouping.RunsCorrect | map_scripts/color_completion_reducer.py:24-36 | the runs, put back together, are the stream, and neighbouring runs differ in key |
| Grouping.RunsFlatten | map_scripts/color_completion_reducer.py:24-36 | the runs, put back together, are the stream |
| Grouping.RunsMaximal | map_scripts/color_completion_reducer.py:24-36 | the runs are non-empty and neighbouring runs differ in key |
| Grouping.ExtendFlatten | map_scripts/color_completion_reducer.py:24-36 | one more pair appends exactly that pair to the stream the runs stand for |
| Grouping.ExtendMaximal | map_scripts/color_completion_reducer.py:24-36 | one more pair keeps the runs maximal |
| Grouping.RunsNewKey | map_scripts/color_completion_reducer.py:27-36 | a pair with a new key opens a new run of that one value |
| Grouping.RunsSameKey | map_scripts/color_completion_reducer.py:25-26 | a pair with the last key joins the last run |
| Grouping.RunsUnique | map_scripts/color_completion_reducer.py:24-36 | any decomposition into maximal runs is the one `Runs` computes |
| Grouping.RunsSnoc | map_scripts/color_completion_reducer.py:24-36 | the runs of a stream with one more pair are the old runs extended by it |
| Grouping.DropLastFacts | map_scripts/color_completion_reducer.py:24-36 | taking the last value away from maximal runs leaves maximal runs that extend back to the original |
| Grouping.DropSingle | map_scripts/color_completion_reducer.py:24-36 | the same, for a last run of one value |
| Grouping.DropOne | map_scripts/color_completion_reducer.py:24-36 | the same, for a last run of several values |
| Grouping.FlattenSnoc | map_scripts/color_completion_reducer.py:24-36 | putting runs back together is additive over the last run |
| Grouping.Keys | map_scripts/color_completion_reducer.py:16 | one key per pair, in order |
| Grouping.GroupKeys | map_scripts/color_completion_reducer.py:35 | one key per run, in order |
| Grouping.RunKeys | map_scripts/color_completion_reducer.py:24-36 | every run key is a stream key, and every stream key has a run |
| Grouping.OneRunPerKey | map_scripts/color_completion_reducer.py:24-36 | with equal keys contiguous, run keys are pairwise different and are all the stream's keys |
| Grouping.RunKeysDistinct | map_scripts/color_completion_reducer.py:24-36 | with equal keys contiguous, no two runs share a key |
| Grouping.ExtendDistinct | map_scripts/color_completion_reducer.py:24-36 | one more pair with the last key or an unseen key keeps run keys distinct |
| Grouping.NewKeyIsFresh | map_scripts/color_completion_reducer.py:27 | with equal keys contiguous, a key that differs from the one before it was not seen earlier |
| Grouping.KeyLeAntisymmetric | map_scripts/color_completion_reducer.py:24-27 | the shuffle's key order is antisymmetric |
| Grouping.KeyLeTransitive | map_scripts/color_completion_reducer.py:24-27 | the shuffle's key order is transitive |
| Grouping.SortedIsContiguous | map_scripts/color_completion_reducer.py:24-27 | a stream sorted by key has its equal keys next to each other |
| Grouping.Named | map_scripts/color_completion_reducer.py:28 | the runs the `if current_color:` guard reports are no more than all runs |
| Grouping.NamedRuns | map_scripts/color_completion_reducer.py:28 | the reported runs are exactly the runs with a non-empty key, each unchanged, and keep distinct keys distinct |
| Grouping.ValuesOfAppend | map_scripts/color_completion_reducer.py:26 | the values of a key are additive over chunks |
| Grouping.ValuesOfPairs | map_scripts/color_completion_reducer.py:26 | a run holds the values of its own key and none of any other |
| Grouping.PairsSnoc | map_scripts/color_completion_reducer.py:26 | one more value in a run adds one pair |
| Grouping.ValuesOfSnoc | map_scripts/color_completion_reducer.py:26 | one more pair adds its value to its own key's values only |
| Grouping.FlattenMissingKey | map_scripts/color_completion_reducer.py:24-36 | a key no run carries has no values |
| Grouping.FlattenValuesOf | map_scripts/color_completion_reducer.py:24-36 | with run keys distinct, a run's values are all its key's values |
| Grouping.RunHoldsAllValues | map_scripts/color_completion_reducer.py:24-36 | with equal keys contiguous, each run holds every value of its key, in order |
| Stats.SumAppend | map_scripts/reducer_analysis.py:19 | the sum is additive over concatenation |
| Stats.SumPermutation | map_scripts/color_completion_reducer.py:30 | the sum does not depend on the order of the values |
| Stats.SumBounds | map_scripts/color_completion_reducer.py:30 | values within `[lo, hi]` sum to within `[n lo, n hi]` |
| Stats.Mean | map_scripts/color_completion_reducer.py:30 | `np.mean` of a non-empty list: the sum of the values divided by their count |
| Stats.MeanBounds | map_scripts/color_completion_reducer.py:30 | `np.mean` lies between any lower and upper bound of the values |
| Stats.MeanPermutation | map_scripts/color_completion_reducer.py:30 | `np.mean` does not depend on the order of the values |
| Stats.Insert | map_scripts/color_completion_reducer.py:31 | inserting into sorted data keeps it sorted and adds exactly the one value |
| Stats.InsertFront | map_scripts/color_completion_reducer.py:31 | a value no larger than the first element can go in front |
| Stats.InsertBehind | map_scripts/color_completion_reducer.py:31 | a smaller head stays in front of a value inserted behind it |
| Stats.Sort | map_scripts/color_completion_reducer.py:31 | numpy's sort is sorted and a permutation of the data |
| Stats.SortedUnique | map_scripts/color_completion_reducer.py:31 | two sorted orders of the same values are equal |
| Stats.SortedTail | map_scripts/color_completion_reducer.py:31 | the tail of sorted data is sorted |
| Stats.SortedHeadIsLeast | map_scripts/color_completion_reducer.py:31 | the first value of sorted data is at most any of its values |
| Stats.Median | map_scripts/color_completion_reducer.py:31 | `np.median` of a non-empty list: the middle value of the sorted values, or the mean of the two middle values when the count is even |
| Stats.MedianBounds | map_scripts/color_completion_reducer.py:31 | `np.median` lies between the least and the greatest value, with at least half the values on each side |
| Stats.MiddleBounds | map_scripts/color_completion_reducer.py:31 | the same, for the middle of sorted data |
| Stats.MedianPermutation | map_scripts/color_completion_reducer.py:31 | `np.median` does not depend on the order of the values |
| Stats.LerpBetween | map_scripts/outlier_handler.py:38-39 | a point part of the way between two values lies between them |
| Stats.LerpMonotone | map_scripts/outlier_handler.py:38-39 | going further towards the upper value never moves back |
| Stats.Scaled | map_scripts/outlier_handler.py:38-39 | the interpolation position `(n-1)p/100` is an index of the data |
| Stats.InterpolateBetween | map_scripts/outlier_handler.py:38-39 | a percentile lies between the two data points it interpolates |
| Stats.InterpolateMonotone | map_scripts/outlier_handler.py:38-40 | on sorted data a lower percentile never exceeds a higher one |
| Stats.ScaledMonotone | map_scripts/outlier_handler.py:38-39 | a higher percentile has a position at or after a lower one |
| Stats.Percentile | map_scripts/outlier_handler.py:38-39 | `np.percentile(data, p)` with linear interpolation: the sorted values interpolated at position `(n - 1) * p / 100` |
| Stats.PercentileProperties | map_scripts/outlier_handler.py:38-40 | `np.percentile` of any data lies between its least and greatest value and grows with `p` |
| Stats.InterpolateEnds | map_scripts/outlier_handler.py:38-39 | the 0th percentile is the least value and the 100th the greatest |
| Calendar.NextDay | map_scripts/days_since_regsitration.py:24 | the day after a valid date is a valid date |
| Calendar.YearStep | map_scripts/days_since_regsitration.py:24 | the day count before a year grows by that year's length |
| Calendar.MonthStep | map_scripts/days_since_regsitration.py:24 | the day count before a month grows by that month's length, and December ends the year |
| Calendar.NextDayOrdinal | map_scripts/days_since_regsitration.py:24 | the next day has the next day number, so it is one day later |
| Calendar.MonthsWithinYear | map_scripts/days_since_regsitration.py:24 | a month's days come before the first of every later month |
| Calendar.YearsInOrder | map_scripts/days_since_regsitration.py:24 | a year's days come before January 1 of every later year |
| Calendar.Ordinal | map_scripts/days_since_regsitration.py:24 | `date.toordinal()`: the days of the whole years and whole months before the date, plus its day of the month |
| Calendar.OrdinalInYear | map_scripts/days_since_regsitration.py:24 | a date's number lies within its year |
| Calendar.OrdinalMonotone | map_scripts/days_since_regsitration.py:24 | day numbers follow calendar order |
| Calendar.DaysBetween | map_scripts/days_since_regsitration.py:24 | `(b - a).days` for two dates at midnight: the difference of their ordinals |
| Calendar.DaysBetweenSign | map_scripts/days_since_regsitration.py:24 | the difference is positive, zero or negative exactly when the second date is later, the same or earlier |
| Calendar.DaysBetweenArithmetic | map_scripts/days_since_regsitration.py:24 | the difference is zero from a date to itself, changes sign when the dates swap, and adds up across a middle date; 0001-01-01 is day 1 |
| Strptime.MatchYear | map_scripts/days_since_regsitration.py:20-21 | `%Y` takes exactly four digits, giving a year of at most 9999 |
| Strptime.MatchMonth | map_scripts/days_since_regsitration.py:20-21 | `%m` takes one or two characters, giving a month from 1 to 12 |
| Strptime.MatchDay | map_scripts/days_since_regsitration.py:20-21 | `%d` takes one or two characters, giving a day from 1 to 31 |
| Strptime.ParseDate | map_scripts/days_since_regsitration.py:20-21 | every date `strptime` returns is a valid calendar date |
| Strptime.DigitChar | map_scripts/days_since_regsitration.py:20-21 | the digit character of a digit reads back as that digit |
| Strptime.Padded2 | map_scripts/days_since_regsitration.py:20-21 | two zero-padded digits read back as the number |
| Strptime.Padded4 | map_scripts/days_since_regsitration.py:20-21 | four zero-padded digits read back as the number |
| Strptime.IsoText | map_scripts/days_since_regsitration.py:20-21 | the ISO 8601 text of a date has ten characters |
| Strptime.Spelled | map_scripts/days_since_regsitration.py:20-21 | a zero-padded year, month and day text has ten characters |
| Strptime.DigitsDetermined | map_scripts/days_since_regsitration.py:20-21 | two-digit strings of equal value are equal |
| Strptime.TenCharactersAreIso | map_scripts/days_since_regsitration.py:20-21 | a ten-character text read as a date, with no space before the day, is that date's ISO 8601 text |
| Strptime.MonthOfDigits | map_scripts/days_since_regsitration.py:20-21 | `%m` takes two digits exactly when they spell a month, and otherwise takes at most one |
| Strptime.DayOfDigits | map_scripts/days_since_regsitration.py:20-21 | `%d` takes two digits exactly when they spell a day from 1 to 31, and otherwise takes at most one |
| Strptime.ParseSpelled | map_scripts/days_since_regsitration.py:20-21 | a zero-padded year-month-day text is read back exactly when it is a valid date, and then as that date |
| Strptime.ParseIso | map_scripts/days_since_regsitration.py:20-21 | every valid date's ISO 8601 text is read back as itself |
| Strptime.TrailingTextRefused | map_scripts/days_since_regsitration.py:20-21 | text after the day is refused |
| Strptime.SingleDigitsAccepted | map_scripts/days_since_regsitration.py:20-21 | one-digit months and days are accepted as well |
| ColorCompletionMapper.MapLine | map_scripts/color_completion_mapper.py:9-25 | a line raises exactly when it has two fields (an `IndexError` on `fields[2]`), and prints a pair exactly when it has three or more fields and `float()` reads the third |
| ColorCompletionMapper.Mapper | map_scripts/color_completion_mapper.py:7-25 | the mapper loop: `Script.RunMapper` over `MapLine` |
| ColorCompletionMapper.MapperStops | map_scripts/color_completion_mapper.py:7-25 | the mapper stops with `IndexError` exactly at the first two-field line, and runs to the end if there is none |
| ColorCompletionMapper.MapLineYields | map_scripts/color_completion_mapper.py:15-22 | a line prints exactly the pair (second field, third field read as a float) |
| ColorCompletionMapper.MapperEmissions | map_scripts/color_completion_mapper.py:7-25 | a pair is printed exactly when a line handled before the stop yields it |
| ColorCompletionMapper.MapperAtMostOnePerLine | map_scripts/color_completion_mapper.py:19-22 | at most one pair is printed per input line |
| ColorCompletionReducer.TracksSameColor | map_scripts/color_completion_reducer.py:25-26 | a pair of the open colour appends its value to the open run |
| ColorCompletionReducer.TracksNewColor | map_scripts/color_completion_reducer.py:27-36 | a pair of another colour closes the open run, printing it under a truthy colour, and opens a run of one value |
| ColorCompletionReducer.TracksEnd | map_scripts/color_completion_reducer.py:38-42 | the final flush completes the report of all runs |
| ColorCompletionReducer.FoldSnoc | map_scripts/color_completion_reducer.py:24-36 | the state after one more pair is the old state fed that pair |
| ColorCompletionReducer.TracksFeed | map_scripts/color_completion_reducer.py:24-36 | feeding a pair keeps the variables in step with the runs |
| ColorCompletionReducer.FoldTracks | map_scripts/color_completion_reducer.py:11-36 | after any stream the printed lines are the closed runs and the variables hold the open run |
| ColorCompletionReducer.FoldIsRuns | map_scripts/color_completion_reducer.py:11-42 | the loop's printed lines plus the final flush are exactly the report of all maximal runs |
| ColorCompletionReducer.Reducer | map_scripts/color_completion_reducer.py:7-42 | the loop over the lines prints and ends exactly as the run specification says |
| ColorCompletionReducer.FoldValues | map_scripts/color_completion_reducer.py:28-32 | once a colour is set, its list of values is non-empty, so mean and median are defined |
| ColorCompletionReducer.ReducerStep | map_scripts/color_completion_reducer.py:16-36 | a line that unpacks changes the state by its parsed pair, or not at all when `float()` refuses |
| ColorCompletionReducer.ReducerCrash | map_scripts/color_completion_reducer.py:16 | the first malformed line stops the script with `ValueError`, with the lines of the closed runs printed |
| ColorCompletionReducer.ReducerFinish | map_scripts/color_completion_reducer.py:38-42 | input without a malformed line ends with the open run flushed |
| ColorCompletionReducer.Colors | map_scripts/color_completion_reducer.py:32 | one colour per result line, in order |
| ColorCompletionReducer.ReportIsPerRun | map_scripts/color_completion_reducer.py:28-32 | the result lines are, in order, the statistics of the runs with a non-empty colour, one per run |
| ColorCompletionReducer.OneLinePerColor | map_scripts/color_completion_reducer.py:24-42 | with equal colours contiguous, a complete run prints exactly one line per distinct non-empty colour |
| ColorCompletionReducer.ColorStatistics | map_scripts/color_completion_reducer.py:30-32 | with equal colours contiguous, each line carries the mean and median of all its colour's values |
| ColorCompletionReducer.UnparsableLineIgnored | map_scripts/color_completion_reducer.py:19-22 | removing a line whose value `float()` refuses leaves the printed results unchanged |
| ColorCompletionReducer.UnparsableAfterCrash | map_scripts/color_completion_reducer.py:16 | a line after the first malformed one is never looked at |
| ColorCompletionReducer.UnparsableBeforeCrash | map_scripts/color_completion_reducer.py:19-22 | an unparsable line before any malformed one changes no result |
| ColorCompletionReducer.NothingToFlush | map_scripts/color_completion_reducer.py:39 | input in which no value parses, empty input included, prints nothing and finishes |
| ColorCompletionReducer.NoValues | map_scripts/color_completion_reducer.py:19-22 | rows whose values all fail to parse give no pairs |
| ColorCompletionReducer.RowsSpec | map_scripts/color_completion_reducer.py:11-42 | the reducer over split rows: one result per maximal run of equal colours among the rows whose value parses, the last run flushed after the loop; at the first row that does not unpack into two fields, a `ValueError` that prints only the closed runs |
| ColorCompletionReducer.Spec | map_scripts/color_completion_reducer.py:7-42 | the reducer over input lines: `RowsSpec` of the stripped, tab-split lines |
| ColorCompletionReducer.RowsSpecAgree | map_scripts/color_completion_reducer.py:16-42 | two inputs that end the same way, with the same pairs before the first malformed row, print the same |
| ReducerAnalysis.Echoed | map_scripts/reducer_analysis.py:9-26 | what the loop prints for the rows it reads: each line's `Received line:` echo, followed by the result line of the run that row closes, if any |
| ReducerAnalysis.FinalFlush | map_scripts/reducer_analysis.py:28-29 | the test after the loop, `current_feature == feature`: the open run is printed only when its feature is that of the last line read, whether or not that line's value parsed |
| ReducerAnalysis.RowsSpec | map_scripts/reducer_analysis.py:4-29 | the reducer over split rows: the echoes and results up to and including the first row that does not unpack, which then stops the script with a `ValueError`; `UnboundLocalError` on empty input; otherwise every echo and closed run, then `FinalFlush` |
| ReducerAnalysis.Spec | map_scripts/reducer_analysis.py:4-29 | the reducer over input lines: `RowsSpec` of the tab-split rows and the stripped echoes of the lines |
| ReducerAnalysis.Fold | map_scripts/reducer_analysis.py:18-26 | once a feature is set, its count is positive |
| ReducerAnalysis.FoldIsOpen | map_scripts/reducer_analysis.py:18-26 | `total_completion` and `count` are the sum and number of values of the open run |
| ReducerAnalysis.OpenFeed | map_scripts/reducer_analysis.py:18-26 | one more pair updates the open run's sum and count as the loop body does |
| ReducerAnalysis.OpenSameKey | map_scripts/reducer_analysis.py:18-20 | the same, for a pair of the open feature |
| ReducerAnalysis.OpenNewKey | map_scripts/reducer_analysis.py:21-26 | the same, for a pair of a new feature |
| ReducerAnalysis.BoundaryOfFold | map_scripts/reducer_analysis.py:21-23 | what the variables print at a feature change is what the runs say closes |
| ReducerAnalysis.FinalFlushOfFold | map_scripts/reducer_analysis.py:28-29 | the final test on the variables prints what the runs say it prints |
| ReducerAnalysis.FoldSnoc | map_scripts/reducer_analysis.py:18-26 | the variables after one more pair are the old ones fed that pair |
| ReducerAnalysis.LineFold | map_scripts/reducer_analysis.py:9-26 | once a feature is set, its count is positive, so `total_completion / count` is defined |
| ReducerAnalysis.LineFoldSnoc | map_scripts/reducer_analysis.py:9-26 | the loop's variables after one more line are one loop step from the old ones |
| ReducerAnalysis.LineFoldIsEchoed | map_scripts/reducer_analysis.py:9-26 | the loop prints what the run specification says, and its sums are the folds of the parsed pairs |
| ReducerAnalysis.EchoedStep | map_scripts/reducer_analysis.py:9-26 | one more line keeps the loop and the run specification in agreement |
| ReducerAnalysis.EchoedStepOut | map_scripts/reducer_analysis.py:10-23 | the same, for the printed lines |
| ReducerAnalysis.EchoedStepAcc | map_scripts/reducer_analysis.py:13-26 | the same, for the running sums |
| ReducerAnalysis.AnalysisStep | map_scripts/reducer_analysis.py:10-26 | a line that unpacks is echoed, closes the open run if its value parses and its feature differs, and updates the sums |
| ReducerAnalysis.AnalysisCrash | map_scripts/reducer_analysis.py:10-11 | the first malformed line is echoed and then stops the script with `ValueError` |
| ReducerAnalysis.AnalysisFinish | map_scripts/reducer_analysis.py:28-29 | after complete input `feature` is the last line's feature, and the script ends with the final test |
| ReducerAnalysis.Accumulate | map_scripts/reducer_analysis.py:13-26 | `float()` failing changes nothing; otherwise the sum and count grow, or the open run is printed under a truthy feature and restarted |
| ReducerAnalysis.Reducer | map_scripts/reducer_analysis.py:4-29 | the whole script prints and ends exactly as the specification says |
| ReducerAnalysis.ReadLines | map_scripts/reducer_analysis.py:9-26 | the loop either stops on a malformed line as specified, or reads every line with its variables equal to the loop fold |
| ReducerAnalysis.ReadLine | map_scripts/reducer_analysis.py:10-26 | one pass echoes the line, raises on a malformed one, and otherwise makes one loop step and binds `feature` |
| ReducerAnalysis.Finish | map_scripts/reducer_analysis.py:28-29 | the final test, with `UnboundLocalError` when `feature` was never bound, ends the script as specified |
| ReducerAnalysis.FinishUnbound | map_scripts/reducer_analysis.py:28 | when the loop leaves `feature` unbound the script ends with `UnboundLocalError` after the lines it printed |
| ReducerAnalysis.FinishBound | map_scripts/reducer_analysis.py:28-29 | when the loop leaves `feature` bound the script finishes with the final test on the loop's variables |
| ReducerAnalysis.FinishEmpty | map_scripts/reducer_analysis.py:28 | on empty input the variables are initial and the final test raises `UnboundLocalError` |
| ReducerAnalysis.FinishLines | map_scripts/reducer_analysis.py:28-29 | on non-empty complete input `feature` is bound and the script ends with the final test on the loop's variables |
| ReducerAnalysis.FeatureBound | map_scripts/reducer_analysis.py:11 | `feature` is unbound after the loop exactly when there was no input |
| ReducerAnalysis.ReceiptsAppend | map_scripts/reducer_analysis.py:10 | debug echoes are additive over printed chunks |
| ReducerAnalysis.ResultsAppend | map_scripts/reducer_analysis.py:23 | result lines are additive over printed chunks |
| ReducerAnalysis.ReportResults | map_scripts/reducer_analysis.py:23 | the report of closed runs consists of result lines only |
| ReducerAnalysis.Closed | map_scripts/reducer_analysis.py:21-23 | the closed runs are all runs but the open last one |
| ReducerAnalysis.EchoedReceipts | map_scripts/reducer_analysis.py:10 | the loop echoes every row it reads, in order |
| ReducerAnalysis.BoundaryCloses | map_scripts/reducer_analysis.py:21-23 | a row closes the open run exactly when its pair starts a new run |
| ReducerAnalysis.EchoedResults | map_scripts/reducer_analysis.py:21-23 | the result lines the loop prints are those of the closed runs, in order |
| ReducerAnalysis.EchoesRead | map_scripts/reducer_analysis.py:10-11 | every row read is echoed, up to and including the row that stops the script |
| ReducerAnalysis.EveryLineEchoed | map_scripts/reducer_analysis.py:10 | the echoes are the input lines stripped and in order, up to and including the line that stops the script |
| ReducerAnalysis.EchoesPrefix | map_scripts/reducer_analysis.py:10 | the first `k` echoes are the first `k` lines, stripped |
| ReducerAnalysis.CrashLosesOpenRun | map_scripts/reducer_analysis.py:11 | a malformed line leaves only the closed runs' results printed; the open run is lost |
| ReducerAnalysis.CompleteResults | map_scripts/reducer_analysis.py:21-29 | after complete input the results are the closed runs, then the open run if the last line carries its feature |
| ReducerAnalysis.FinalFlushResults | map_scripts/reducer_analysis.py:28-29 | the final test prints only result lines |
| ReducerAnalysis.FinalFlushReceipts | map_scripts/reducer_analysis.py:28-29 | the final test prints no echo |
| ReducerAnalysis.ReportFrom | map_scripts/reducer_analysis.py:23 | each result line of closed runs is the line of one of them |
| ReducerAnalysis.RunMean | map_scripts/reducer_analysis.py:23 | with equal features contiguous, a run's line is the mean of all its feature's values |
| ReducerAnalysis.FeatureAverages | map_scripts/reducer_analysis.py:18-29 | with equal features contiguous, every result line after complete input is the mean of all values of its feature |
| ReducerAnalysis.ReportedMeans | map_scripts/reducer_analysis.py:23-29 | with equal features contiguous, the closed runs' lines and the final test's line each carry their feature's mean |
| ReducerAnalysis.FixedRowsSpec | map_scripts/reducer_analysis.py:28-29 | the reducer with the final test corrected to `if current_feature:`: the same as `RowsSpec` up to the first row that does not unpack; otherwise the open run is printed after the loop whatever the last line was, and empty input finishes with no output |
| ReducerAnalysis.FixedSpec | map_scripts/reducer_analysis.py:28-29 | the corrected reducer over input lines: `FixedRowsSpec` of the tab-split rows and the stripped echoes |
| ReducerAnalysis.FixedReportsEveryRun | map_scripts/reducer_analysis.py:28-29 | with the final test as intended, complete input finishes and reports every run |
| ReducerAnalysis.OpenResultCompletes | map_scripts/reducer_analysis.py:21-29 | the open run's line after the closed runs' lines is the report of all runs |
| ReducerAnalysis.FixedUnparsableIgnored | map_scripts/reducer_analysis.py:13-16 | with the intended final test, a line whose value does not parse changes no result line wherever it stands |
| ReducerAnalysis.LostLastRun | map_scripts/reducer_analysis.py:28-29 | as written, the rows `[a, 1]` then `[b, x]` finish with no result line, while the intended test prints `a` with mean 1 |
| ReducerAnalysis.LostLastRunLines | map_scripts/reducer_analysis.py:9-29 | the same on the input lines `a<TAB>1` then `b<TAB>x`: as written the script finishes with no result line, while the intended test prints `a` with mean 1 |
| ReducerAnalysis.LostLastRunStream | map_scripts/reducer_analysis.py:11-16 | the counterexample's two lines unpack, only the first parses, and they form one run |
| ReducerAnalysis.EmptyInputFails | map_scripts/reducer_analysis.py:28 | as written, empty input ends with `UnboundLocalError`; with the intended test it prints nothing and finishes |
| MapperAnalysis.LabelRoundTrip | map_scripts/mapper_analysis.py:19-21 | a key reads back as a feature and value exactly when it is that feature's tagged value |
| MapperAnalysis.MapLine | map_scripts/mapper_analysis.py:7-25 | a line never raises, and prints nothing unless it has at least four fields; a record prints `AGE:<field 1>`, then `Gender:<field 2>`, then `Region:<field 3>`, each with count 1 |
| MapperAnalysis.Mapper | map_scripts/mapper_analysis.py:5-25 | the mapper loop: `Script.RunMapper` over `MapLine` |
| MapperAnalysis.PrintsCases | map_scripts/mapper_analysis.py:14-21 | a record prints exactly `AGE:`, `Gender:` and `Region:` with fields 1 to 3, each with count 1 |
| MapperAnalysis.MapLineEmits | map_scripts/mapper_analysis.py:13-25 | what one line prints is exactly its tagged fields |
| MapperAnalysis.MapperEmissions | map_scripts/mapper_analysis.py:5-25 | the script always finishes and prints exactly the tagged fields of its record lines |
| MapperAnalysis.PrintsTagged | map_scripts/mapper_analysis.py:19-21 | a printed key reads back as a feature and the raw text of that feature's field |
| MapperAnalysis.LabelReadBack | map_scripts/mapper_analysis.py:19-21 | a tagged key reads back as the feature and text it was made of |
| MapperAnalysis.EmittedKeysTagged | map_scripts/mapper_analysis.py:19-21 | every printed key has count 1 and one of the three tags |
| MapperAnalysis.OtherFieldsIgnored | map_scripts/mapper_analysis.py:14-16 | two records that agree on fields 1 to 3 print the same |
| MapperCorrelation.MapLine | map_scripts/mapper_correlation.py:7-20 | a line never raises; a line of more than four fields prints `age`, `gender`, `region` in that order, and any other line prints nothing |
| MapperCorrelation.Mapper | map_scripts/mapper_correlation.py:5-20 | the mapper loop: `Script.RunMapper` over `MapLine` |
| MapperCorrelation.CountOfAppend | map_scripts/mapper_correlation.py:18-20 | the count under a key is additive over chunks of output |
| MapperCorrelation.MapperTriples | map_scripts/mapper_correlation.py:5-20 | the mapper finishes with one `age`, `gender`, `region` triple per record line |
| MapperCorrelation.TriplesConcat | map_scripts/mapper_correlation.py:18-20 | a triple, or nothing, before a sequence of triples is a sequence of triples |
| MapperCorrelation.FeatureCounts | map_scripts/mapper_correlation.py:18-20 | each key is printed once per record line |
| MapperCorrelation.RecordCount | map_scripts/mapper_correlation.py:18-20 | a record line prints each key once |
| MapperCorrelation.MapLineEmits | map_scripts/mapper_correlation.py:10-20 | a line prints a pair exactly when it is a record line and the pair carries its fifth field |
| MapperCorrelation.MapperEmissions | map_scripts/mapper_correlation.py:5-20 | every printed value is some record line's fifth field, verbatim |
| MapperCorrelation.LeadingFieldsIgnored | map_scripts/mapper_correlation.py:11-15 | two record lines with the same fifth field print the same |
| MultiLabel.MapLine | map_scripts/multi_label.py:9-27 | a line raises `IndexError` exactly when it has two fields; a line of fewer than two fields prints nothing; a line prints labels exactly when it has three or more fields; every printed count is 1 |
| MultiLabel.Mapper | map_scripts/multi_label.py:6-27 | the mapper loop: `Script.RunMapper` over `MapLine` |
| MultiLabel.RecordLabels | map_scripts/multi_label.py:17-24 | a record prints one stripped `hobby:` label per hobby item, then one `language:` label per language item: one more label per field than commas |
| MultiLabel.TaggedConcat | map_scripts/multi_label.py:21-24 | the labels of the two item lists in turn, in order |
| MultiLabel.TaggedMember | map_scripts/multi_label.py:21-24 | a label is printed for a list of items exactly when it is one of the items, stripped and tagged, with count 1 |
| MultiLabel.MapLineEmits | map_scripts/multi_label.py:9-24 | what one line prints is exactly its labels: the tagged hobby items of its second field and the tagged language items of its third, and nothing for a line of fewer than three fields |
| MultiLabel.MapperEmissions | map_scripts/multi_label.py:8-27 | a label is printed exactly when some line handled before the mapper stopped prints it |
| MultiLabel.MapperStopsAndCountsOne | map_scripts/multi_label.py:8-27 | the mapper stops with `IndexError` exactly at the first two-field line, and every printed count is 1 |
| MultiLabel.Add | map_scripts/multi_label.py:38 | `counts[label] += n` on a `defaultdict(int)`: a known label's count grows by `n`; a new label starts at `n` and goes to the end of the insertion order |
| MultiLabel.Tallied | map_scripts/multi_label.py:31-38 | the counter after adding each entry in turn, starting from the empty counter |
| MultiLabel.TalliedSnoc | map_scripts/multi_label.py:38 | one more entry adds its count to its own label only |
| MultiLabel.LabelledSnoc | map_scripts/multi_label.py:38 | one more entry adds exactly its label to the labels seen |
| MultiLabel.TotalUnlabelled | map_scripts/multi_label.py:38 | a label of no entry totals zero |
| MultiLabel.TalliedKeys | map_scripts/multi_label.py:31-38 | the dictionary's keys are the labels seen, and its insertion order lists exactly its keys, none twice |
| MultiLabel.TalliedTotals | map_scripts/multi_label.py:38 | each key holds the sum of its label's counts |
| MultiLabel.TalliedOrder | map_scripts/multi_label.py:41 | `counts.items()` lists labels in order of first appearance |
| MultiLabel.FirstAppearanceAt | map_scripts/multi_label.py:41 | a label listed earlier has an entry before any entry of a label listed later |
| MultiLabel.FirstAppearanceOld | map_scripts/multi_label.py:38-41 | adding a listed label keeps the order one of first appearance |
| MultiLabel.FirstAppearanceNew | map_scripts/multi_label.py:38-41 | adding a new label at the end keeps the order one of first appearance |
| MultiLabel.FirstRefused | map_scripts/multi_label.py:36-38 | the index of the first two-field row whose count `int()` refuses, or the row count |
| MultiLabel.Report | map_scripts/multi_label.py:41-42 | one printed pair per key of the dictionary |
| MultiLabel.FirstRefusedMinimal | map_scripts/multi_label.py:38 | no row before the first refused one is refused |
| MultiLabel.FirstRefusedPrefix | map_scripts/multi_label.py:38 | a refusal within a prefix is the first refusal of the whole input |
| MultiLabel.TallyRow | map_scripts/multi_label.py:36-38 | a row that is not refused adds its count if it has two fields, and changes nothing otherwise |
| MultiLabel.StopRow | map_scripts/multi_label.py:38 | a refused row is where the whole run stops |
| MultiLabel.Increment | map_scripts/multi_label.py:38 | `counts[label] += n` adds to the label's count, starting a new label at 0 at the end of the insertion order |
| MultiLabel.CountLabels | map_scripts/multi_label.py:34-38 | the loop stops at the first refused count, and after a full run holds the tallied entries |
| MultiLabel.PrintCounts | map_scripts/multi_label.py:41-42 | the printing loop prints the dictionary in insertion order |
| MultiLabel.Spec | map_scripts/multi_label.py:29-42 | the reducer's output: at the first two-field row whose count `int()` refuses, a `ValueError` before anything is printed; otherwise the report of the counter tallied over all two-field rows |
| MultiLabel.Reducer | map_scripts/multi_label.py:29-42 | the counting loop and then the printing loop print and end exactly as the specification says |
| MultiLabel.ReducerCrash | map_scripts/multi_label.py:38 | the reducer stops exactly when some line has two fields and a count `int()` refuses, at the first such line and before printing anything |
| MultiLabel.Names | map_scripts/multi_label.py:42 | one label per printed line, in order |
| MultiLabel.SpecFinished | map_scripts/multi_label.py:41-42 | a run that finishes prints the tallied dictionary |
| MultiLabel.TalliedReport | map_scripts/multi_label.py:41-42 | the dictionary prints each label once, with the sum of its counts, in order of first appearance |
| MultiLabel.ReducerReport | map_scripts/multi_label.py:29-42 | a finished run prints each label of its input once, with the sum of its counts, in order of first appearance |
| MultiLabel.EntriesMember | map_scripts/multi_label.py:36-38 | the entries are exactly what the two-field rows with a readable count give |
| MultiLabel.EntriesAppend | map_scripts/multi_label.py:34-38 | the entries of two chunks of rows are the chunks' entries in turn |
| MultiLabel.IgnoredRow | map_scripts/multi_label.py:36 | a row without exactly two fields adds no entry, wherever it stands |
| MultiLabel.IgnoredLastRow | map_scripts/multi_label.py:36 | a last row without exactly two fields adds no entry and no refusal |
| MultiLabel.IgnoredLine | map_scripts/multi_label.py:36 | a last line without exactly two fields changes nothing the reducer does |
| MultiLabel.TotalAppend | map_scripts/multi_label.py:38 | totals are additive over chunks of entries |
| MultiLabel.TotalPermutation | map_scripts/multi_label.py:38 | a label's total does not depend on the order of the entries |
| MultiLabel.LabelledPermutation | map_scripts/multi_label.py:38 | whether a label occurs does not depend on the order of the entries |
| MultiLabel.EntriesPermutation | map_scripts/multi_label.py:34-38 | reordering the rows reorders the entries |
| MultiLabel.OrderIndependent | map_scripts/multi_label.py:34-38 | the final counts do not depend on the order of the input rows |
| OutlierHandler.MapLine | map_scripts/outlier_handler.py:8-17 | a line never raises, and prints at most one pair: exactly the pair its first two fields carry when `float()` reads both |
| OutlierHandler.Mapper | map_scripts/outlier_handler.py:5-17 | the mapper loop: `Script.RunMapper` over `MapLine` |
| OutlierHandler.MapperEmissions | map_scripts/outlier_handler.py:7-17 | the mapper finishes, prints at most one pair per line, and prints exactly the pairs the lines carry |
| OutlierHandler.Collected | map_scripts/outlier_handler.py:24-29 | no more values are collected than there are lines |
| OutlierHandler.CollectedMember | map_scripts/outlier_handler.py:24-29 | a value is collected exactly when some line of two readable fields carries it second |
| OutlierHandler.CollectedLength | map_scripts/outlier_handler.py:24-29 | one value is collected per line that collects |
| OutlierHandler.CollectStep | map_scripts/outlier_handler.py:26-27 | one more line appends its second value exactly when it collects |
| OutlierHandler.CollectData | map_scripts/outlier_handler.py:21-29 | the collecting loop builds exactly the collected values |
| OutlierHandler.Within | map_scripts/outlier_handler.py:47 | the filter keeps no more values than the data has |
| OutlierHandler.FirstTen | map_scripts/outlier_handler.py:52 | `s[:10]` is a prefix of `min(10, len(s))` values |
| OutlierHandler.Fenced | map_scripts/outlier_handler.py:40-52 | the report for quartiles `q1` and `q3`: the IQR `q3 - q1`, the fences `q1 - 1.5 * IQR` and `q3 + 1.5 * IQR`, the number of values outside the fences, and the first ten values inside them |
| OutlierHandler.Summarize | map_scripts/outlier_handler.py:31-52 | there is no report exactly when there is no data |
| OutlierHandler.Reducer | map_scripts/outlier_handler.py:19-52 | the reducer reports the statistics of the collected values, and reports nothing exactly when no line collects |
| OutlierHandler.NothingCollected | map_scripts/outlier_handler.py:31-32 | nothing is collected exactly when no line collects |
| OutlierHandler.QuartilesOrdered | map_scripts/outlier_handler.py:38-44 | the quartiles lie within the data and in order, so the range is not negative and the fences enclose both quartiles |
| OutlierHandler.FencesEnclose | map_scripts/outlier_handler.py:40-44 | ordered quartiles give a non-negative range and fences around both |
| OutlierHandler.WithinMember | map_scripts/outlier_handler.py:47 | the filter keeps exactly the values within the fences, both ends included |
| OutlierHandler.WithinAppend | map_scripts/outlier_handler.py:47 | the filter works piecewise and keeps the order of what it keeps |
| OutlierHandler.WithinRemoves | map_scripts/outlier_handler.py:51 | the filter drops exactly the values outside the fences |
| OutlierHandler.RemovedAndPreview | map_scripts/outlier_handler.py:51-52 | the number removed is the count outside the fences, and the preview is the first ten filtered values |
| OutlierHandler.OutsidePermutation | map_scripts/outlier_handler.py:51 | the number outside the fences does not depend on the order of the values |
| OutlierHandler.OutsideAppend | map_scripts/outlier_handler.py:51 | the number outside the fences is additive over chunks |
| OutlierHandler.SummaryPermutation | map_scripts/outlier_handler.py:38-51 | the quartiles, fences and number removed depend only on the collected values, not their order |
| OutlierHandler.WorkedExample | map_scripts/outlier_handler.py:38-52 | on 10, 12, 12, 13, 12, 11, 14, 13, 15, 102 the quartiles are 12 and 13.75, the fences 9.375 and 16.375, and only 102 is removed |
| OutlierHandler.ExampleQuartiles | map_scripts/outlier_handler.py:38-39 | the worked case's sorted data has quartiles 12 and 13.75 |
| OutlierHandler.ExampleFilter | map_scripts/outlier_handler.py:47 | the worked case's filter keeps the first nine values |
| OutlierHandler.WithinAll | map_scripts/outlier_handler.py:47 | data entirely within the fences is kept whole |
| DaysSinceRegistration.MapLine | map_scripts/days_since_regsitration.py:8-30 | a line raises `IndexError` exactly when it has two fields, and prints at most one pair |
| DaysSinceRegistration.Mapper | map_scripts/days_since_regsitration.py:5-30 | the mapper loop: `Script.RunMapper` over `MapLine` |
| DaysSinceRegistration.MapLineYields | map_scripts/days_since_regsitration.py:14-27 | a line prints exactly the pair (user id, days between its two dates) when `strptime` reads both dates |
| DaysSinceRegistration.MapperStops | map_scripts/days_since_regsitration.py:11-17 | the mapper stops with `IndexError` exactly at the first two-field line |
| DaysSinceRegistration.MapperEmissions | map_scripts/days_since_regsitration.py:7-30 | a pair is printed exactly when a line handled before the stop yields it |
| DaysSinceRegistration.YieldedDaysSign | map_scripts/days_since_regsitration.py:24 | the days are negative exactly when the last login is before registration, and zero exactly for the same day |
| DaysSinceRegistration.Reducer | map_scripts/days_since_regsitration.py:32-38 | the reducer loop: `Script.RunMapper` over a per-line function that prints the line stripped |
| DaysSinceRegistration.ReducerEchoes | map_scripts/days_since_regsitration.py:36-38 | the reducer prints every input line stripped, in order, and always finishes |

## Left out

- `normalize.py` and `encode_variables.py` are not part of this model.
- Floating point: every computation is exact over `real`. This covers the
  sums and divisions of `reducer_analysis.py`, `np.mean`, `np.median` and
  `np.percentile`, and the fences of `outlier_handler.py`. Rounding and
  `NaN`/`inf` are not modelled.
- The grammar of `float()` and `int()` is not modelled. Each is a parameter,
  with `None` for the inputs it refuses.
- Output formatting is not modelled: the printed lines are values, not text.
  This covers `{x}`, `:.2f`, the `Q1: …` report lines of
  `outlier_handler.py` and the `Received line:` prefix of
  `reducer_analysis.py`.
- Input and output are not modelled. Standard input is a sequence of lines,
  and output is the sequence of printed values.
- The Hadoop shuffle is not modelled. The reducers' promises about one line
  per key take sortedness or contiguity of keys as a premise
  (`Grouping.KeysContiguous`, `Grouping.KeysSorted`).
- The `sys.argv` dispatch between mapper and reducer runs is not modelled.
  Each is its own function or method.
- Sorting inside numpy is left out. `Stats.Sort` is an insertion sort used
  only as a specification, and `Stats.SortedUnique` shows that any sort
  gives the same result.
- `Strptime`: Python's `\d` also matches non-ASCII decimal digits. The model
  accepts only `0`-`9`, so a date written with other digits is refused by
  the model but accepted by Python.
- `MultiLabel.Increment`: not modelled is that `counts[label] += int(count)`
  inserts the label with 0 before `int()` raises. That insertion cannot be
  seen, because the uncaught `ValueError` ends the script before anything is
  printed.
- `multi_label.py` imports pandas without using it. That import is not
  modelled.

## Findings

| source | as written | input that shows it | evidently intended | confidence | as-written member | corrected member |
|---|---|---|---|---|---|---|
| map_scripts/reducer_analysis.py:28-29 | the final test `if current_feature == feature:` compares with the feature of the last line read, parsed or not | lines `a<TAB>1`, `b<TAB>x`: no result line is printed | print the open run whenever one is open (`if current_feature:`) | not executed | ReducerAnalysis.LostLastRunLines | ReducerAnalysis.FixedReportsEveryRun |
| map_scripts/reducer_analysis.py:28 | `feature` is bound only inside the loop | empty input: the final test raises `UnboundLocalError` | empty input prints nothing and finishes | not executed | ReducerAnalysis.EmptyInputFails | ReducerAnalysis.FixedReportsEveryRun |
