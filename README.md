# Habit and health aggregation of daily-doings-tracker, in Dafny

This project models the calculation layer of a habit and health dashboard. The rendering is not modelled.

- **CSV parsers.** Two parsers turn an uploaded CSV text into a dictionary `Record<string, string[]>`. The habit parser groups dates by habit. The health parser groups composite `date,log,value` strings by log. A missing field reads as the string `undefined`, as a template literal or a property key turns JavaScript's `undefined` into text: a line without a comma is grouped under the key `undefined`, and a two-field health line stores `date,log,undefined`.
- **Streak walk.** It counts the current streak of consecutive days, with a one-day grace step.
- **Completion rate.** The number of entries dated in `[start, now]` as a percentage of the calendar days in that range, rounded to a whole number. Several entries on one day all count, so the rate can exceed 100.
- **Health view.** This covers:
  - the in-range filter;
  - the completion rate per log;
  - the chart points;
  - the min/max/average summary;
  - the list of logs ordered by rate;
  - the unit label.
- **Heatmap data.** Value-1 points kept in a fixed 30-day window, and the list of distinct habits in order of first appearance.

Time is a whole number of milliseconds since the Unix epoch, in UTC.

- `DAY` is 86 400 000.
- The calendar day of `t` is `t / DAY`.
- A `YYYY-MM-DD` date reads as that day's midnight.
- "Now" is a parameter of every calculation that reads the clock.

Modules:

| file | module | models |
|---|---|---|
| options.dfy | `Options` | `Option` (an Invalid Date, a `NaN`) |
| text.dfy | `Text` | `String.prototype.split` on one character, `trim`, `replace(/"/g, '')`, decimal digits |
| dates.dfy | `Dates` | UTC days and midnights; `new Date(s)` / `parseISO(s)` on `YYYY-MM-DD` |
| numbers.dfy | `Numbers` | `parseFloat` over exact reals |
| seqs.dfy | `Seqs` | `filter`, `map`, `new Set` order of first appearance, sub-sequences |
| csv_parser.dfy | `CsvParser` | `parseCSVData`, `parseHealthCSVData` (loops over lines, a dictionary updated in place) |
| streaks.dfy | `Streaks` | `calculateCurrentStreak` (a loop with a day cursor) |
| completion_rates.dfy | `CompletionRates` | `calculateCompletionRate` of the completion-rates view |
| health_stats.dfy | `HealthStats` | `filterDatesInRange`, `calculateCompletionRate`, `getChartData`, `calculateStats`, `sortedHealthData`, `getUnitLabel` |
| heatmap.dfy | `Heatmap` | the heatmap's `data` and `uniqueHabits` |

A dictionary is `Groups(keys, lists)`:

- `keys` is the insertion order, which is the order `Object.entries` reports.
- `lists` is the map from key to list.

Each parser is a method whose loop builds the dictionary step by step with `AddToGroup`. Its contract ties the result to a reference definition, `GroupRows`: the distinct keys in order of first appearance, each mapped to its items in line order. Every property of the parsers is proved about that definition.

The streak is a method with the source's loop, proved equal to the reference function `CurrentStreak`. That function sorts the dates and counts the run of consecutive days from the start day.

The other views are chains of `filter`/`map`/`reduce` in the source and are modelled as functions.

## Model

| member | source | states |
|---|---|---|
| CsvParser.ParseCSVData | src/utils/csvParser.ts:18-36 | the loop over lines 1.. builds exactly the grouping of the habit rows of the data lines (`HabitGroups`) |
| CsvParser.ParseHealthCSVData | src/utils/csvParser.ts:41-60 | the loop over lines 1.. builds exactly the grouping of the health rows of the data lines (`HealthGroups`) |
| CsvParser.AddToGroup | src/utils/csvParser.ts:29-32 | creating the list of a new key (listed last) and pushing onto it is `Push` on the dictionary |
| CsvParser.ReadHabitLine | src/utils/csvParser.ts:24-27 | the loop body's reading of one line is `HabitRow`: no row exactly for a blank line, otherwise a habit and a date free of `"` and of surrounding whitespace |
| CsvParser.ReadHealthLine | src/utils/csvParser.ts:47-56 | the loop body's reading of one line is `HealthRow`: no row exactly for a blank line, otherwise an element that splits back into three clean fields with the key in the middle |
| CsvParser.HabitRow | src/utils/csvParser.ts:24-27 | a line gives no row exactly when it is all whitespace; a row's habit and date hold no `"` and no surrounding whitespace; which field is which is stated by `CsvParser.PlainHabitLine` and `CsvParser.QuotedHabitLine` |
| CsvParser.HealthRow | src/utils/csvParser.ts:47-56 | a line gives no row exactly when it is all whitespace; a row's element splits on `,` into three clean fields, the middle one its key; which field is which is stated by `CsvParser.PlainHealthLine` |
| CsvParser.PlainHabitLine | src/utils/csvParser.ts:27-32 | the line `date,habit` gives the row keyed by the second field, `habit`, holding the first field, `date` |
| CsvParser.QuotedHabitLine | src/utils/csvParser.ts:27-32 | the line `date,"habit"` gives the same row: the quotes are removed from the habit |
| CsvParser.PlainHealthLine | src/utils/csvParser.ts:50-56 | the line `date,log,value` gives the row keyed by the second field, `log`, holding the composite `date,log,value` |
| CsvParser.HabitLineWithoutComma | src/utils/csvParser.ts:27-32 | a line with no comma is grouped under the key `"undefined"`, the string a missing destructured field turns into |
| CsvParser.HealthLineWithoutValue | src/utils/csvParser.ts:50-56 | the line `date,log` stores the composite `date,log,undefined` under `log` |
| CsvParser.HabitLineExtraFields | src/utils/csvParser.ts:27-32 | fields past the second are ignored: `date,habit,rest` gives the same row as `date,habit` |
| CsvParser.HealthLineExtraFields | src/utils/csvParser.ts:50-56 | fields past the third are ignored: `date,log,value,rest` stores `date,log,value` under `log` |
| CsvParser.AppendedHabitLine | src/utils/csvParser.ts:18-36 | appending the line `date,habit` to a habit file pushes `date` onto the list of `habit`, adding the key at the end if it is new; nothing else changes |
| CsvParser.AppendedHealthLine | src/utils/csvParser.ts:41-60 | appending the line `date,log,value` to a health file pushes `date,log,value` onto the list of `log`; nothing else changes |
| CsvParser.GroupRowsAppend | src/utils/csvParser.ts:29-32 | grouping one more row pushes its item at the end of its key's list, creating the list when the key is new |
| CsvParser.AppendedLineIsPushed | src/utils/csvParser.ts:29-32 | a line appended to a habit file lands at the end of its habit's list (new habits listed last); every other list is unchanged |
| CsvParser.GroupRows | src/utils/csvParser.ts:29-32 | keys listed once each, exactly the dictionary's keys, and every list non-empty |
| CsvParser.GroupRowsSize | src/utils/csvParser.ts:29-32 | the lists hold exactly one element per row |
| CsvParser.HabitRowsCount | src/utils/csvParser.ts:24-25 | one habit row per non-blank line, none for a blank one |
| CsvParser.HealthRowsCount | src/utils/csvParser.ts:47-48 | one health row per non-blank line, none for a blank one |
| CsvParser.HabitGroupsSize | src/utils/csvParser.ts:23-32 | total list length of a parsed habit file equals its number of non-blank data lines |
| CsvParser.HealthGroupsSize | src/utils/csvParser.ts:46-56 | total list length of a parsed health file equals its number of non-blank data lines |
| CsvParser.HeaderIgnored | src/utils/csvParser.ts:22-23 | whatever the first line says, both parsers group only the lines after it |
| CsvParser.CleanFieldIsClean | src/utils/csvParser.ts:27 | a cleaned field has no `"`, no surrounding whitespace, and no comma unless the raw field had one |
| CsvParser.HabitGroupsClean | src/utils/csvParser.ts:27-32 | every key and every date of a parsed habit file is free of `"` and of surrounding whitespace |
| CsvParser.HealthItemSplits | src/utils/csvParser.ts:56 | the composite `date,log,value` of comma-free fields splits back into `[date, log, value]` |
| CsvParser.HealthGroupsRoundTrip | src/utils/csvParser.ts:50-56 | every stored health element splits on `,` into exactly three parts, the middle one being the key it is grouped under |
| CsvParser.QuotedCommaCutsHabit | src/utils/csvParser.ts:27 | a quoted habit holding a comma (as in the sample line `"Yoga, Stretching ..."`) is grouped under the part before the comma |
| Text.Trim | src/utils/csvParser.ts:24 | `trim` leaves no whitespace at either end, never lengthens, and empties exactly the all-whitespace strings |
| Text.TrimSpec | src/utils/csvParser.ts:24 | `trim` keeps one contiguous stretch of its input and removes only whitespace before and after it; it empties exactly the all-whitespace strings and fixes trimmed strings |
| Text.RemoveQuotes | src/utils/csvParser.ts:27 | `replace(/"/g, '')` leaves no `"` and never lengthens |
| Text.RemoveQuotesSpec | src/utils/csvParser.ts:27 | `replace(/"/g, '')` is the filter that drops `"`: every other character kept, in order, as often as it occurs |
| Text.Split | src/utils/csvParser.ts:19 | `split` gives at least one piece, so an empty string gives `[""]` |
| Text.SplitCount | src/utils/csvParser.ts:27 | `split` gives one more piece than there are separators |
| Text.SplitJoin | src/utils/csvParser.ts:19 | splitting the join of separator-free pieces gives the pieces back |
| Text.JoinSplit | src/utils/csvParser.ts:19 | joining the pieces of a split gives the string back |
| Dates.ParseDate | src/components/CompletionRates.tsx:18 | a date that parses has the form `YYYY-MM-DD` and reads as a midnight |
| Dates.ParseEpoch | src/components/HealthStats.tsx:87 | the date `1970-01-01` reads as timestamp 0, the Unix epoch |
| Dates.YearLength | src/components/HeatmapChart.tsx:23 | a year from March to March has 365 days, 366 when its February is a leap February |
| Dates.NextDayInMonth | src/components/HeatmapChart.tsx:23 | the next day of the same month is the next day number |
| Dates.NextMonth | src/components/HeatmapChart.tsx:23 | the first of a month is the day after the last day of the month before |
| Dates.NextYear | src/components/HeatmapChart.tsx:23 | 1 January is the day after 31 December |
| Dates.ParseNextDay | src/components/HealthStats.tsx:87 | two consecutive dates of a month read exactly one day apart |
| Dates.ParseLeapDay | src/components/HeatmapChart.tsx:23 | 2024-02-29 reads as midnight of day 19782 |
| Dates.ParseCommonYearLeapDay | src/components/HeatmapChart.tsx:23 | 2023-02-29 is an Invalid Date |
| Numbers.ParseFloat | src/components/HealthStats.tsx:121 | a value that parses holds a digit |
| Numbers.ParseFloatDigits | src/components/HealthStats.tsx:130 | a run of digits parses to the number it writes |
| Numbers.ParseFloatDecimal | src/components/HealthStats.tsx:130 | `int.frac` followed by anything but a digit parses to `int + 0.frac` (an exponent such as `e2` is not read: see `Numbers.ParseFloat` under Left out) |
| Numbers.ParseUnsignedFraction | src/components/HealthStats.tsx:130 | after the sign, `int.frac` followed by anything but a digit reads as `int + 0.frac` (exponents are not read: see `Numbers.ParseFloat` under Left out) |
| Numbers.ParseFloatNegative | src/components/HealthStats.tsx:130 | a minus in front negates the number read after it |
| Numbers.ParseFloatSkipsWhitespace | src/components/HealthStats.tsx:130 | leading whitespace does not change the value |
| Numbers.ParseFloatExample | src/components/HealthStats.tsx:121 | `"72.5"` parses to 72.5 |
| Numbers.ParseUnsignedExample | src/components/HealthStats.tsx:121 | `"0.25 kg"` reads as 0.25: the text after the number is ignored |
| Numbers.ParseFloatNegativeExample | src/components/HealthStats.tsx:121 | `"-0.25 kg"` parses to -0.25 |
| Streaks.CalculateCurrentStreak | src/components/StreaksView.tsx:10-34 | the loop with its grace step returns the reference streak `CurrentStreak` |
| Streaks.SortDescendingSpec | src/components/StreaksView.tsx:11-13 | the sort gives a descending permutation of the dates |
| Streaks.StreakIsRunFromStartDay | src/components/StreaksView.tsx:16-31 | with `c` today if some entry is today, else yesterday, the first `k` sorted entries are on days `c`, `c-1`, …, and entry `k` (if any) is not on `c-k` |
| Streaks.StreakOrderIndependent | src/components/StreaksView.tsx:11-13 | the streak depends only on which dates there are, not on their order |
| Streaks.CurrentStreak | src/components/StreaksView.tsx:24-31 | the streak never exceeds the number of entries |
| Streaks.StaleStreakIsZero | src/components/StreaksView.tsx:19-30 | nothing dated today or yesterday (an empty list included) gives 0 |
| Streaks.FutureEntryZeroesStreak | src/components/StreaksView.tsx:11-30 | an entry dated after today gives 0 |
| Streaks.ConsecutiveDaysStreak | src/components/StreaksView.tsx:24-31 | one entry on each of the last `n` days up to today gives `n` |
| Streaks.GraceDayStreak | src/components/StreaksView.tsx:19-22 | one entry on each of the `n` days up to yesterday, none today, gives `n` |
| Streaks.SecondEntryTodayEndsStreak | src/components/StreaksView.tsx:24-30 | entries today, today again and yesterday give 1: duplicates are not removed and end the walk |
| CompletionRates.DaysInRange | src/components/CompletionRates.tsx:12-15 | the day count of a range with start ≤ now is at least 1 |
| CompletionRates.RoundHalfUp | src/components/CompletionRates.tsx:21 | `Math.round(n / d)`: the integer within one half of `n / d`, halves rounded up |
| CompletionRates.Rate | src/components/CompletionRates.tsx:21 | `Math.round(count / days * 100)` over exact numbers: the integer nearest `100 * count / days`, halves rounded up |
| CompletionRates.CompletionRate | src/components/CompletionRates.tsx:11-22 | the rate is the integer nearest 100 times the in-range entries over the days of the range, halves rounded up |
| CompletionRates.RateMonotone | src/components/CompletionRates.tsx:21 | more entries never give a lower rate over the same days |
| CompletionRates.FullRate | src/components/CompletionRates.tsx:21 | as many entries as days gives 100 |
| CompletionRates.RateAbove100 | src/components/CompletionRates.tsx:17-21 | more entries than days (ranges up to 200 days) gives more than 100: the rate is not capped |
| CompletionRates.NoEntriesInRange | src/components/CompletionRates.tsx:17-21 | no entry in range gives 0 |
| CompletionRates.OutOfRangeIgnored | src/components/CompletionRates.tsx:17-19 | inserting out-of-range entries anywhere leaves the rate unchanged |
| CompletionRates.MoreEntriesNeverLower | src/components/CompletionRates.tsx:17-21 | appending entries never lowers the rate |
| CompletionRates.WindowEntriesInRange | src/components/CompletionRates.tsx:17-19 | of one entry per day of an `n`-day window ending now, all count at midnight and all but the first otherwise |
| CompletionRates.EveryDayOfWindow | src/components/CompletionRates.tsx:11-22 | an entry on every calendar day of the window, seen at a time other than midnight, scores `Rate(n, n + 1)` |
| CompletionRates.EveryDayOfLastWeek | src/pages/Index.tsx:55-78 | for "Last Week", an entry every day scores 88, not 100, unless now is exactly midnight |
| CompletionRates.EveryDayOfWindowAtMidnight | src/components/CompletionRates.tsx:11-22 | the same entries seen exactly at midnight score 100 |
| HealthStats.FilterDatesInRange | src/components/HealthStats.tsx:84-90 | the filter never lengthens, and every entry kept has a date column in `[start, now]` |
| HealthStats.FilterDatesInRangeSpec | src/components/HealthStats.tsx:84-90 | the filter keeps, in order and with their multiplicity, exactly the entries whose date column parses to a time in `[start, now]` |
| HealthStats.LaterStartNarrows | src/components/HealthStats.tsx:88 | a later start keeps a sub-list of what an earlier start keeps |
| HealthStats.HealthCompletionRate | src/components/HealthStats.tsx:93-103 | a log's rate is the integer nearest 100 times its in-range entries over the days of the range, halves rounded up |
| HealthStats.HealthRateIsDateRate | src/components/HealthStats.tsx:93-103 | a log's rate is the completion rate of its entries' date column |
| HealthStats.GetChartData | src/components/HealthStats.tsx:115-124 | never more points than entries, and every point is dated in `[start, now]` |
| HealthStats.ChartDataSpec | src/components/HealthStats.tsx:115-124 | one point per in-range entry, dated by its date column, valued 0 exactly when its value is missing, unparsable or zero |
| HealthStats.SurvivorsSpec | src/components/HealthStats.tsx:129-132 | the values kept for the stats are the surviving parsed values, in order and as often as they occur; so exactly the parsed numbers other than 0 |
| HealthStats.StatsValuesAreNonZeroChartValues | src/components/HealthStats.tsx:116-132 | the stats are taken over exactly the non-zero chart values |
| HealthStats.StatsOfSpec | src/components/HealthStats.tsx:137-140 | min and max are values, they bound every value, min ≤ avg ≤ max, and avg is the arithmetic mean: the number of values times avg is their sum |
| HealthStats.StatsOfMean | src/components/HealthStats.tsx:139 | the number of values times avg is the sum of the values |
| HealthStats.StatsOfBounds | src/components/HealthStats.tsx:137-140 | with at least one value, min ≤ avg ≤ max |
| HealthStats.SumAppend | src/components/HealthStats.tsx:139 | the sum `reduce((a, b) => a + b, 0)` of a concatenation is the sum of the sums of its parts |
| HealthStats.CalculateStats | src/components/HealthStats.tsx:127-141 | avg is the mean of the surviving values (their number times avg is their sum), min ≤ avg ≤ max, and the stats are either `{0, 0, 0}` or have non-zero min and max |
| HealthStats.CalculateStatsSpec | src/components/HealthStats.tsx:127-141 | with surviving values, min and max are surviving values that bound them all, avg is their arithmetic mean, and min and max are non-zero |
| HealthStats.ZeroStatsWithoutSurvivors | src/components/HealthStats.tsx:134-136 | the stats are `{0, 0, 0}` exactly when no in-range entry has a surviving value |
| HealthStats.IgnoredEntryKeepsStats | src/components/HealthStats.tsx:128-132 | an entry out of range, or whose value is missing, unparsable or zero, leaves the stats unchanged |
| HealthStats.SingleEntryStats | src/components/HealthStats.tsx:137-140 | a single surviving value `v` gives `{v, v, v}` |
| HealthStats.LogRates | src/components/HealthStats.tsx:106-111 | one element per log, in key order, carrying the log's own list and its completion rate |
| HealthStats.SortByRateAscending | src/components/HealthStats.tsx:112 | the sort orders by non-decreasing rate |
| HealthStats.SortByRateMultiset | src/components/HealthStats.tsx:112 | the sort is a permutation |
| HealthStats.SortByRateStable | src/components/HealthStats.tsx:112 | logs of equal rate keep their original order |
| HealthStats.SortedHealthData | src/components/HealthStats.tsx:106-112 | ascending by rate, a permutation of the per-log rates, one element per log |
| HealthStats.SortedHealthDataSpec | src/components/HealthStats.tsx:106-112 | `sortedHealthData` is an ascending, stable permutation of the per-log rates |
| HealthStats.GetUnitLabel | src/components/HealthStats.tsx:50-80 | a known log gets its unit from the table; the label is `""` exactly for unknown logs |
| Heatmap.HeatmapData | src/components/HeatmapChart.tsx:16-26 | every point has a valid date in `[now - 30 days, now]`, value 1, and a habit among the keys |
| Heatmap.PointsPerHabit | src/components/HeatmapChart.tsx:20-26 | the points of a habit are its in-window dates in order, one per entry, duplicates kept |
| Heatmap.UniqueHabits | src/components/HeatmapChart.tsx:29 | each habit listed once, and exactly the habits of the given points |
| Heatmap.UniqueHabitsSpec | src/components/HeatmapChart.tsx:29 | the habits are listed once each, are exactly the habits with an in-window date, and come in order of first point |
| Seqs.DistinctKeepsFirstOccurrenceOrder | src/components/HeatmapChart.tsx:29 | `[...new Set(xs)]` lists each element once, in order of first occurrence |

## Left out

- Rendering: the JSX, the charts, the cards and the page layout are not modelled. `src/components/HabitCard.tsx`, `src/components/HabitGrid.tsx` and the quote components are not part of this model.
- File upload and the sample-data generator are browser I/O. The model takes the CSV text as a string. Of the sample data, only the quoted-comma line is captured, by `CsvParser.QuotedCommaCutsHabit`.
- The clock: "now" is one parameter. The source calls `new Date()` afresh at each use, and those readings can differ by a few milliseconds.
- Time zones and daylight saving are not modelled. Everything is UTC:
  - `new Date("YYYY-MM-DD")` reads UTC midnight, but `parseISO` reads local midnight.
  - `setHours` and `setDate` work in local time.
  - `subDays` can cross a daylight-saving change.
- Dates.ParseDate accepts only `YYYY-MM-DD`. `new Date(s)` and `parseISO(s)` accept more forms, such as times and offsets; those read as Invalid Date here.
- Strings are sequences of Unicode scalar values. JavaScript strings are indexed by UTF-16 code units and may hold lone surrogates; neither is modelled.
- Dates.ParseDate gives an Invalid Date for a date that does not exist, such as 2023-02-29, as `parseISO` does. `new Date(s)`, used by the completion-rates view, is implementation-specific there: V8 may roll such a date over to 1 March. The model reads both views' dates as `parseISO` does.
- Numbers.ParseFloat does not read exponents, `Infinity`, or the other forms `parseFloat` accepts beyond `[+-]digits[.digits]`.
- Floating point: values, sums and averages are exact reals, and `toFixed` formatting is left out. The percentage is computed exactly: `RoundHalfUp` rounds `100 * count / days` without the float error of `count / days * 100`.
- Streaks.CalculateCurrentStreak takes timestamps, not date strings:
  - `new Date(date)` is assumed to have produced a valid time for every entry.
  - An Invalid Date (`NaN`) in the source's sort comparator is not modelled.
  - The source mutates each `Date` with `setHours` inside the loop. The model compares calendar days directly.
- The `startDate` props of the streak view and the heatmap are unused in the source. The model's functions have no such parameter.
- Dictionary keys that name `Object.prototype` members are not modelled:
  - For keys such as `"constructor"`, `"toString"`, `"valueOf"` or `"__proto__"`, `habits[key]` is an inherited object, so `!habits[key]` is false. The following `.push` is then not a function and throws a `TypeError`, and the whole parse fails. The model leaves out this error path and groups such keys like any other.
  - `unitMapping["constructor"]` is truthy, so `getUnitLabel` returns a function rather than `""`.
- Integer-like keys are not reordered. `Object.entries` lists such keys (e.g. `"1"`) first, in numeric order. The model keeps insertion order for all keys.
- `Math.min(...values)` argument-count limits are not modelled.
- `eachDayOfInterval` with a start after now is excluded by the precondition `start <= now` of `CompletionRates.DaysInRange`, `CompletionRates.CompletionRate` and `HealthStats.HealthCompletionRate`. The page always passes now minus 7, 14 or 30 days.
- The completion-rates view's per-habit loop is not modelled as a function. `CompletionRates.CompletionRate` takes one habit's date list and nothing else, so each habit's rate depends only on its own dates. The same loop in the health view is `HealthStats.LogRates`.
- The `referenceValues` table of the health view only draws a chart line and is not modelled.
- CompletionRates.RateAbove100 is stated for ranges of at most 200 days. Beyond that, one extra entry can round back to 100.
