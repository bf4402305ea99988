# Request-log aggregation of the statement journey (open_extrato)

This project models the aggregation core of `open_extrato.py`, an SRE analysis
script over a request log of the "extrato" (account statement) journey. Every
row of the log is one request with a timestamp, a status (`"sucesso"` for a
success, any other value for an error) and a latency in milliseconds. From the
log the script computes:

- the global figures: total requests, successes, errors, availability and error
  rate in percent, and mean latency;
- the consumption of an error budget of 300 errors;
- a table grouped by calendar day: availability, mean latency and request count
  per day;
- an "SLO met" flag per day, set when the day's availability reaches 90%;
- the number of errors per hour of day;
- the 95th-percentile latency per day, merged into the day table; the global
  p95; and the day with the highest p95.

The model is pure and functional, like the pandas expressions it follows. A
log is a `seq<Row>`. Each `Row` holds a day (an ordinal day number), an hour
(0..23), a status string and an integer latency. Percentages, means and
quantiles are exact `real`s. The pandas boolean-mask idiom is kept as it is:
`Matches`/`Differs` build the mask, `Trues` is its `.sum()`, and `Select` is
`df[mask]`. A group-by iterates over `Distinct`, the ascending list of
distinct keys.

Modules:

- `SeqMath` holds masks, counts, extremes, the mean, distinct keys and sorting.
- `Requests` holds the row, the global figures, the error budget and the error
  rows.
- `Percentile` holds the linear-interpolation quantile and the p95.
- `Daily` holds the day table, the SLO flags, the per-day and global p95, the
  left join and the peak day.
- `Hourly` holds the errors-per-hour histogram.
- `Scenarios` holds small logs with exact results.

## Model

| member | source | states |
|---|---|---|
| SeqMath.Trues | open_extrato.py:32-36 | the sum of a boolean mask is at most its length, and positive exactly when some entry is true |
| SeqMath.ComplementaryMasks | open_extrato.py:32-36 | two masks that differ at every position count every position exactly once |
| SeqMath.Count | open_extrato.py:48 | occurrences of a key: at most the length, and positive exactly when the key occurs |
| SeqMath.Mean | open_extrato.py:45 | the arithmetic mean of a non-empty column lies between its minimum and its maximum |
| SeqMath.Distinct | open_extrato.py:48-50 | the group-by keys are strictly increasing and are exactly the values of the column |
| SeqMath.CountAllCovers | open_extrato.py:48-58 | summing the group sizes over all distinct keys gives the number of rows |
| SeqMath.DistinctConstant | open_extrato.py:48-50 | a column holding one value has that value as its only key |
| SeqMath.Sort | open_extrato.py:206 | the order statistics are sorted and a permutation of the values |
| SeqMath.SortedUnique | open_extrato.py:206 | two sorted arrangements of the same multiset are equal, so the order statistics are unique |
| Requests.Select | open_extrato.py:156 | `df[mask]` keeps as many rows as the mask has trues |
| Requests.SelectKeeps | open_extrato.py:156 | `df[mask]` keeps exactly the rows whose mask entry is true: every kept row sits at a true position, and every row at a true position is kept |
| Requests.SelectAppend | open_extrato.py:156 | filtering a concatenation filters each part |
| Requests.Successes | open_extrato.py:32 | the success count is at most the number of rows |
| Requests.Errors | open_extrato.py:36 | the error count is at most the number of rows |
| Requests.SuccessesAndErrorsPartition | open_extrato.py:32-36 | successes plus errors equal the total number of requests |
| Requests.Percent | open_extrato.py:39-42 | `part / whole * 100` lies in [0, 100]; times `whole` it is 100 * `part`; it is 100 exactly when part = whole and 0 exactly when part = 0 |
| Requests.Availability | open_extrato.py:39 | availability lies in [0, 100] and is 100 * successes / total; it is 100 exactly when every request succeeded and 0 exactly when none did |
| Requests.ErrorRate | open_extrato.py:42 | the error rate lies in [0, 100] and is 100 * errors / total; it is 0 exactly when nothing failed |
| Requests.PercentsOfPartition | open_extrato.py:39-42 | the percentages of two parts that make up a non-empty whole add up to exactly 100 |
| Requests.AvailabilityPlusErrorRate | open_extrato.py:39-42 | availability and error rate add up to exactly 100 |
| Requests.MeanLatency | open_extrato.py:45 | the mean latency lies between the smallest and the largest latency |
| Requests.BudgetConsumed | open_extrato.py:66-69 | consumption times the 300-error budget is 100 times the errors; it is non-negative, at most 100% exactly when errors do not exceed the 300-error budget, and 0 exactly when there are no errors |
| Requests.ErrorRows | open_extrato.py:156 | the error rows are as many as the errors, and they are exactly the log's rows whose status is not "sucesso" |
| Requests.ErrorRowsAppend | open_extrato.py:156 | the error rows of a concatenated log are the error rows of each part, in order |
| Requests.ErrorRowsSkipSuccess | open_extrato.py:156 | inserting a successful request anywhere leaves the error rows unchanged |
| Requests.PercentAtLeastNinety | open_extrato.py:189-190 | a percentage reaches 90 exactly when 10 * part >= 9 * whole |
| Percentile.Quantile | open_extrato.py:206 | a quantile lies between the minimum and the maximum and is the value itself for a single value |
| Percentile.QuantileOfSorted | open_extrato.py:206 | interpolating at position (n - 1) * q, with the upper neighbour clipped to the last index, stays between the first and the last order statistic |
| Percentile.Position | open_extrato.py:206 | the position (n - 1) * q lies in [0, n - 1], so its floor is a valid index |
| Percentile.P95 | open_extrato.py:206 | the 95th percentile lies between the minimum and the maximum and is the value itself for a single value |
| Percentile.QuantileIgnoresOrder | open_extrato.py:206 | a quantile depends only on the multiset of values, not on their order |
| Percentile.P95OfTenSteps | open_extrato.py:206 | the p95 of 10, 20, ..., 100 is 95.5, interpolated between the 9th and the 10th order statistic |
| Daily.DayRows | open_extrato.py:50-55 | a day's group holds as many rows as the day occurs in the log, and exactly the log's rows of that day |
| Daily.DayRowsAppend | open_extrato.py:50-55 | grouping a concatenated log takes each part's rows of the day, in log order, each as often as it occurs |
| Daily.DayRowsOfOne | open_extrato.py:50-55 | a one-row log groups its row into the row's own day and nothing into any other day; with DayRowsAppend this fixes the group's order and multiplicity |
| Daily.DayLatencies | open_extrato.py:206 | a day present in the log has at least one latency |
| Daily.SummaryOf | open_extrato.py:50-58 | a day's line carries that day, at least one request and exactly that day's count, the percentage of that day's successes (in [0, 100]), and the mean of that day's latencies (between their minimum and maximum) |
| Daily.SummarizeDays | open_extrato.py:50-55 | one line per listed day, in the order listed, each summarising its day |
| Daily.DailySummary | open_extrato.py:50-58 | the day table's days are strictly increasing and are exactly the days of the log, and every line summarises its own day |
| Daily.SummarizedRequests | open_extrato.py:48-58 | the request column over the listed days totals those days' occurrences |
| Daily.DailyRequestsAddUp | open_extrato.py:48-58 | the per-day request counts add up to the number of rows |
| Daily.SloMet | open_extrato.py:189-190 | one flag per line, set exactly when the line's availability is at least 90 |
| Daily.SloMetMeansFewErrors | open_extrato.py:189-190 | a day meets its SLO exactly when at most one of every ten of its requests failed |
| Daily.DayP95Of | open_extrato.py:206 | a day's p95 lies between that day's minimum and maximum latency, and is the single latency of a one-request day |
| Daily.GlobalP95 | open_extrato.py:209 | the global p95 lies between the smallest and the largest latency, and is the single latency of a one-request log |
| Daily.P95sOver | open_extrato.py:228-233 | one p95 line per listed day, in the order listed |
| Daily.P95ByDay | open_extrato.py:228-233 | the p95 table lists exactly the days of the log, strictly increasing, each with that day's p95 |
| Daily.P95ByDayFollowsTable | open_extrato.py:228-233 | the p95 table lists the same days in the same order as the day table |
| Daily.LookupP95 | open_extrato.py:207 | the right side of the join finds nothing exactly when no p95 line has the day, and otherwise returns the p95 of a line with that day |
| Daily.MergeP95 | open_extrato.py:207 | the left join keeps every line of the day table, in order and unchanged, and adds the p95 found for its day |
| Daily.LookupFindsOwnLine | open_extrato.py:207 | when the p95 table's days are strictly increasing, looking up a line's day finds that line's p95, so the first match is the only match |
| Daily.MergedReportComplete | open_extrato.py:206-207 | on the log's own tables the join leaves no p95 missing: each line gets its own day's p95 |
| Daily.IndexOfMax | open_extrato.py:236 | `idxmax` returns a valid position whose p95 is at least every other and strictly above every earlier one |
| Daily.PeakP95Day | open_extrato.py:236-237 | the peak (`IsPeak`) is a day of the log, carries its own p95, is at least the p95 of every day, and is strictly above the p95 of every earlier day |
| Daily.PeakDominates | open_extrato.py:236-237 | any line of the p95 table that is at least every line and above every earlier line is the peak in that sense |
| Daily.OneDayIsWholeLog | open_extrato.py:29-58 | a one-day log groups into a single line that holds the global availability, mean latency and count, and its p95 is the global p95 |
| Hourly.ErrorsAt | open_extrato.py:155-156 | the failures of an hour are at most the rows, and positive exactly when some row of that hour failed |
| Hourly.CountHoursOfSelect | open_extrato.py:156 | counting an hour among the kept rows counts the rows that are kept and belong to that hour |
| Hourly.ErrorsAtThroughErrorRows | open_extrato.py:155-156 | grouping the error rows by hour counts exactly the failures of each hour |
| Hourly.BarsFor | open_extrato.py:156 | one bar per listed hour, in the order listed, counting that hour among the error rows |
| Hourly.ErrorsPerHour | open_extrato.py:155-156 | the hours are strictly increasing, within 0..23, and are exactly the hours with a failure; each bar is at least 1 and equals that hour's failures |
| Hourly.HourKeys | open_extrato.py:155-156 | the hours of the error rows are exactly the hours with failures, all within 0..23 |
| Hourly.BarsAddUp | open_extrato.py:156 | the bars over the listed hours total those hours' occurrences among the error rows |
| Hourly.ErrorsPerHourAddUp | open_extrato.py:155-156 | the histogram's bars add up to the number of errors |
| Hourly.ErrorsPerHourIgnoresSuccesses | open_extrato.py:156 | inserting a successful request anywhere leaves the histogram unchanged |
| Scenarios.ThreeRequestsOneDay | open_extrato.py:50-58 | three requests on one day with one failure give availability 200/3 % and mean latency 610/3 ms for 3 requests |
| Scenarios.ThreeRequestsErrorHour | open_extrato.py:155-156 | the one failure of that log gives a single bar, one error in hour 9 |

## Left out

- Reading the CSV, the `head`/`info`/`columns` inspection and all printing and formatting (lines 9-27 and 72-81) are left out. They are I/O and text rendering.
- Parsing timestamps is left out. A row already carries its day as an ordinal number and its hour of day; the `pd.to_datetime` and `.dt` calls (lines 23, 26, 155) are represented only by these fields.
- All plots (seaborn/matplotlib) are left out. They only display values the model computes.
- `np.polyfit` trend lines, correlations and the correlation heatmaps (lines 84-86, 133, 163-169, 212-214 and 243-255) are left out. They are floating-point statistics outside the aggregation core.
- The per-status `value_counts` (line 63) is left out. It only feeds a printout and a bar chart.
- The mean of requests per day (line 89) is left out. It only labels a chart.
- The hard-coded 29-day request series (lines 93-95) and the hard-coded consumption figure 166 (line 172) are left out. Neither is derived from the log.
- Empty input: the script fails on an empty log, because `np.polyfit` (line 85) and `idxmax` (line 236) raise on empty input, and before that pandas yields NaN for the global percentages, the mean and the quantiles. Instead of an error path, the model makes a non-empty log a precondition of `Requests.Availability`, `Requests.ErrorRate`, `Requests.MeanLatency`, `Daily.GlobalP95` and `Daily.PeakP95Day`. The per-day functions need no such precondition, because a group is never empty.
- Requests.Percent: floating-point rounding is not modelled. Percentages, means and interpolated quantiles are exact reals, so a 64-bit float result can differ from the model in its last bits.
- Percentile.P95: the level is the exact rational 0.95. The binary double nearest 0.95 is not modelled.
- Daily.SummaryOf: the request column is the group size. The source counts non-null timestamps (`"count"`, line 54), which equals the size because every modelled row has a parsed timestamp.
- Daily.MergeP95: a day missing from the p95 table becomes `None`, standing for pandas' NaN. The join takes the first p95 line of a day, where pandas repeats the day's line once per match; the two differ only when the p95 table lists a day twice, which `P95ByDay` never does (`LookupFindsOwnLine`). The final `drop(columns=['dia'])` (line 207) and the `astype(float)` casts (lines 260-262) do not change any value the model holds.
- Writing the day table to `analise_pronta.csv` with `;` separators, decimal commas and `%.2f` rounding (lines 265-273) is left out. It is file I/O.
- Latencies are whole numbers that every row holds. The CSV may hold fractional or missing latencies, and pandas' `mean` and `quantile` skip NaN; neither is modelled.
