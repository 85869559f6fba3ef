# Air-quality dashboard analytics, modelled in Dafny

The dashboard loads a table of hourly PM2.5 observations from monitoring
stations. The user picks a date range and a set of stations in the sidebar,
and the page shows figures computed from the filtered table:

- the mean, maximum and minimum PM2.5;
- a monthly trend (resample rule `'M'`, mean aggregate);
- a ranking of the stations by their mean PM2.5;
- the distribution of the rows over six air-quality bands.

This project models that analytics pipeline as pure Dafny functions and
proves what each step promises. The source builds every figure from
expressions and library aggregations, with no loops and no mutable state, so
the model consists of datatypes, functions and lemmas only.

Modules, one per step of the pipeline:

- `Wrappers`: `Option`. An absent cell (NaN in pandas) is `None`.
- `Observations`: a row, the sidebar criteria and the boolean mask (`Filter`).
  Timestamps count hours from 1970-01-01 00:00, so day `d` starts at hour
  `24 * d`.
- `Stats`: the three headline metrics over the present readings.
- `Calendar`: proleptic Gregorian month arithmetic on day and month indices.
  Month 0 is January 1970. `MonthStart` adds up month lengths, `MonthOf`
  finds the month of a day, and `MonthEnd` is the last day of a month, which
  is the label a month-end resample gives it.
- `Trend`: the month-end resample. It has one bin for every month from the
  first month of the filtered table to the last, and each bin carries the
  mean of its month's present readings.
- `Ranking`: group by station, take each group's mean, and sort descending
  with absent means last (insertion sort, proved sorted and a permutation).
- `Categories`: `categorize_pm25`, the value counts of the band column and
  `existing_order`.
- `Dashboard`: the whole report computed from one filtered table, plus a
  worked example.

Behaviour followed as the code has it, where a natural reading of the
dashboard suggests otherwise:

- The end bound of the range is compared against midnight of the end day
  (`pd.to_datetime(end_date)`), so the later hours of the end day are
  excluded (`EndDayCutoff`).
- A start day after the end day is not rejected. The mask simply keeps
  nothing (`FilterEmptyRange`).
- Rule `'M'` labels each bin by the last day of its month, not the first. It
  also produces bins for months without rows in between, with an absent
  mean (`TrendMonths`, `TrendLabels`, `TrendMean`).
- `categorize_pm25` is applied to every row. A NaN reading fails every `<=`
  test, becomes Hazardous, and is counted (`AbsentCountedHazardous`,
  `CountsSum`).
- The ranking does not fix an order among equal means, because pandas'
  default sort is not stable. Stations whose mean is NaN go last
  (`Precedes`).
- A reading of 80 exceeds the Moderate bound of 75, so it counts as
  Unhealthy for Sensitive Groups (`ExampleStationA`).

## Model

| member | source | states |
|---|---|---|
| Observations.Filter | dashboard/dashboard.py:41-45 | the filtered table is never longer than the table |
| Observations.FilterSound | dashboard/dashboard.py:41-45 | every row of the filtered table is a row of the table that passes the mask |
| Observations.FilterComplete | dashboard/dashboard.py:41-45 | every row that passes the mask is in the filtered table |
| Observations.FilterPositions | dashboard/dashboard.py:41-45 | the filtered table is exactly the subsequence of rows passing the mask: there are strictly increasing positions holding exactly the passing rows, and the k-th filtered row is the row at the k-th position |
| Observations.FilterConcat | dashboard/dashboard.py:41-45 | filtering distributes over concatenation, so rows are never reordered or merged |
| Observations.FilterIdempotent | dashboard/dashboard.py:41-45 | filtering the filtered table again changes nothing |
| Observations.FilterNoStations | dashboard/dashboard.py:44 | with no station picked the result is empty, whatever the dates |
| Observations.FilterEmptyRange | dashboard/dashboard.py:42-43 | a start after the end gives an empty result, not an error |
| Observations.EndDayCutoff | dashboard/dashboard.py:43 | of the hours of the end day, only its midnight passes the mask |
| Stats.PresentValuesMembers | dashboard/dashboard.py:54 | a value is a present reading exactly when some row carries it |
| Stats.PresentValuesEmpty | dashboard/dashboard.py:54 | no reading is present exactly when every row's reading is absent |
| Stats.PresentValuesConcat | dashboard/dashboard.py:54 | the present readings of a concatenation are the concatenation of the present readings |
| Stats.Mean | dashboard/dashboard.py:54 | the mean is absent exactly when there is no value |
| Stats.Max | dashboard/dashboard.py:57 | the maximum is one of the values and no value exceeds it |
| Stats.Min | dashboard/dashboard.py:60 | the minimum is one of the values and no value is below it |
| Stats.SumBetween | dashboard/dashboard.py:54 | a sum of n values between lo and hi lies between n * lo and n * hi |
| Stats.MeanBounds | dashboard/dashboard.py:54 | the mean of values between lo and hi lies between lo and hi |
| Stats.MeanBetween | dashboard/dashboard.py:54-60 | min <= mean <= max for a non-empty list |
| Stats.SummaryOf | dashboard/dashboard.py:54-60 | the three metrics are all absent or all present; max and min are attained and bound the values; min <= mean <= max |
| Stats.Summarize | dashboard/dashboard.py:54-60 | on the filtered table: the metrics are absent exactly when every reading is absent; max and min are readings of some row and bound every present reading; min <= mean <= max; the mean is the mean of the present readings only |
| Stats.AbsentReadingIgnored | dashboard/dashboard.py:54-60 | inserting a row without a reading anywhere changes none of the three metrics |
| Calendar.MonthOfYear | dashboard/dashboard.py:70 | the month of the year lies in 1..12 |
| Calendar.DaysInMonth | dashboard/dashboard.py:70 | a month has 28 to 31 days, and 29 exactly for February of a leap year |
| Calendar.MonthStep | dashboard/dashboard.py:70 | month m + 1 starts DaysInMonth(m) days after month m |
| Calendar.MonthStartIncreasing | dashboard/dashboard.py:70 | later months start later |
| Calendar.MonthAtOrAfterFinds | dashboard/dashboard.py:70 | the upward search returns the month whose days include d |
| Calendar.MonthAtOrBeforeFinds | dashboard/dashboard.py:70 | the downward search returns the month whose days include d |
| Calendar.MonthsDisjoint | dashboard/dashboard.py:70 | no day lies in two months |
| Calendar.MonthOfBounds | dashboard/dashboard.py:70 | day d lies between the first day of its month and the first day of the next |
| Calendar.MonthOfUnique | dashboard/dashboard.py:70 | a day lies in exactly one month |
| Calendar.MonthOfMonotone | dashboard/dashboard.py:70 | later days never fall in earlier months |
| Calendar.MonthEndIsLastDay | dashboard/dashboard.py:70 | the month-end label lies in its month, is its DaysInMonth-th day, and the next day starts the next month |
| Calendar.MonthEndIncreasing | dashboard/dashboard.py:70 | month-end labels strictly increase with the month |
| Trend.FirstMonth | dashboard/dashboard.py:70-72 | no row lies in a month before the first month |
| Trend.LastMonth | dashboard/dashboard.py:70-72 | no row lies in a month after the last month |
| Trend.FirstMonthAttained | dashboard/dashboard.py:70-72 | some row lies in the first month |
| Trend.LastMonthAttained | dashboard/dashboard.py:70-72 | some row lies in the last month |
| Trend.MonthMeanAbsent | dashboard/dashboard.py:70-72 | a month's mean is absent exactly when no row of that month has a reading |
| Trend.RowsInMonthSound | dashboard/dashboard.py:70-72 | the rows of a month are rows of the table lying in that month |
| Trend.RowsInMonthComplete | dashboard/dashboard.py:70-72 | every row lying in a month is among the rows of that month |
| Trend.MonthTotalsOfRows | dashboard/dashboard.py:70-72 | a month's running totals are the sum and the number of the present readings of that month's rows |
| Trend.MonthMeanIsHeadlineMean | dashboard/dashboard.py:70-72 | a month's value equals the headline mean over that month's rows alone |
| Trend.Bins | dashboard/dashboard.py:70-72 | bin k is for month from + k and carries that month's mean |
| Trend.MonthlyTrend | dashboard/dashboard.py:70-72 | the trend is empty exactly when the table is, and otherwise has one bin per month from the first to the last |
| Trend.TrendMonths | dashboard/dashboard.py:70-72 | the bins run through consecutive months with no gaps, from the first month of the table to the last |
| Trend.TrendLabels | dashboard/dashboard.py:70-72 | each bin is labelled by the last day of its month |
| Trend.TrendAscending | dashboard/dashboard.py:70-72 | the labels strictly increase |
| Trend.TrendCoversRows | dashboard/dashboard.py:70-72 | every row lies in exactly one bin, whose label is on or after the row's day |
| Trend.TrendEndsOccupied | dashboard/dashboard.py:70-72 | the first and the last bin each hold a row |
| Trend.TrendMean | dashboard/dashboard.py:70-72 | each bin's value is the headline mean of its month's rows, and it is absent exactly when no row of the month has a reading |
| Ranking.StationsMembers | dashboard/dashboard.py:85 | a station is grouped exactly when some row belongs to it |
| Ranking.StationsDistinct | dashboard/dashboard.py:85 | no station forms two groups |
| Ranking.StationRowsReadings | dashboard/dashboard.py:85 | a station's group has no reading exactly when none of the station's rows has one |
| Ranking.StationMeanAbsent | dashboard/dashboard.py:85 | a station's mean is absent exactly when none of its rows has a reading |
| Ranking.AveragesStations | dashboard/dashboard.py:85 | grouped line k is for station k |
| Ranking.AveragesMeans | dashboard/dashboard.py:85 | every grouped line carries its station's mean |
| Ranking.InsertPermutes | dashboard/dashboard.py:85 | insertion adds the new line and loses none |
| Ranking.InsertDescending | dashboard/dashboard.py:85 | insertion into a descending list keeps it descending |
| Ranking.SortCorrect | dashboard/dashboard.py:85 | the sort returns a descending permutation of its input |
| Ranking.DistinctPermutation | dashboard/dashboard.py:85 | a permutation of a list without repeats has no repeats |
| Ranking.RankingDescending | dashboard/dashboard.py:85 | the means along the ranking never increase, and absent means come last |
| Ranking.RankingMeans | dashboard/dashboard.py:85 | every line carries the mean of its station's present readings |
| Ranking.RankedStationsSound | dashboard/dashboard.py:85 | every ranked station has rows in the table |
| Ranking.RankedStationsComplete | dashboard/dashboard.py:85 | every station with rows in the table is ranked |
| Ranking.RankingStations | dashboard/dashboard.py:85 | the ranked stations are exactly the stations of the table |
| Ranking.RankingDistinct | dashboard/dashboard.py:85 | each station appears once in the ranking |
| Categories.Rank | dashboard/dashboard.py:129 | a band's rank is its position in the canonical order |
| Categories.CategorizeBands | dashboard/dashboard.py:117-123 | each band is the reading interval with an exclusive lower and an inclusive upper bound at 35, 75, 115, 150 and 250 (both directions) |
| Categories.CategorizeByThresholds | dashboard/dashboard.py:117-123 | a present reading's band is at the position given by the number of thresholds the reading exceeds |
| Categories.ExceededMonotone | dashboard/dashboard.py:117-123 | a larger reading exceeds at least as many thresholds |
| Categories.CategorizeMonotone | dashboard/dashboard.py:117-123 | a higher reading never gets a cleaner band |
| Categories.AbsentLast | dashboard/dashboard.py:123 | an absent reading gets the last band, Hazardous |
| Categories.CountPositive | dashboard/dashboard.py:125-126 | a band that some row falls in has a positive count |
| Categories.TallyCounts | dashboard/dashboard.py:125-126 | the value counts list exactly the bands some row falls in, each with its number of rows |
| Categories.TallyPositive | dashboard/dashboard.py:126 | every reported count is positive |
| Categories.AbsentCountedHazardous | dashboard/dashboard.py:123-126 | a row without a reading is counted, as Hazardous |
| Categories.KeepMembers | dashboard/dashboard.py:131 | the comprehension keeps exactly the bands that have a count |
| Categories.KeepIncreasing | dashboard/dashboard.py:131 | the comprehension keeps the bands in canonical order |
| Categories.ExistingOrderSubsequence | dashboard/dashboard.py:129-131 | `existing_order` is a subsequence of `order` holding exactly the bands with a count |
| Categories.TotalKeep | dashboard/dashboard.py:131 | dropping the bands without a count leaves the total unchanged |
| Categories.TotalOfTally | dashboard/dashboard.py:125-126 | totalling the value counts over some bands adds up those bands' rows |
| Categories.CountAllStep | dashboard/dashboard.py:125-126 | removing a row takes one from the band it falls in and changes the others by nothing |
| Categories.CountOrder | dashboard/dashboard.py:117-126 | every row falls in exactly one of the six bands |
| Categories.CountsSum | dashboard/dashboard.py:125-131 | the counts shown in the bars add up to the number of filtered rows |
| Dashboard.ReportWithoutStations | dashboard/dashboard.py:41-131 | with no station picked every figure is empty |
| Dashboard.ReportConsistent | dashboard/dashboard.py:41-131 | the bars add up to the filtered rows, and the ranked stations are exactly the stations of the filtered rows, all of them picked |
| Dashboard.ExampleStationA | dashboard/dashboard.py:41-131 | a worked example: filter, metrics 55/80/30, two month bins and the band counts |
| Dashboard.ExampleRanking | dashboard/dashboard.py:85 | a worked example: a station with mean 200 ranks above one with mean 55 |

## Left out

- Loading the CSV and parsing timestamps (dashboard/dashboard.py:10-18): file I/O done by pandas. The model starts from a table of rows whose timestamps are already hour indices.
- `@st.cache_data` memoisation (dashboard/dashboard.py:10): framework caching with no effect on the values.
- The sidebar widgets, the date picker's bounds and defaults, and the station options (dashboard/dashboard.py:21-38): user interface. The picked dates and stations are the parameters of `Criteria`.
- All plotting and page rendering (dashboard/dashboard.py:7, 48-49, 74-79, 87-92, 97-112, 133-140): foreign library calls with no result to state.
- The `.2f` display formatting of the metrics (dashboard/dashboard.py:55, 58, 61): float-to-string rounding.
- IEEE floating point: readings are `real`, the NaN cell is `None`, and arithmetic is exact, so rounding in sums and means is not modelled.
- Rain and temperature only feed the scatter plots. They are carried in `Row` and left untouched.
- `value_counts` also sorts its index by frequency. That order is not modelled, because the bar chart is drawn in `existing_order`; the counts are a map.
- Ranking.StationRanking: the order among stations with equal means is not fixed. The model's insertion sort places tied lines in one particular order, and the lemmas state only what holds for every tie order.
- Timestamps before 1970 are handled (indices may be negative), but no time zone or daylight-saving logic is modelled. pandas works on naive timestamps here.
