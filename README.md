# Market seasonality explorer — verified model

This project models the logic core of a market-data dashboard that shows a
crypto symbol's daily, weekly and monthly candles as a calendar. The core
covers these parts:

- a custom week calendar: week 1 starts on 1 January, and the last few days
  of a year fold into week 53;
- the "last completed week" rule;
- the technical indicators SMA, RSI, EMA, MACD, Bollinger bands and standard
  deviation;
- average and median summaries per calendar period;
- the live order-book replica that applies exchange depth diffs;
- the aggregator that rolls daily rows up into weeks or months, and the live
  kline patch-in;
- the kline-to-metrics transform and the backward pagination over the
  exchange's kline endpoint;
- the background pattern detector: seasonal, trend and anomaly patterns;
- the calendar's custom date-range filter and its two-slot period comparison;
- threshold alerts with a five-minute throttle;
- the CSV export.

The model is written in Dafny, one module per source file:

| module | file | source |
|---|---|---|
| `Common` | common.dfy | shared helpers: `Option`, division, sums, means, variance, a stable sort, filtering |
| `Calendar` | calendar.dfy | week numbering and date keys (`src/utils/helper.ts`) |
| `Metrics` | metrics.dfy | `FinancialMetrics`, period lookup, summaries, years and calendar pages (`src/utils/helper.ts`) |
| `Indicators` | indicators.dfy | SMA, RSI, standard deviation, Bollinger, EMA, MACD, depth bars, volume circles (`src/utils/helper.ts`) |
| `OrderBook` | orderbook.dfy | `applyDepthUpdate` and the snapshot lifecycle (`src/hooks/useLiveData.ts`) |
| `Aggregation` | aggregation.dfy | `getAggregatedData` and the kline patch-in (`src/hooks/useCalendarData.ts`) |
| `MarketApi` | marketapi.dfy | the metrics transform and the pagination loop (`src/services/api.ts`) |
| `Patterns` | patterns.dfy | the pattern worker (`src/workers/patternWorker.ts`) |
| `CalendarView` | calendarview.dfy | range filter, comparison state, maxima, data range (`FinancialCalendar.tsx`) |
| `Alerts` | alerts.dfy | alert evaluation, throttle and list operations (`AlertSystem.tsx`) |
| `Export` | export.dfy | `generateCSV` (`src/utils/export.ts`) |

## Modelling conventions

- JavaScript numbers are `real`. A division by zero yields Infinity or NaN
  in JavaScript. Here it goes through `Common.Div`, which returns 0 for a
  zero divisor, and contracts speak about the non-zero case.
- `parseFloat`, number-to-text formatting and `Math.sqrt` are function
  parameters (`parse`, `show`, `sqrt`). The square root is constrained by
  `Indicators.IsSqrt`: it returns a non-negative root of any non-negative
  argument.
- Dates are `(year, month, day)` values. The source's date strings are the
  datatype `Calendar.DateKey`:
  - `DayKey` for `YYYY-MM-DD`;
  - `WeekKey` for `YYYY-Www`;
  - `MonthKey` for `YYYY-MM`;
  - `InvalidKey` for the `NaN-WNaN` / `NaN-NaN` keys. These arise when rows
    that already carry week keys are grouped again, because JavaScript cannot
    parse a week key as a date.

  `Calendar.KeyText` renders a key as text.
- JavaScript's `Array.prototype.sort` is stable. It is modelled by the
  insertion sort `Common.SortBy` on a real-valued key, proved sorted and a
  permutation.
- State the source keeps in React state or refs is modelled as a class:
  - the order-book snapshot is `OrderBook.DepthReplica`;
  - the comparison state is `CalendarView.CalendarState`;
  - the alert list is `Alerts.AlertBook`.

  The methods on these classes change `seq` fields, and their contracts are
  stated against pure functions.
- Clocks (`Date.now()`), the exchange (`fetch`) and the browser are
  parameters. `MarketApi.PageSource` is the kline endpoint, taken as a
  function from a request to the page it returns.

## Model

| member | source | states |
|---|---|---|
| Calendar.DayOfYear | src/utils/helper.ts:6-31 | the day of the year of a valid date lies in 1..days-in-year |
| Calendar.WeekNumberIsCeiling | src/utils/helper.ts:6-31 | `Calendar.WeekNumber` models getWeekNumber; for day-of-year d the week is the w in 1..53 with 7(w−1) < d ≤ 7w, i.e. ceil(d/7); days 365 and 366 fall in week 53 |
| Calendar.WeeksInYearIsLastWeek | src/utils/helper.ts:33-47 | every year has 53 weeks; that is the week of the year's last day and no day has a higher week |
| Calendar.LastCompletedWeek | src/utils/helper.ts:49-63 | in week 1 it is (year−1, weeks of year−1), otherwise (year, week−1); the week is always ≥ 1 |
| Calendar.LastCompletedWeekIsWeekBefore | src/utils/helper.ts:49-63 | after the first seven days, the last completed week is the week that held the date seven days earlier |
| Calendar.DateOfEpochDay | src/services/api.ts:310 | every day count since 1970-01-01 is the epoch day of exactly the valid date returned |
| Calendar.DateOfMs | src/services/api.ts:310 | a millisecond timestamp falls within the UTC day of the date returned |
| Calendar.PadStart | src/services/api.ts:318 | `padStart` keeps the text as a suffix, pads with '0' to the width and never shortens |
| Calendar.KeyTextChars | src/services/api.ts:318-325 | `Calendar.KeyText` renders a key as `YYYY-MM-DD`, `YYYY-Www`, `YYYY-MM` or `NaN-…`; the text uses only digits and the characters '-', '+', 'W', 'N' and 'a' |
| Metrics.ParsedDate | src/utils/helper.ts:142-150 | a key that parses as a date parses to a valid date |
| Metrics.DataForPeriod | src/utils/helper.ts:135-176 | no result exactly when no entry matches the year and period; otherwise the result is the first matching entry |
| Metrics.WeeklyLookupByKey | src/utils/helper.ts:160-165 | a weekly lookup finds exactly an entry whose key is `YYYY-Www` for that year and week |
| Metrics.SummaryBounds | src/utils/helper.ts:179-212 | `Metrics.SummaryData` models getSummaryData and `Metrics.Median` its median: no values give average 0 and median 0; otherwise the median is taken from the sorted permutation of the values, and both average and median lie between their minimum and maximum |
| Metrics.MedianBetween | src/utils/helper.ts:196-200 | the median of a sorted non-empty list lies within any bounds of its elements |
| Metrics.YearsFromData | src/utils/helper.ts:600-620 | the years are strictly descending, so distinct, and are exactly the years of the entries that have one |
| Metrics.TimePeriods | src/utils/helper.ts:501-598 | the method builds `Metrics.Page`: daily, the days 1..days-in-month of the selected month, in order; weekly: W01..W53; monthly: 01..12 |
| Metrics.Page | src/utils/helper.ts:501-598 | a cell is on a page exactly when it is a day of that month (daily), a week 1..53 (weekly) or a month 1..12 (monthly) |
| Metrics.PagesCoverCalendar | src/utils/helper.ts:513-526 | a valid date's day cell is on the daily page of its month, its week cell on the weekly page and its month cell on the monthly page |
| Indicators.ClosesPrefix | src/utils/helper.ts:326 | `Indicators.Closes` is the `.map` to closes; the closes of the first k entries are the first k closes, so a window's closes are read off the whole series |
| Indicators.SmaBounds | src/utils/helper.ts:322-331 | `Indicators.Sma` models calculateSMA: an empty window gives 0; the window is the last min(period, n) entries and the SMA lies between their lowest and highest close |
| Indicators.Gains | src/utils/helper.ts:341 | the gain of each change is the larger of the change and 0 |
| Indicators.Losses | src/utils/helper.ts:342 | the loss of each change is the larger of its fall and 0 |
| Indicators.ChangesTelescope | src/utils/helper.ts:337-340 | the close-to-close changes add up to the last close minus the first |
| Indicators.GainsMinusLosses | src/utils/helper.ts:341-342 | each change is its gain minus its loss, at most one of them non-zero, so total gains minus total losses is the net change |
| Indicators.AveragesNonNegative | src/utils/helper.ts:341-345 | average gain and average loss are never negative |
| Indicators.RsiRange | src/utils/helper.ts:333-350 | `Indicators.Rsi` models calculateRSI: under 15 points gives 50; otherwise the RSI is 100 exactly when the last 14 changes hold no fall, and lies in [0, 100) when they do |
| Indicators.RsiWithoutFall | src/utils/helper.ts:347 | with no falling change in the window the RSI is 100 |
| Indicators.RsiWithFall | src/utils/helper.ts:348-349 | with a falling change in the window the RSI lies in [0, 100) |
| Indicators.LossInWindow | src/utils/helper.ts:342-345 | a falling change among the last 14 makes the average loss positive |
| Indicators.Returns | src/utils/helper.ts:360-363 | each return times its close is the change to the next close; a zero close gives return 0 here |
| Indicators.StdDevFacts | src/utils/helper.ts:353-371 | `Indicators.StdDev` models calculateStandardDeviation: it is never negative and is 0 for fewer than two points (the value itself, the root of the variance of the returns in percent, is `StdDev`'s definition and not part of this lemma) |
| Indicators.StdDevOfSteadyCloses | src/utils/helper.ts:353-371 | a window of equal closes has standard deviation 0 |
| Indicators.BollingerShape | src/utils/helper.ts:381-394 | `Indicators.Bollinger` models calculateBollingerBands: the middle band is the SMA, the bands are symmetric around it and ordered for a non-negative width, and they coincide for fewer than two points |
| Indicators.CalculateEma | src/utils/helper.ts:432-443 | the loop computes the EMA over the whole series, seeded with its first close, and 0 when the series is shorter than `period` |
| Indicators.EmaBounds | src/utils/helper.ts:432-443 | `Indicators.Ema` models calculateEMA: it is a convex combination of the series' closes, so it lies between the lowest and highest close |
| Indicators.MultiplierBounds | src/utils/helper.ts:438 | the smoothing factor 2/(period+1) lies in (0, 1] |
| Indicators.EmaOfConstant | src/utils/helper.ts:432-443 | the EMA of equal closes is that close |
| Indicators.MacdShape | src/utils/helper.ts:396-430 | `Indicators.MacdOf` models calculateMACD with the corrected signal: fewer than 26 points give all zeros; the histogram is MACD minus signal; the ninth signal sample is the current MACD |
| Indicators.MacdAsWrittenLastSampleIsZero | src/utils/helper.ts:409-419 | as written, the ninth signal sample is always 0, so the signal falls short of the intended one by MACD/9 |
| Indicators.MacdSignalDiffers | src/utils/helper.ts:409-419 | on 25 closes of 1 followed by a close of 2, the signal as written differs from the intended signal |
| Indicators.DepthPercentage | src/utils/helper.ts:317-319 | a total of 0 or less gives 0; a quantity within the total gives a share in [0, 100] |
| Indicators.DepthBarsSumTo100 | src/utils/helper.ts:311-319 | with a positive total, the depth bars of one side add up to 100 |
| Indicators.VolumeCircleRadius | src/utils/helper.ts:285-292 | a zero maximum gives radius 0; the radius never exceeds the maximum radius and reaches it at the maximum volume |
| Indicators.VolumeCircleMonotone | src/utils/helper.ts:285-292 | a larger volume never gets a smaller circle |
| OrderBook.FindLevel | src/hooks/useLiveData.ts:143 | finds the first level whose price text equals the given text, or reports that none does |
| OrderBook.Truncate | src/hooks/useLiveData.ts:171-175 | a side keeps its first 100 levels, or all of them when it has fewer |
| OrderBook.ApplyPairKeepsDistinct | src/hooks/useLiveData.ts:142-153 | applying one pair never makes a price text appear twice |
| OrderBook.ApplyPairMembership | src/hooks/useLiveData.ts:142-153 | `OrderBook.ApplyPair` applies one pair; with distinct prices, afterwards its price is present iff its quantity parses non-zero, and then with that quantity; every other level is unchanged |
| OrderBook.ApplyPairsKeepsDistinct | src/hooks/useLiveData.ts:142-166 | applying a side's pairs in order keeps price texts distinct |
| OrderBook.ApplyPairsMembership | src/hooks/useLiveData.ts:142-166 | `OrderBook.ApplyPairs` applies a side's pairs in order; afterwards a price named by the update is present iff its last quantity is non-zero, and a price the update does not name keeps its level |
| OrderBook.ApplyPairsInOrder | src/hooks/useLiveData.ts:142-153 | the loop over the pairs computes the in-order application of the pairs |
| OrderBook.SideAfterShape | src/hooks/useLiveData.ts:142-175 | `OrderBook.SideAfter` is a side after an update; it has at most 100 levels, bids non-increasing and asks non-decreasing by parsed price, distinct prices, only levels the edit produced, and all of them when there were at most 100 |
| OrderBook.SideAfterBest | src/hooks/useLiveData.ts:167-175 | the side after an update is the first min(n, 100) levels of the sorted edited side, so every dropped level is priced no better than every kept one (lower bid, higher ask) |
| OrderBook.SortTruncateShape | src/hooks/useLiveData.ts:168-175 | sorting then truncating gives a sorted, distinct subset of the edited side, all of it when it had at most 100 levels |
| OrderBook.SortTruncateBest | src/hooks/useLiveData.ts:168-175 | the truncated side is the first min(n, 100) levels of the sorted side; a level left out sorts no earlier than any level kept |
| OrderBook.DepthReplica.constructor | src/hooks/useLiveData.ts:48 | the replica starts unseeded and empty |
| OrderBook.DepthReplica.Seed | src/hooks/useLiveData.ts:63 | the REST snapshot seeds the replica with its bids, asks and update id |
| OrderBook.DepthReplica.Clear | src/hooks/useLiveData.ts:99 | a symbol change or new connection drops the snapshot |
| OrderBook.DepthReplica.ApplyDepthUpdate | src/hooks/useLiveData.ts:137-176 | unseeded: nothing changes; seeded: each side becomes its pairs applied, sorted and truncated; with distinct prices before, each side is afterwards sorted, bounded by 100 and duplicate-free; bid pairs never touch asks or the reverse |
| Aggregation.Filtered | src/hooks/useCalendarData.ts:244-263 | keeps exactly the rows not beyond the last completed week; the filter is the identity for daily and monthly data |
| Aggregation.FilteredInOrder | src/hooks/useCalendarData.ts:244-263 | the kept rows are an order-preserving subsequence of the input, at exactly the positions of the rows that pass |
| Aggregation.GroupKey | src/hooks/useCalendarData.ts:269-283 | a row goes to the week `WeekOfDate` of its parsed date (`getWeekNumber`, characterised by `Calendar.WeekNumberIsCeiling`) in that date's year, or to its parsed date's month; a row whose key does not parse goes to the invalid group |
| Aggregation.FindGroup | src/hooks/useCalendarData.ts:272-276 | finds the group with a given key, or reports that none has it |
| Aggregation.GroupedIsPartition | src/hooks/useCalendarData.ts:265-289 | the groups have distinct keys and each holds exactly the rows of its key, in input order, so the groups partition the rows |
| Aggregation.GroupEntries | src/hooks/useCalendarData.ts:265-289 | the loop that fills the map builds the same groups, in first-seen order, as the functional grouping |
| Aggregation.RollupOpenClose | src/hooks/useCalendarData.ts:294-300 | a group's open is the open of its earliest member and its close the close of its latest member |
| Aggregation.RollupExtremes | src/hooks/useCalendarData.ts:301-302 | a group's high is the highest member high and its low the lowest member low |
| Aggregation.RollupTotals | src/hooks/useCalendarData.ts:305-347 | `Aggregation.RollupOf` sorts a group by date and `Aggregation.RowOf` builds its row: the key is the group's; volume and liquidity are sums over all members; the day count is the group size; the daily averages divide the sums by it |
| Aggregation.RollupChangeAndRange | src/hooks/useCalendarData.ts:322-330 | the row's performance is (close − open)/open·100 of its own open and close, and its volatility range is the largest minus the smallest member volatility |
| Aggregation.RollupVolatility | src/hooks/useCalendarData.ts:311-320 | volatility is Σ(volatility·volume) / Σvolume |
| Aggregation.WeightedVolatilityBounds | src/hooks/useCalendarData.ts:311-320 | with non-negative volumes and a positive total, the weighted volatility lies between the lowest and highest member volatility |
| Aggregation.AtMostOneInvalid | src/hooks/useCalendarData.ts:349-363 | among distinct group keys at most one is the invalid key |
| Aggregation.OrderedShape | src/hooks/useCalendarData.ts:349-363 | the sorted rows keep every row, keep keys distinct, put the invalid row last, and order the others strictly by (year, week) or (year, month) |
| Aggregation.Rollups | src/hooks/useCalendarData.ts:292-347 | one rolled-up row per group, in group order |
| Aggregation.RollupEach | src/hooks/useCalendarData.ts:292-347 | the loop over the map's keys builds the rolled-up row of each group |
| Aggregation.GetAggregatedData | src/hooks/useCalendarData.ts:237-366 | the method computes `Aggregation.Aggregated`: unchanged for daily data, otherwise filtered, grouped, rolled up and sorted |
| Aggregation.AggregatedOrder | src/hooks/useCalendarData.ts:349-363 | the aggregated series has unique keys in strictly ascending order, with any invalid key last |
| Aggregation.AggregatedCoverage | src/hooks/useCalendarData.ts:265-347 | every aggregated row summarises exactly the kept rows of its key, and every kept row is summarised by the row of its key |
| Aggregation.KlineRow | src/hooks/useCalendarData.ts:140-157 | the patched row is keyed by the kline's UTC day, has liquidity = volume, and performance and volatility as percentages of the open |
| Aggregation.FindDate | src/hooks/useCalendarData.ts:137-139 | finds the first entry with the given date key, or reports that none has it |
| Aggregation.PatchInFacts | src/hooks/useCalendarData.ts:132-167 | `Aggregation.PatchIn` models the live kline patch: the length is kept; with no matching key nothing changes; otherwise only the first matching entry is replaced |
| Aggregation.PatchInIdempotent | src/hooks/useCalendarData.ts:132-167 | applying the same kline twice gives the same series as applying it once |
| MarketApi.IntervalKey | src/services/api.ts:308-326 | '1w' gives `YYYY-Www` with the week containing the day, '1M' gives `YYYY-MM`, anything else gives the UTC day |
| MarketApi.Transform | src/services/api.ts:287-339 | one row per kline, in order, each the per-kline mapping |
| MarketApi.MetricsFacts | src/services/api.ts:288-306 | `MarketApi.ToMetrics` maps one kline: prices and volume are the parsed fields; performance and volatility are percentages of the open; liquidity = 0.7v + 0.3v(1 − volatility/100), hence at most the volume when volume and volatility are non-negative |
| MarketApi.FetchPages | src/services/api.ts:231-274 | the loop ends holding every row received, each page put in front, so the last-fetched (oldest) page comes first; with limits ≤ 1000 and ≤ rows still needed, a chained cursor, and a stop only on enough rows, an empty page or a short page |
| MarketApi.Received | src/services/api.ts:264-267 | the rows received are each answer put in front of those before it; their number is the sum of the page sizes and the last answer comes first |
| MarketApi.ComprehensiveKlineData | src/services/api.ts:225-280 | the result is the first `targetLimit` of all rows received, each page prepended ahead of the rows before it; there is a request exactly when `targetLimit` ≥ 1; the loop stops after a short or empty page or once `targetLimit` rows are in; every limit ≤ 1000 and ≤ rows still needed; each cursor (`MarketApi.Cursor`, which drops a falsy 0) is the previous page's first open time − 1; ascending without duplicates when the source honours the cursor; exactly `targetLimit` rows in ceil(targetLimit/1000) requests when pages are always full |
| MarketApi.Prepend | src/services/api.ts:266-267 | prepending a page fetched before the cursor keeps the collected rows strictly ascending |
| MarketApi.AscendingPrefix | src/services/api.ts:276 | the final slice keeps at most `targetLimit` rows and keeps them ascending |
| MarketApi.CeilPages | src/services/api.ts:232-273 | a request count n with 1000(n−1) < target ≤ 1000n is ceil(target/1000) |
| Patterns.StrengthOf | src/workers/patternWorker.ts:112-113 | strong iff confidence > 0.7, moderate iff 0.5 < confidence ≤ 0.7, weak otherwise |
| Patterns.DirectionOf | src/workers/patternWorker.ts:159-160 | upward iff slope > 0.01, downward iff slope < −0.01, sideways otherwise |
| Patterns.MonthSlotOf | src/workers/patternWorker.ts:73 | an entry has a month slot exactly when its date parses, and the slot is the parsed date's month, in 1..12 |
| Common.VarianceNonNegative | src/workers/patternWorker.ts:47-52 | the variance is never negative |
| Common.VarianceOfConstant | src/workers/patternWorker.ts:47-52 | equal values have that value as mean and variance 0 |
| Patterns.SlopeOfLine | src/workers/patternWorker.ts:54-65 | `Patterns.Slope` is the least-squares slope of calculateLinearRegression; for at least two values a + b·i it is b |
| Patterns.SlopeOfConstant | src/workers/patternWorker.ts:54-65 | equal values have slope 0 |
| Patterns.RegressionDenominator | src/workers/patternWorker.ts:63 | for n ≥ 2 the slope's denominator n·Σi² − (Σi)² is positive |
| Patterns.GroupByMonth | src/workers/patternWorker.ts:69-76 | the map has exactly the months that hold entries, each with its entries in input order |
| Patterns.DetectMonthlyPatterns | src/workers/patternWorker.ts:67-139 | the method computes the seasonal patterns, month by month in key order |
| Patterns.SeasonalForFacts | src/workers/patternWorker.ts:80-134 | `Patterns.SeasonalFor` builds one month's pattern; an emitted seasonal pattern is for its month, has confidence in [0.3, 1], at least three occurrences and the month's last entry as last occurrence |
| Patterns.SteadyMonthIsStrong | src/workers/patternWorker.ts:106-113 | a month of at least three equal performances yields a strong pattern of confidence 1 and that performance |
| Patterns.MonthlyFacts | src/workers/patternWorker.ts:67-139 | at most one seasonal pattern per month, each from ≥ 3 entries with confidence in [0.3, 1], and one for every month that qualifies |
| Patterns.TrendFacts | src/workers/patternWorker.ts:141-191 | `Patterns.TrendPatterns` models detectTrendPatterns: under 10 entries no trend; otherwise exactly one, with one occurrence, the last close as price, the last date and a confidence in [0, 1] |
| Patterns.TrendOfLine | src/workers/patternWorker.ts:147-161 | closes on a line of slope b give the direction of b and confidence min(1, 100·\|b\|) |
| Patterns.FlatTrend | src/workers/patternWorker.ts:147-163 | equal closes give a sideways, weak trend of confidence 0 |
| Patterns.ZScore | src/workers/patternWorker.ts:208 | the z-score is never negative |
| Patterns.AnomalyOf | src/workers/patternWorker.ts:210-232 | an anomaly has confidence in (0.5, 1] and is strong iff \|z\| > 3, moderate otherwise |
| Patterns.DetectAnomalyPatterns | src/workers/patternWorker.ts:193-237 | the method computes the anomaly patterns |
| Patterns.AnomaliesSound | src/workers/patternWorker.ts:207-234 | `Patterns.AnomaliesFrom` lists the anomalies; each belongs to an entry whose \|z\| exceeds 2 |
| Patterns.AnomaliesOrdered | src/workers/patternWorker.ts:207-234 | anomalies follow input order, one per entry |
| Patterns.AnomaliesComplete | src/workers/patternWorker.ts:207-234 | every entry whose \|z\| exceeds 2 yields an anomaly |
| Patterns.SteadySeriesHasNoAnomalies | src/workers/patternWorker.ts:196-234 | equal performances yield no anomaly |
| Patterns.SimplePatternsFacts | src/workers/patternWorker.ts:239-256 | `Patterns.SimplePatterns` models detectSimplePatterns: under 20 entries no patterns; otherwise a permutation of seasonal + trend + anomaly patterns, as many as seasonal + 1 + anomaly, sorted by non-increasing confidence |
| Patterns.SimpleConfidences | src/workers/patternWorker.ts:239-256 | every confidence lies in [0, 1] |
| Patterns.DetectSimplePatterns | src/workers/patternWorker.ts:239-257 | the method computes the sorted pattern list |
| CalendarView.DisplayDataFiltersByRange | src/components/financial-calendar/FinancialCalendar.tsx:96-122 | `CalendarView.DisplayData` is the displayed series and `CalendarView.FilterRange` its range filter: with a range the display is the in-order subsequence of exactly the entries whose date lies in the range |
| CalendarView.FilterKeepsAll | src/components/financial-calendar/FinancialCalendar.tsx:96-122 | when every entry lies in the range the filter keeps them all |
| CalendarView.DisplayDataIdempotent | src/components/financial-calendar/FinancialCalendar.tsx:91-123 | filtering twice by the same range equals filtering once |
| CalendarView.WeekStartInstant | src/components/financial-calendar/FinancialCalendar.tsx:100-107 | `CalendarView.KeyInstant` is the instant the filter gives a key; exactly the week keys take the week-key branch |
| CalendarView.MonthEndIsLastDay | src/components/financial-calendar/FinancialCalendar.tsx:360-365 | day 0 of the next month is the month's last day |
| CalendarView.WeekEndIsSixDaysOn | src/components/financial-calendar/FinancialCalendar.tsx:351-357 | a week's end is six days after its start |
| CalendarView.AvailableRangeCoversSeries | src/components/financial-calendar/FinancialCalendar.tsx:333-370 | `CalendarView.AvailableDataRange` is the range the date picker offers; for a chronological series of one key kind it contains every entry |
| CalendarView.MixedSeriesEndsAtMonthStart | src/components/financial-calendar/FinancialCalendar.tsx:333-370 | a series that starts on a day key and ends on a `YYYY-MM` key ends at UTC midnight on the first of that month, as `new Date("YYYY-MM")` parses it |
| CalendarView.MaxVolumeBounds | src/components/financial-calendar/FinancialCalendar.tsx:312-321 | the maximum volume is ≥ 0, ≥ every volume, and 0 or one of them |
| CalendarView.MaxLiquidityBounds | src/components/financial-calendar/FinancialCalendar.tsx:322-331 | the maximum liquidity is ≥ 0, ≥ every liquidity, and 0 or one of them |
| CalendarView.PercentChangeRoundTrip | src/components/financial-calendar/FinancialCalendar.tsx:296-298 | `CalendarView.PercentChange` is the comparison's percentage change; applied to the first value it gives back the second |
| CalendarView.ComparisonMetrics | src/components/financial-calendar/FinancialCalendar.tsx:287-300 | the metrics exist exactly when both periods hold data |
| CalendarView.ComparisonRecoversSecond | src/components/financial-calendar/FinancialCalendar.tsx:293-299 | the first period plus each difference gives back the second period's figures |
| CalendarView.ComparisonWithItself | src/components/financial-calendar/FinancialCalendar.tsx:293-299 | a period compared with itself shows no difference |
| CalendarView.ComparisonSwapped | src/components/financial-calendar/FinancialCalendar.tsx:294-295 | swapping the periods negates the performance and volatility differences |
| CalendarView.CalendarState.constructor | src/components/financial-calendar/FinancialCalendar.tsx:42-71 | no range, comparison mode off, both slots empty |
| CalendarView.CalendarState.SetCustomRange | src/components/financial-calendar/FinancialCalendar.tsx:125-134 | a start at time 0 clears the range, any other start sets it; nothing else changes |
| CalendarView.CalendarState.ClearCustomRange | src/components/financial-calendar/FinancialCalendar.tsx:167-169 | clearing the range shows every entry |
| CalendarView.CalendarState.ToggleComparisonMode | src/components/financial-calendar/FinancialCalendar.tsx:224-237 | the mode flips; leaving comparison mode empties both periods and both data slots |
| CalendarView.CalendarState.ClearComparison | src/components/financial-calendar/FinancialCalendar.tsx:268-274 | both periods and data slots are emptied |
| CalendarView.CalendarState.SelectComparisonPeriod | src/components/financial-calendar/FinancialCalendar.tsx:239-266 | a pick without data is ignored; the first pick fills slot 1; a different pick fills an empty slot 2; any other pick changes nothing; slots always carry their data and differ |
| CalendarView.CalendarState.PanelMetrics | src/components/financial-calendar/FinancialCalendar.tsx:287-300 | for a state that keeps its invariant, the panel's metrics exist exactly when both periods are picked, and a panel on screen compares two different periods |
| Alerts.ThrottleWindow | src/components/financial-calendar/AlertSystem.tsx:102-111 | `Alerts.Throttled` is the five-minute throttle: a fired alert is throttled exactly for the five minutes after it fires, and firing adds one to its count |
| Alerts.AboveAndBelowExclusive | src/components/financial-calendar/AlertSystem.tsx:190-196 | one value cannot be both above and below the same threshold |
| Alerts.ThresholdMonotone | src/components/financial-calendar/AlertSystem.tsx:190-196 | an above alert that holds still holds with a lower threshold, a below alert with a higher one |
| Alerts.ReplaceById | src/components/financial-calendar/AlertSystem.tsx:113 | every alert with the id is replaced and all others are kept |
| Alerts.NothingFiresAfterEvaluation | src/components/financial-calendar/AlertSystem.tsx:172-206 | `Alerts.Evaluated` is the list after one evaluation pass and `Alerts.WouldFire` the firing test; after one pass no alert of the list would fire again at the same instant |
| Alerts.SecondPassIsIdle | src/components/financial-calendar/AlertSystem.tsx:172-206 | a second pass at the same instant changes nothing and fires nothing |
| Alerts.FiringsSound | src/components/financial-calendar/AlertSystem.tsx:177-204 | each reported firing is an enabled, unthrottled alert whose condition holds, with its count raised |
| Alerts.FiringsComplete | src/components/financial-calendar/AlertSystem.tsx:177-204 | every enabled, unthrottled alert whose condition holds is reported |
| Alerts.ToggleById | src/components/financial-calendar/AlertSystem.tsx:258-274 | only alerts with the id flip `enabled`; the rest are kept in place |
| Alerts.ToggleTwice | src/components/financial-calendar/AlertSystem.tsx:258-274 | toggling twice restores the list |
| Alerts.DeleteRemovesExactly | src/components/financial-calendar/AlertSystem.tsx:244-256 | deletion leaves exactly the alerts with another id, in order |
| Alerts.CreateThenDelete | src/components/financial-calendar/AlertSystem.tsx:208-247 | deleting a freshly created alert restores the list |
| Alerts.AlertBook.constructor | src/components/financial-calendar/AlertSystem.tsx:65 | a new book holds no alerts |
| Alerts.AlertBook.CreateAlert | src/components/financial-calendar/AlertSystem.tsx:208-242 | an empty name or missing threshold is refused and changes nothing; otherwise one enabled alert with count 0 is appended |
| Alerts.AlertBook.DeleteAlert | src/components/financial-calendar/AlertSystem.tsx:244-256 | the list loses exactly the alerts with the id |
| Alerts.AlertBook.ToggleAlert | src/components/financial-calendar/AlertSystem.tsx:258-274 | the list is toggled at the id |
| Alerts.AlertBook.TriggerAlert | src/components/financial-calendar/AlertSystem.tsx:100-113 | within five minutes of its last firing nothing happens; otherwise the alert fires: the time is recorded, the count rises by one and only alerts with its id change |
| Alerts.AlertBook.EvaluateAlerts | src/components/financial-calendar/AlertSystem.tsx:172-206 | no alerts or no data: nothing; otherwise each enabled alert whose condition holds on the last entry is triggered, in list order |
| Export.SplitJoin | src/utils/export.ts:28 | joining parts free of the separator and splitting again gives the parts back |
| Export.JoinAvoids | src/utils/export.ts:28 | joining never introduces a character the parts lack, other than the separator |
| Export.Fields | src/utils/export.ts:16-26 | a row has as many fields as the header |
| Export.Lines | src/utils/export.ts:16-28 | n rows give n + 1 lines |
| Export.HeaderLine | src/utils/export.ts:5-15 | the header line holds no line break and reads back as the nine column names |
| Export.EntryLine | src/utils/export.ts:16-28 | each entry's line holds no line break and reads back as its fields |
| Export.CsvReadsBack | src/utils/export.ts:4-29 | `Export.GenerateCSV` is the CSV text and `Export.Row` one entry's fields; the text splits into n + 1 lines: the header, then one line per entry in input order with its nine fields date, open, high, low, close, volume, performance, volatility, liquidity |

## Left out

- The WebSocket clients and their reconnect timers (`createRealTimeWebSocket`, `createLiveDataWebSocket`, `createCalendarDataWebSocket`): socket I/O and timing.
- `MarketApi.ComprehensiveKlineData`: a failed page (a response that is not ok, or a body that is not JSON) rejects the whole call and the rows already collected are discarded. The model's page source never fails, so this error path is not modelled.
- `getOrderBook`, `getTicker` and `getKlineData`: thin `fetch` wrappers. The pagination loop asks `MarketApi.PageSource` instead.
- React lifecycles, the 15-second loading watchdogs, ticker polling and `usePatternWorker`: scheduling and concurrency.
- The worker's message handler and its `performance.now` timing.
- `Patterns.Pattern`: the source's `id`, `name`, `description`, display `color` and `period` fields are presentation text and are not modelled. The kind, the confidence, the metrics, the occurrence count, the last occurrence and the strength are modelled.
- `calculateBenchmarkComparison`: it depends on `Math.random()`.
- `calculateVIXLikeMetric`, `createEnhancedChartData`, `getMostRecentPeriod`, `getTodayPeriod`, colour, arrow, asset and formatting helpers: presentation, or dependent on the clock.
- `generatePDF` and `downloadFile`, browser storage of alerts, and toasts.
- IEEE-754 behaviour: NaN and Infinity, `isFinite` guards, `toFixed`, `toLocaleString`. Reals are always finite, so the source's finiteness filters (summary values, maximum volume and liquidity) keep every value here.
- `Common.Div`: a zero divisor yields 0 rather than Infinity or NaN. Contracts that involve a division state the non-zero case.
- `Aggregation.WeightedVolatilityBounds`: requires a positive total volume. A weekly or monthly group with zero total volume gets NaN volatility in the source (0 divided by 0); the model gives it 0.
- JavaScript `Date` and time zones. Local time is taken to be UTC. Weekly and monthly keys and the range filter use the UTC calendar date, and the week number is computed from the day of the year directly.
- `MarketApi.ComprehensiveKlineData`: the ascending-order guarantee assumes a source that answers only rows opened at or before the cursor and open times of at least 2 ms. The source's `if (endTime)` treats a cursor of 0 as absent; `MarketApi.Cursor` models that.
- `OrderBook.DepthReplica.ApplyDepthUpdate`: sortedness and the absence of duplicates are promised only when the side had distinct prices before the update, as a REST snapshot does. In-place aliasing between the snapshot arrays and React state is not modelled; the sides are `seq` values.
- No handler checks the symbol of an incoming diff or kline, so the model has no stale-symbol guard either.
- `CalendarView.AvailableRangeCoversSeries`: stated for a chronological series whose keys are all of one kind, as the aggregator produces.
- The aggregator's final sort places a row with an invalid key last. In the source its comparison yields NaN, and where such a row ends up depends on the engine's sort.

## Findings

| source | as written | input that shows it | evidently intended | confidence | as-written member | corrected member |
|---|---|---|---|---|---|---|
| src/utils/helper.ts:409-419 | the signal line averages nine MACD samples, sample i taken over `slice(0, −9 + i + 1)`; for the last sample (i = 8) that is `slice(0, 0)`, which is empty, so that sample is always 0 | 25 closes of 1 followed by one close of 2 | the ninth sample is the MACD of the whole series, so the signal is the mean of the MACD at the last nine points | not executed | Indicators.MacdAsWritten | Indicators.MacdCorrected |
