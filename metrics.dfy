/** The FinancialMetrics record of `src/services/api.ts` and the calendar
    lookups of `src/utils/helper.ts` built on it: finding the entry of a
    calendar cell (getDataForPeriod), the per-period average and median
    (getSummaryData), the years present in a series (getYearsFromData) and the
    cells of a calendar page (getTimePeriods). */
module Metrics {
  import opened Common
  import opened Calendar

  /** The extra fields a weekly or monthly rollup carries. */
  datatype Rollup = Rollup(avgDailyVolume: real, avgDailyLiquidity: real, volatilityRange: real, daysCount: nat)

  datatype FinancialMetrics = FinancialMetrics(
    date: DateKey,
    open: real, high: real, low: real, close: real,
    volume: real, volatility: real, liquidity: real, performance: real,
    rollup: Option<Rollup>)

  // Field accessors, for sums and averages over a field.
  function High(e: FinancialMetrics): real { e.high }
  function Low(e: FinancialMetrics): real { e.low }
  function Close(e: FinancialMetrics): real { e.close }
  function Volume(e: FinancialMetrics): real { e.volume }
  function Liquidity(e: FinancialMetrics): real { e.liquidity }
  function Volatility(e: FinancialMetrics): real { e.volatility }
  function Performance(e: FinancialMetrics): real { e.performance }

  datatype Timeframe = Daily | Weekly | Monthly

  /** The label of a calendar cell: `MM-DD`, `Www` or `MM`. */
  datatype Period = DayPeriod(month: int, day: int) | WeekPeriod(week: int) | MonthPeriod(month: int)

  /** `new Date(key)`: a day key parses to its day and `YYYY-MM` to the first
      of the month; a week key, `NaN` text or an impossible day or month is an
      Invalid Date. */
  function ParsedDate(k: DateKey): (r: Option<Date>)
    ensures r.Some? ==> ValidDate(r.value)
  {
    match k
    case DayKey(d) => if ValidDate(d) then Some(d) else None
    case MonthKey(y, m) => if 1 <= m <= 12 then Some(Date(y, m, 1)) else None
    case _ => None
  }

  /** The year of an entry: the digits before `-W` for a week key, the full
      year of the parsed date otherwise (None where that is NaN). */
  function EntryYear(k: DateKey): Option<int>
  {
    match k
    case WeekKey(y, _) => Some(y)
    case _ => if ParsedDate(k).Some? then Some(ParsedDate(k).value.year) else None
  }

  /** The test `getDataForPeriod` applies to each entry of the series. */
  predicate MatchesPeriod(e: FinancialMetrics, year: int, period: Period, timeframe: Timeframe)
  {
    EntryYear(e.date) == Some(year) &&
    match (timeframe, period)
    case (Daily, DayPeriod(m, d)) =>
      ParsedDate(e.date).Some? && ParsedDate(e.date).value.month == m && ParsedDate(e.date).value.day == d
    case (Weekly, WeekPeriod(w)) => e.date == WeekKey(year, w)
    case (Monthly, MonthPeriod(m)) => ParsedDate(e.date).Some? && ParsedDate(e.date).value.month == m
    case _ => false
  }

  /** Entry `i` is the first entry of the series that matches the cell. */
  predicate FirstMatch(data: seq<FinancialMetrics>, i: int, year: int, period: Period, timeframe: Timeframe)
    requires 0 <= i < |data|
  {
    MatchesPeriod(data[i], year, period, timeframe) &&
    forall j :: 0 <= j < i ==> !MatchesPeriod(data[j], year, period, timeframe)
  }

  /** getDataForPeriod: the first entry of the cell, as `Array.find` returns it. */
  function DataForPeriod(data: seq<FinancialMetrics>, year: int, period: Period, timeframe: Timeframe)
    : (r: Option<FinancialMetrics>)
    ensures r.None? <==> forall i :: 0 <= i < |data| ==> !MatchesPeriod(data[i], year, period, timeframe)
    ensures r.Some? ==>
      exists i :: 0 <= i < |data| && data[i] == r.value && FirstMatch(data, i, year, period, timeframe)
  {
    if |data| == 0 then None
    else if MatchesPeriod(data[0], year, period, timeframe) then Some(data[0])
    else
      var r := DataForPeriod(data[1..], year, period, timeframe);
      assert forall i :: 1 <= i < |data| ==> data[i] == data[1..][i - 1];
      r
  }

  /** A weekly cell finds exactly the entry keyed `year-Wweek`. */
  lemma WeeklyLookupByKey(data: seq<FinancialMetrics>, year: int, week: int)
    ensures var r := DataForPeriod(data, year, WeekPeriod(week), Weekly);
      (r.Some? ==> r.value.date == WeekKey(year, week)) &&
      (r.None? <==> forall i :: 0 <= i < |data| ==> data[i].date != WeekKey(year, week))
  {
  }

  /** The performances `getSummaryData` collects: one per year that has an
      entry for the cell, in the order of `years`. */
  function PeriodPerformances(data: seq<FinancialMetrics>, years: seq<int>, period: Period, timeframe: Timeframe)
    : seq<real>
  {
    if |years| == 0 then []
    else
      var found := DataForPeriod(data, years[0], period, timeframe);
      (if found.Some? then [found.value.performance] else []) + PeriodPerformances(data, years[1..], period, timeframe)
  }

  datatype Summary = Summary(average: real, median: real)

  function Identity(x: real): real { x }

  /** The middle element of a sorted list, or the mean of the two middle ones. */
  function Median(sorted: seq<real>): real
    requires |sorted| > 0
  {
    var n := |sorted|;
    if n % 2 == 0 then (sorted[n / 2 - 1] + sorted[n / 2]) / 2.0 else sorted[n / 2]
  }

  /** getSummaryData */
  function SummaryData(data: seq<FinancialMetrics>, years: seq<int>, period: Period, timeframe: Timeframe)
    : Summary
  {
    var values := PeriodPerformances(data, years, period, timeframe);
    if |values| == 0 then Summary(0.0, 0.0)
    else Summary(Sum(values) / |values| as real, Median(SortBy(values, Identity)))
  }

  /** With no value for the cell both summaries are 0; otherwise the average
      and the median both lie between the smallest and largest value, and the
      median is taken from a sorted permutation of the values. */
  lemma {:induction false} SummaryBounds(data: seq<FinancialMetrics>, years: seq<int>, period: Period, timeframe: Timeframe)
    ensures var values := PeriodPerformances(data, years, period, timeframe);
      var s := SummaryData(data, years, period, timeframe);
      (|values| == 0 ==> s == Summary(0.0, 0.0)) &&
      (|values| > 0 ==>
        var sorted := SortBy(values, Identity);
        SortedBy(sorted, Identity) && multiset(sorted) == multiset(values) &&
        s.median == Median(sorted) &&
        MinOf(values) <= s.average <= MaxOf(values) &&
        MinOf(values) <= s.median <= MaxOf(values))
  {
    var values := PeriodPerformances(data, years, period, timeframe);
    if |values| > 0 {
      MeanBetweenExtrema(values);
      SortByCorrect(values, Identity);
      PermutationBounds(values, SortBy(values, Identity));
      MedianBetween(SortBy(values, Identity), MinOf(values), MaxOf(values));
    }
  }

  /** A permutation of a non-empty list stays within its extrema. */
  lemma PermutationBounds(values: seq<real>, sorted: seq<real>)
    requires |values| > 0 && multiset(sorted) == multiset(values)
    ensures forall k :: 0 <= k < |sorted| ==> MinOf(values) <= sorted[k] <= MaxOf(values)
  {
    forall k | 0 <= k < |sorted| ensures MinOf(values) <= sorted[k] <= MaxOf(values) {
      assert sorted[k] in multiset(values);
    }
  }

  lemma MedianBetween(sorted: seq<real>, lo: real, hi: real)
    requires |sorted| > 0
    requires forall k :: 0 <= k < |sorted| ==> lo <= sorted[k] <= hi
    ensures lo <= Median(sorted) <= hi
  {
  }

  // ----- getYearsFromData -----

  /** Adds `y` to a strictly descending list of years unless it is there. */
  function InsertYear(y: int, years: seq<int>): (r: seq<int>)
    requires forall i, j :: 0 <= i < j < |years| ==> years[i] > years[j]
    ensures forall i, j :: 0 <= i < j < |r| ==> r[i] > r[j]
    ensures forall x :: x in r <==> x == y || x in years
  {
    if |years| == 0 then [y]
    else if y == years[0] then years
    else if y > years[0] then [y] + years
    else
      var rest := InsertYear(y, years[1..]);
      assert forall k :: 0 <= k < |rest| ==> rest[k] < years[0] by {
        forall k | 0 <= k < |rest| ensures rest[k] < years[0] {
          assert rest[k] in rest;
          if rest[k] != y {
            var j :| 0 <= j < |years[1..]| && years[1..][j] == rest[k];
            assert years[j + 1] == rest[k];
          }
        }
      }
      [years[0]] + rest
  }

  /** getYearsFromData: the distinct valid years of the series, newest first.
      The source gathers them in a Set and sorts it afterwards; here the set is
      kept as a strictly descending list throughout. */
  method YearsFromData(data: seq<FinancialMetrics>) returns (years: seq<int>)
    ensures forall i, j :: 0 <= i < j < |years| ==> years[i] > years[j]
    ensures forall y :: y in years <==> exists i :: 0 <= i < |data| && EntryYear(data[i].date) == Some(y)
  {
    years := [];
    var k := 0;
    while k < |data|
      invariant 0 <= k <= |data|
      invariant forall i, j :: 0 <= i < j < |years| ==> years[i] > years[j]
      invariant forall y :: y in years <==> exists i :: 0 <= i < k && EntryYear(data[i].date) == Some(y)
    {
      var year := EntryYear(data[k].date);
      if year.Some? {
        years := InsertYear(year.value, years);
      }
      k := k + 1;
    }
  }

  // ----- getTimePeriods -----

  /** The cells of a calendar page: the days of the month on display for the
      daily view, W01..W53 for the weekly view, 01..12 for the monthly view. */
  function Page(timeframe: Timeframe, year: int, month: int): (r: seq<Period>)
    requires timeframe == Daily ==> 1 <= month <= 12
    ensures forall p :: p in r <==> OnPage(p, timeframe, year, month)
  {
    match timeframe
    case Daily =>
      var r := seq(DaysInMonth(year, month), i => DayPeriod(month, i + 1));
      assert forall p :: OnPage(p, timeframe, year, month) ==> p == r[p.day - 1];
      r
    case Weekly =>
      var r := seq(53, i => WeekPeriod(i + 1));
      assert forall p :: OnPage(p, timeframe, year, month) ==> p == r[p.week - 1];
      r
    case Monthly =>
      var r := seq(12, i => MonthPeriod(i + 1));
      assert forall p :: OnPage(p, timeframe, year, month) ==> p == r[p.month - 1];
      r
  }

  /** Whether a cell belongs on a page: a day of that month, a week number
      from 1 to 53, or a month number from 1 to 12. */
  predicate OnPage(p: Period, timeframe: Timeframe, year: int, month: int)
    requires timeframe == Daily ==> 1 <= month <= 12
  {
    match timeframe
    case Daily => p.DayPeriod? && ValidDate(Date(year, month, p.day)) && p.month == month
    case Weekly => p.WeekPeriod? && 1 <= p.week <= 53
    case Monthly => p.MonthPeriod? && 1 <= p.month <= 12
  }

  /** getTimePeriods: the cells of a calendar page (the source reads month and
      year from a Date), in order: day 1 first, W01 first, 01 first. */
  method TimePeriods(timeframe: Timeframe, currentYear: int, currentMonth: int) returns (periods: seq<Period>)
    requires timeframe == Daily ==> 1 <= currentMonth <= 12
    ensures periods == Page(timeframe, currentYear, currentMonth)
    ensures timeframe == Daily ==> (|periods| == DaysInMonth(currentYear, currentMonth) &&
      forall i :: 0 <= i < |periods| ==> periods[i] == DayPeriod(currentMonth, i + 1))
    ensures timeframe == Weekly ==> |periods| == 53 && forall i :: 0 <= i < 53 ==> periods[i] == WeekPeriod(i + 1)
    ensures timeframe == Monthly ==> |periods| == 12 && forall i :: 0 <= i < 12 ==> periods[i] == MonthPeriod(i + 1)
  {
    match timeframe
    case Daily =>
      var daysInMonth := DaysInMonth(currentYear, currentMonth);
      periods := [];
      var day := 1;
      while day <= daysInMonth
        invariant 1 <= day <= daysInMonth + 1
        invariant |periods| == day - 1
        invariant forall i :: 0 <= i < |periods| ==> periods[i] == DayPeriod(currentMonth, i + 1)
      {
        periods := periods + [DayPeriod(currentMonth, day)];
        day := day + 1;
      }
    case Weekly =>
      periods := seq(53, i => WeekPeriod(i + 1));
    case Monthly =>
      periods := seq(12, i => MonthPeriod(i + 1));
  }

  /** Every valid date has its cell on the daily page of its month, on the
      weekly page of its year and on the monthly page of its year. */
  lemma PagesCoverCalendar(d: Date)
    requires ValidDate(d)
    ensures DayPeriod(d.month, d.day) in Page(Daily, d.year, d.month)
    ensures WeekPeriod(WeekOfDate(d)) in Page(Weekly, d.year, d.month)
    ensures MonthPeriod(d.month) in Page(Monthly, d.year, d.month)
  {
    WeekNumberIsCeiling(d.year, DayOfYear(d));
  }
}
