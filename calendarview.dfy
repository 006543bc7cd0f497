/** The calendar component's derived data and selection state: the series
    restricted to a custom date range, the range the series spans, the two
    periods picked for comparison and the differences between them, and the
    largest volume and liquidity the cells are scaled against.

    Dates become instants in milliseconds. The local time zone the component
    builds some of its dates in is taken to be UTC. */
module CalendarView {
  import opened Common
  import opened Calendar
  import opened Metrics

  // ----- Dates the component builds -----

  /** The year `new Date(y, …)` uses: 0..99 stand for 1900..1999. */
  function JsYear(y: int): int
  {
    if 0 <= y <= 99 then 1900 + y else y
  }

  /** The day number of `new Date(y, monthIndex, day)`: a month index outside
      0..11 rolls into another year and a day outside the month into another
      month, as the Date constructor does. */
  function LocalDay(y: int, monthIndex: int, day: int): int
  {
    EpochDay(Date(JsYear(y) + monthIndex / 12, monthIndex % 12 + 1, 1)) + day - 1
  }

  /** The day a week key stands for: 1 January of its year plus whole weeks. */
  function WeekStartDay(y: int, w: int): int
  {
    LocalDay(y, 0, 1) + (w - 1) * 7
  }

  /** The text of the key contains `-W`. */
  predicate WeekLike(k: DateKey)
  {
    k.WeekKey? || (k.InvalidKey? && k.weekly)
  }

  /** The text of the key is four digits, a dash and two digits. */
  predicate YearMonthKey(k: DateKey)
  {
    k.MonthKey? && 1000 <= k.year <= 9999 && 0 <= k.month <= 99
  }

  /** `new Date(text)` of a key that is not week-shaped. The ISO date-only
      forms parse as UTC midnight: a day key gives its day, a `YYYY-MM` key
      the first of its month. Any other text is an Invalid Date. */
  function DateStringInstant(k: DateKey): (r: Option<int>)
    ensures r.Some? <==> (k.DayKey? && ValidDate(k.date)) || (YearMonthKey(k) && 1 <= k.month <= 12)
    ensures k.DayKey? && r.Some? ==> r.value == EpochDay(k.date) * MsPerDay
    ensures k.MonthKey? && r.Some? ==> r.value == EpochDay(Date(k.year, k.month, 1)) * MsPerDay
  {
    if (k.DayKey? || YearMonthKey(k)) && ParsedDate(k).Some? then
      Some(EpochDay(ParsedDate(k).value) * MsPerDay)
    else None
  }

  /** The instant of a week-shaped key; `NaN-WNaN` is an Invalid Date. */
  function WeekStartInstant(k: DateKey): (r: Option<int>)
    ensures r.Some? <==> k.WeekKey?
  {
    if k.WeekKey? then Some(WeekStartDay(k.year, k.week) * MsPerDay) else None
  }

  /** The instant the range filter assigns to an entry's key; None is an
      Invalid Date, which no comparison admits. */
  function KeyInstant(k: DateKey): Option<int>
  {
    if WeekLike(k) then WeekStartInstant(k)
    else if YearMonthKey(k) then Some(LocalDay(k.year, k.month - 1, 1) * MsPerDay)
    else DateStringInstant(k)
  }

  // ----- The custom range filter -----

  /** A custom date range, both ends inclusive, in milliseconds. */
  datatype Range = Range(start: int, end: int)

  predicate InRange(e: FinancialMetrics, r: Range)
  {
    KeyInstant(e.date).Some? && r.start <= KeyInstant(e.date).value <= r.end
  }

  /** The range test as a filter callback. */
  function Within(r: Range): FinancialMetrics -> bool
  {
    e => InRange(e, r)
  }

  /** The entries of `data` inside the range, in their order. */
  function FilterRange(data: seq<FinancialMetrics>, r: Range): seq<FinancialMetrics>
  {
    Keep(data, Within(r))
  }

  /** `displayData`: the whole series without a range or when it is empty,
      the entries inside the range otherwise. */
  function DisplayData(data: seq<FinancialMetrics>, range: Option<Range>): seq<FinancialMetrics>
  {
    if range.None? || |data| == 0 then data else FilterRange(data, range.value)
  }

  /** With a range, the display keeps exactly the entries inside it, in order. */
  lemma DisplayDataFiltersByRange(data: seq<FinancialMetrics>, r: Range)
    ensures var out := DisplayData(data, Some(r));
      (forall k :: 0 <= k < |out| ==> InRange(out[k], r) && out[k] in data) &&
      FilteredAt(out, data, Within(r), KeptIndices(data, Within(r)))
  {
    KeepIsSubsequence(data, Within(r));
  }

  /** A series wholly inside the range passes the filter unchanged. */
  lemma FilterKeepsAll(data: seq<FinancialMetrics>, r: Range)
    requires forall i :: 0 <= i < |data| ==> InRange(data[i], r)
    ensures FilterRange(data, r) == data
  {
    KeepAll(data, Within(r));
  }

  /** Filtering the displayed series again by the same range changes nothing. */
  lemma DisplayDataIdempotent(data: seq<FinancialMetrics>, range: Option<Range>)
    ensures DisplayData(DisplayData(data, range), range) == DisplayData(data, range)
  {
    if range.Some? && |data| > 0 {
      var out := FilterRange(data, range.value);
      FilterKeepsAll(out, range.value);
    }
  }

  // ----- The range the series spans -----

  /** The start and end the range picker offers; None is an Invalid Date. */
  datatype Bounds = Bounds(start: Option<int>, end: Option<int>)

  /** The end of a week-keyed series: the last day of the last entry's week. */
  function WeekEndInstant(k: DateKey): (r: Option<int>)
    ensures r.Some? <==> k.WeekKey?
  {
    if k.WeekKey? then Some((LocalDay(k.year, 0, 1) + k.week * 7 - 1) * MsPerDay) else None
  }

  /** The numbers the first two dash-separated fields of a key parse to. */
  function YearMonthParts(k: DateKey): Option<(int, int)>
  {
    match k
    case MonthKey(y, m) => if y >= 0 && m >= 0 then Some((y, m)) else None
    case DayKey(d) => if d.year >= 0 && d.month >= 0 then Some((d.year, d.month)) else None
    case _ => None
  }

  /** The end of a month-keyed series: day 0 of the month after the last
      entry's month, that is the last day of that month. */
  function MonthEndInstant(k: DateKey): Option<int>
  {
    var parts := YearMonthParts(k);
    if parts.Some? then Some(LocalDay(parts.value.0, parts.value.1, 0) * MsPerDay) else None
  }

  /** `availableDataRange`, with the current time `now` as a parameter. */
  function AvailableDataRange(data: seq<FinancialMetrics>, now: int): Bounds
  {
    if |data| == 0 then Bounds(Some(now), Some(now))
    else
      var first, last := data[0].date, data[|data| - 1].date;
      if WeekLike(first) then Bounds(WeekStartInstant(first), WeekEndInstant(last))
      else if YearMonthKey(first) then
        Bounds(Some(LocalDay(first.year, first.month - 1, 1) * MsPerDay), MonthEndInstant(last))
      else Bounds(DateStringInstant(first), DateStringInstant(last))
  }

  /** The first day of the month after `(y, m)` follows the month's last day. */
  lemma NextMonthStart(y: int, m: int)
    requires 1 <= m <= 12
    ensures var next := if m == 12 then Date(y + 1, 1, 1) else Date(y, m + 1, 1);
      EpochDay(next) == EpochDay(Date(y, m, 1)) + DaysInMonth(y, m)
  {
    MonthsTileYear(y, m);
    YearStep(y);
  }

  /** Day 0 of month index `m` is the last day of the month before it. */
  lemma DayZeroIsMonthEnd(y: int, m: int)
    ensures var prev := Date(JsYear(y) + (m - 1) / 12, (m - 1) % 12 + 1, 1);
      LocalDay(y, m, 0) == LocalDay(y, m - 1, 1) + DaysInMonth(prev.year, prev.month) - 1
  {
    var py, pm := JsYear(y) + (m - 1) / 12, (m - 1) % 12 + 1;
    NextMonthStart(py, pm);
    if pm == 12 {
      assert m / 12 == (m - 1) / 12 + 1 && m % 12 == 0;
    } else {
      assert m / 12 == (m - 1) / 12 && m % 12 == pm;
    }
  }

  /** For a month 1..12 the monthly end is that month's last calendar day. */
  lemma MonthEndIsLastDay(y: int, m: int)
    requires 1 <= m <= 12
    ensures LocalDay(y, m, 0) == EpochDay(Date(JsYear(y), m, DaysInMonth(JsYear(y), m)))
  {
    var fy := JsYear(y);
    assert (m - 1) / 12 == 0 && (m - 1) % 12 + 1 == m;
    DayZeroIsMonthEnd(y, m);
    assert LocalDay(y, m - 1, 1) == EpochDay(Date(fy, m, 1));
  }

  /** A weekly end lies six days after the start of its own week. */
  lemma WeekEndIsSixDaysOn(y: int, w: int)
    ensures WeekEndInstant(WeekKey(y, w)).value == (WeekStartDay(y, w) + 6) * MsPerDay
  {
  }

  /** Every entry's instant exists and the instants never decrease. */
  ghost predicate Chronological(data: seq<FinancialMetrics>)
  {
    (forall i :: 0 <= i < |data| ==> KeyInstant(data[i].date).Some?) &&
    forall i, j :: 0 <= i <= j < |data| ==>
      KeyInstant(data[i].date).value <= KeyInstant(data[j].date).value
  }

  /** The series is keyed by one timeframe: all weeks, all `YYYY-MM` months,
      or all days. */
  ghost predicate Homogeneous(data: seq<FinancialMetrics>)
  {
    (forall i :: 0 <= i < |data| ==> data[i].date.WeekKey?) ||
    (forall i :: 0 <= i < |data| ==> YearMonthKey(data[i].date)) ||
    (forall i :: 0 <= i < |data| ==> data[i].date.DayKey?)
  }

  /** A week key lies within the end its week gives. */
  lemma WeekEndCovers(k: DateKey)
    requires k.WeekKey?
    ensures WeekEndInstant(k).Some? && KeyInstant(k).value <= WeekEndInstant(k).value
  {
    WeekEndIsSixDaysOn(k.year, k.week);
  }

  /** A `YYYY-MM` key lies within the end its month gives. */
  lemma MonthEndCovers(k: DateKey)
    requires YearMonthKey(k)
    ensures MonthEndInstant(k).Some? && KeyInstant(k).value <= MonthEndInstant(k).value
  {
    var start, end := LocalDay(k.year, k.month - 1, 1) * MsPerDay, LocalDay(k.year, k.month, 0) * MsPerDay;
    MonthKeyInstants(k);
    MonthEndNotBeforeStart(k.year, k.month);
    InstantsOrdered(KeyInstant(k), MonthEndInstant(k), start, end);
  }

  /** Two instants that exist, in order. */
  lemma InstantsOrdered(a: Option<int>, b: Option<int>, x: int, y: int)
    requires a == Some(x) && b == Some(y) && x <= y
    ensures a.Some? && b.Some? && a.value <= b.value
  {
  }

  /** The start and end instants of a `YYYY-MM` key. */
  lemma MonthKeyInstants(k: DateKey)
    requires YearMonthKey(k)
    ensures KeyInstant(k) == Some(LocalDay(k.year, k.month - 1, 1) * MsPerDay)
    ensures MonthEndInstant(k) == Some(LocalDay(k.year, k.month, 0) * MsPerDay)
  {
    assert YearMonthParts(k) == Some((k.year, k.month));
  }

  /** Day 0 of month index `m` is no earlier than the first of month index `m - 1`. */
  lemma MonthEndNotBeforeStart(y: int, m: int)
    ensures LocalDay(y, m - 1, 1) * MsPerDay <= LocalDay(y, m, 0) * MsPerDay
  {
    var py, pm := JsYear(y) + (m - 1) / 12, (m - 1) % 12 + 1;
    DayZeroIsMonthEnd(y, m);
    assert DaysInMonth(py, pm) >= 28;
    DayInstantMonotone(LocalDay(y, m - 1, 1), LocalDay(y, m, 0));
  }

  /** Later days have later midnights. */
  lemma DayInstantMonotone(a: int, b: int)
    requires a <= b
    ensures a * MsPerDay <= b * MsPerDay
  {
  }

  /** The last entry's instant lies within the end of the available range. */
  lemma LastWithinEnd(data: seq<FinancialMetrics>, now: int)
    requires |data| > 0 && Chronological(data) && Homogeneous(data)
    ensures var b := AvailableDataRange(data, now);
      b.start == KeyInstant(data[0].date) && b.end.Some? &&
      KeyInstant(data[|data| - 1].date).value <= b.end.value
  {
    var first, last := data[0].date, data[|data| - 1].date;
    assert KeyInstant(first).Some? && KeyInstant(last).Some?;
    if first.WeekKey? {
      assert last.WeekKey?;
      WeekEndCovers(last);
    } else if YearMonthKey(first) {
      assert YearMonthKey(last);
      MonthEndCovers(last);
    } else {
      assert first.DayKey? && last.DayKey?;
    }
  }

  /** A series that starts on a day key and ends on a `YYYY-MM` key ends
      at UTC midnight on the first of that month. */
  lemma MixedSeriesEndsAtMonthStart(data: seq<FinancialMetrics>, now: int)
    requires |data| > 0 && data[0].date.DayKey?
    requires YearMonthKey(data[|data| - 1].date) && 1 <= data[|data| - 1].date.month <= 12
    ensures var last := data[|data| - 1].date;
      AvailableDataRange(data, now).end == Some(EpochDay(Date(last.year, last.month, 1)) * MsPerDay)
  {
  }

  /** Offering the available range as the custom range keeps the whole
      chronological single-timeframe series on display. */
  lemma AvailableRangeCoversSeries(data: seq<FinancialMetrics>, now: int)
    requires |data| > 0 && Chronological(data) && Homogeneous(data)
    ensures var b := AvailableDataRange(data, now);
      b.start.Some? && b.end.Some? &&
      DisplayData(data, Some(Range(b.start.value, b.end.value))) == data
  {
    LastWithinEnd(data, now);
    var b := AvailableDataRange(data, now);
    var r := Range(b.start.value, b.end.value);
    forall i | 0 <= i < |data|
      ensures InRange(data[i], r)
    {
      assert KeyInstant(data[0].date).value <= KeyInstant(data[i].date).value;
      assert KeyInstant(data[i].date).value <= KeyInstant(data[|data| - 1].date).value;
    }
    FilterKeepsAll(data, r);
  }

  // ----- Largest volume and liquidity -----

  /** `Math.max(...values, 0)` */
  function MaxOrZero(s: seq<real>): (m: real)
    ensures m >= 0.0
    ensures forall i :: 0 <= i < |s| ==> s[i] <= m
    ensures m == 0.0 || m in s
  {
    if |s| == 0 then 0.0 else Max(MaxOrZero(s[..|s| - 1]), s[|s| - 1])
  }

  function MaxVolume(data: seq<FinancialMetrics>): real
  {
    MaxOrZero(Project(data, Volume))
  }

  function MaxLiquidity(data: seq<FinancialMetrics>): real
  {
    MaxOrZero(Project(data, Liquidity))
  }

  /** The scale is non-negative, bounds every entry and is 0 or one of them. */
  lemma MaxVolumeBounds(data: seq<FinancialMetrics>)
    ensures MaxVolume(data) >= 0.0
    ensures forall i :: 0 <= i < |data| ==> data[i].volume <= MaxVolume(data)
    ensures MaxVolume(data) == 0.0 || exists i :: 0 <= i < |data| && data[i].volume == MaxVolume(data)
  {
    var s := Project(data, Volume);
    if MaxVolume(data) != 0.0 {
      var k :| 0 <= k < |s| && s[k] == MaxVolume(data);
      assert data[k].volume == MaxVolume(data);
    }
  }

  lemma MaxLiquidityBounds(data: seq<FinancialMetrics>)
    ensures MaxLiquidity(data) >= 0.0
    ensures forall i :: 0 <= i < |data| ==> data[i].liquidity <= MaxLiquidity(data)
    ensures MaxLiquidity(data) == 0.0 || exists i :: 0 <= i < |data| && data[i].liquidity == MaxLiquidity(data)
  {
    var s := Project(data, Liquidity);
    if MaxLiquidity(data) != 0.0 {
      var k :| 0 <= k < |s| && s[k] == MaxLiquidity(data);
      assert data[k].liquidity == MaxLiquidity(data);
    }
  }

  // ----- Comparison of two periods -----

  /** A picked calendar cell. */
  datatype Pick = Pick(year: int, period: Period)

  datatype Diffs = Diffs(performanceDiff: real, volatilityDiff: real, volumeDiff: real,
                         priceDiff: real, liquidityDiff: real)

  /** `((to - from) / from) * 100` */
  function PercentChange(from: real, to: real): real
  {
    Div(to - from, from) * 100.0
  }

  /** A percent change applied to its base gives the new value back. */
  lemma PercentChangeRoundTrip(from: real, to: real)
    requires from != 0.0
    ensures from + from * PercentChange(from, to) / 100.0 == to
  {
    var q := Div(to - from, from);
    assert q * from == to - from;
    assert from * PercentChange(from, to) / 100.0 == from * q;
  }

  /** `calculateComparisonMetrics`: nothing until both periods hold data. */
  function ComparisonMetrics(d1: Option<FinancialMetrics>, d2: Option<FinancialMetrics>): (r: Option<Diffs>)
    ensures r.Some? <==> d1.Some? && d2.Some?
  {
    if d1.None? || d2.None? then None
    else
      var p1, p2 := d1.value, d2.value;
      Some(Diffs(p2.performance - p1.performance, p2.volatility - p1.volatility,
                 PercentChange(p1.volume, p2.volume), PercentChange(p1.close, p2.close),
                 PercentChange(p1.liquidity, p2.liquidity)))
  }

  /** The differences lead from the first period's figures to the second's. */
  lemma ComparisonRecoversSecond(p1: FinancialMetrics, p2: FinancialMetrics)
    ensures var d := ComparisonMetrics(Some(p1), Some(p2)).value;
      p1.performance + d.performanceDiff == p2.performance &&
      p1.volatility + d.volatilityDiff == p2.volatility &&
      (p1.volume != 0.0 ==> p1.volume + p1.volume * d.volumeDiff / 100.0 == p2.volume) &&
      (p1.close != 0.0 ==> p1.close + p1.close * d.priceDiff / 100.0 == p2.close) &&
      (p1.liquidity != 0.0 ==> p1.liquidity + p1.liquidity * d.liquidityDiff / 100.0 == p2.liquidity)
  {
    if p1.volume != 0.0 { PercentChangeRoundTrip(p1.volume, p2.volume); }
    if p1.close != 0.0 { PercentChangeRoundTrip(p1.close, p2.close); }
    if p1.liquidity != 0.0 { PercentChangeRoundTrip(p1.liquidity, p2.liquidity); }
  }

  lemma NoPercentChange(x: real)
    ensures PercentChange(x, x) == 0.0
  {
    assert x - x == 0.0;
    if x != 0.0 {
      assert Div(0.0, x) == 0.0 / x;
    }
  }

  /** Comparing a period with itself shows no difference at all. */
  lemma ComparisonWithItself(p: FinancialMetrics)
    ensures ComparisonMetrics(Some(p), Some(p)) == Some(Diffs(0.0, 0.0, 0.0, 0.0, 0.0))
  {
    NoPercentChange(p.volume);
    NoPercentChange(p.close);
    NoPercentChange(p.liquidity);
  }

  /** Swapping the periods negates the point differences. */
  lemma ComparisonSwapped(p1: FinancialMetrics, p2: FinancialMetrics)
    ensures var d, e := ComparisonMetrics(Some(p1), Some(p2)).value, ComparisonMetrics(Some(p2), Some(p1)).value;
      e.performanceDiff == -d.performanceDiff && e.volatilityDiff == -d.volatilityDiff
  {
  }

  // ----- Component state -----

  /** The calendar's range and comparison state. */
  class CalendarState {
    var customRange: Option<Range>
    var comparisonMode: bool
    var period1: Option<Pick>
    var period2: Option<Pick>
    var data1: Option<FinancialMetrics>
    var data2: Option<FinancialMetrics>

    /** A picked period always carries its data, the second pick follows the
        first, and the two picks differ. */
    ghost predicate Valid()
      reads this
    {
      (period1.Some? <==> data1.Some?) && (period2.Some? <==> data2.Some?) &&
      (period2.Some? ==> period1.Some? && period1.value != period2.value)
    }

    constructor ()
      ensures Valid()
      ensures customRange.None? && !comparisonMode
      ensures period1.None? && period2.None? && data1.None? && data2.None?
    {
      customRange := None;
      comparisonMode := false;
      period1, period2 := None, None;
      data1, data2 := None, None;
    }

    /** The comparison panel is on screen in comparison mode once both
        periods hold data. */
    predicate PanelShown()
      reads this
    {
      comparisonMode && data1.Some? && data2.Some?
    }

    /** `calculateComparisonMetrics` on the two slots: there are metrics
        exactly when both periods are picked, and a panel on screen
        compares two different periods. */
    function PanelMetrics(): (r: Option<Diffs>)
      reads this
      requires Valid()
      ensures r.Some? <==> period1.Some? && period2.Some?
      ensures PanelShown() ==> r.Some? && period1.value != period2.value
    {
      ComparisonMetrics(data1, data2)
    }

    /** The series on display. */
    function Display(data: seq<FinancialMetrics>): seq<FinancialMetrics>
      reads this
    {
      DisplayData(data, customRange)
    }

    /** `handleCustomDateRangeChange`: a start at the epoch clears the range. */
    method SetCustomRange(start: int, end: int)
      modifies this
      requires Valid()
      ensures Valid()
      ensures customRange == if start == 0 then None else Some(Range(start, end))
      ensures comparisonMode == old(comparisonMode)
      ensures period1 == old(period1) && period2 == old(period2)
      ensures data1 == old(data1) && data2 == old(data2)
    {
      if start == 0 {
        customRange := None;
      } else {
        customRange := Some(Range(start, end));
      }
    }

    /** `handleClearCustomRange`: the epoch as start, `now` as end. */
    method ClearCustomRange(now: int)
      modifies this
      requires Valid()
      ensures Valid()
      ensures customRange.None?
      ensures forall data :: Display(data) == data
      ensures comparisonMode == old(comparisonMode)
      ensures period1 == old(period1) && period2 == old(period2)
      ensures data1 == old(data1) && data2 == old(data2)
    {
      SetCustomRange(0, now);
    }

    /** `handleToggleComparisonMode`: leaving comparison mode clears both picks. */
    method ToggleComparisonMode()
      modifies this
      requires Valid()
      ensures Valid()
      ensures comparisonMode == !old(comparisonMode)
      ensures customRange == old(customRange)
      ensures old(comparisonMode) ==> period1.None? && period2.None? && data1.None? && data2.None?
      ensures !old(comparisonMode) ==>
        period1 == old(period1) && period2 == old(period2) && data1 == old(data1) && data2 == old(data2)
    {
      var wasOn := comparisonMode;
      comparisonMode := !comparisonMode;
      if wasOn {
        period1, period2 := None, None;
        data1, data2 := None, None;
      }
    }

    /** `handleClearComparison` */
    method ClearComparison()
      modifies this
      requires Valid()
      ensures Valid()
      ensures period1.None? && period2.None? && data1.None? && data2.None?
      ensures comparisonMode == old(comparisonMode) && customRange == old(customRange)
    {
      period1, period2 := None, None;
      data1, data2 := None, None;
    }

    /** `handleSelectComparisonPeriod`: a cell without data is ignored; the
        first pick fills the first slot, a different second pick the second;
        any further pick changes nothing. */
    method SelectComparisonPeriod(year: int, period: Period, displayData: seq<FinancialMetrics>, timeframe: Timeframe)
      modifies this
      requires Valid()
      ensures Valid()
      ensures comparisonMode == old(comparisonMode) && customRange == old(customRange)
      ensures var pick, found := Pick(year, period), DataForPeriod(displayData, year, period, timeframe);
        if found.Some? && old(period1).None? then
          period1 == Some(pick) && data1 == found && period2 == old(period2) && data2 == old(data2)
        else if found.Some? && old(period2).None? && old(period1) != Some(pick) then
          period2 == Some(pick) && data2 == found && period1 == old(period1) && data1 == old(data1)
        else
          period1 == old(period1) && period2 == old(period2) && data1 == old(data1) && data2 == old(data2)
    {
      var metrics := DataForPeriod(displayData, year, period, timeframe);
      if metrics.None? {
        return;
      }
      var pick := Pick(year, period);
      if period1.None? {
        period1, data1 := Some(pick), metrics;
      } else if period2.None? && period1.value != pick {
        period2, data2 := Some(pick), metrics;
      }
    }
  }
}
