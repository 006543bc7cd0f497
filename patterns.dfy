// Pattern detection of the background worker: seasonal patterns (one per
// calendar month), the recent trend, and performance anomalies, merged and
// ordered by confidence.

module Patterns {
  import opened Common
  import opened Calendar
  import opened Metrics
  import Indicators

  datatype Strength = Weak | Moderate | Strong

  /** The label a seasonal or trend confidence earns (strict comparisons). */
  function StrengthOf(confidence: real): (s: Strength)
    ensures s == Strong <==> confidence > 0.7
    ensures s == Moderate <==> 0.5 < confidence <= 0.7
    ensures s == Weak <==> confidence <= 0.5
  {
    if confidence > 0.7 then Strong else if confidence > 0.5 then Moderate else Weak
  }

  datatype Direction = Upward | Downward | Sideways

  /** The trend direction a regression slope stands for. */
  function DirectionOf(slope: real): (d: Direction)
    ensures d == Upward <==> slope > 0.01
    ensures d == Downward <==> slope < -0.01
    ensures d == Sideways <==> -0.01 <= slope <= 0.01
  {
    if slope > 0.01 then Upward else if slope < -0.01 then Downward else Sideways
  }

  /** The key `new Date(date).getMonth() + 1` groups an entry under: a month
      1..12, or NaN for a key the date parser rejects (week keys among them). */
  datatype MonthSlot = Month(month: int) | NotAMonth

  function MonthSlotOf(k: DateKey): (slot: MonthSlot)
    ensures slot.Month? ==> 1 <= slot.month <= 12
    ensures slot.Month? <==> ParsedDate(k).Some?
    ensures ParsedDate(k).Some? ==> slot == Month(ParsedDate(k).value.month)
  {
    match ParsedDate(k)
    case Some(d) => Month(d.month)
    case None => NotAMonth
  }

  /** What a pattern's id tells apart: `seasonal-<month>`, `trend-recent`,
      `anomaly-<index>` (the trend direction goes into its name). */
  datatype Kind = Seasonal(slot: MonthSlot) | Trend(direction: Direction) | Anomaly(index: nat)

  datatype PatternMetrics = PatternMetrics(performance: real, volatility: real, volume: real, price: real)

  datatype Pattern = Pattern(
    kind: Kind,
    confidence: real,
    metrics: PatternMetrics,
    occurrences: nat,
    lastOccurrence: DateKey,
    strength: Strength)

  /** Some pattern of `s` is of kind `kind`. */
  ghost predicate HasKind(s: seq<Pattern>, kind: Kind)
  {
    exists i :: 0 <= i < |s| && s[i].kind == kind
  }

  lemma HasKindAppend(s: seq<Pattern>, t: seq<Pattern>, kind: Kind)
    requires HasKind(s, kind)
    ensures HasKind(s + t, kind)
  {
    var i :| 0 <= i < |s| && s[i].kind == kind;
    assert (s + t)[i] == s[i];
  }

  lemma HasKindLast(s: seq<Pattern>, p: Pattern)
    ensures HasKind(s + [p], p.kind)
  {
    assert (s + [p])[|s|] == p;
  }

  /** No two patterns of `s` share a kind, so no two share an id. */
  ghost predicate DistinctKinds(s: seq<Pattern>)
  {
    forall i, j :: 0 <= i < j < |s| ==> s[i].kind != s[j].kind
  }

  lemma DistinctKindsAppend(s: seq<Pattern>, t: seq<Pattern>)
    requires DistinctKinds(s) && |t| <= 1
    requires forall i :: 0 <= i < |s| && |t| == 1 ==> s[i].kind != t[0].kind
    ensures DistinctKinds(s + t)
  {
    forall i, j | 0 <= i < j < |s + t| ensures (s + t)[i].kind != (s + t)[j].kind {
      assert (s + t)[i] == s[i];
      if j < |s| {
        assert (s + t)[j] == s[j];
      }
    }
  }

  /** `reduce((sum, d) => sum + f(d), 0) / length`. */
  function AverageOf(s: seq<FinancialMetrics>, f: FinancialMetrics -> real): real
  {
    Mean(Project(s, f))
  }

  // ----- Least-squares slope -----

  /** 0 + 1 + ... + (n - 1): the sum of the indices. */
  function IndexSum(n: nat): real
  {
    if n == 0 then 0.0 else IndexSum(n - 1) + (n - 1) as real
  }

  /** The sum of the squared indices below n. */
  function IndexSquareSum(n: nat): real
  {
    if n == 0 then 0.0 else IndexSquareSum(n - 1) + ((n - 1) as real) * ((n - 1) as real)
  }

  /** The sum of i * values[i]. */
  function IndexWeightedSum(values: seq<real>): real
  {
    if |values| == 0 then 0.0
    else IndexWeightedSum(values[..|values| - 1]) + ((|values| - 1) as real) * values[|values| - 1]
  }

  /** `(n * sumXY - sumX * sumY) / (n * sumX2 - sumX * sumX)`. */
  function SlopeFormula(n: real, sumX: real, sumY: real, sumXY: real, sumX2: real): real
  {
    Div(n * sumXY - sumX * sumY, n * sumX2 - sumX * sumX)
  }

  /** `calculateLinearRegression`: the slope of the least-squares line
      through the points (i, values[i]). */
  function Slope(values: seq<real>): real
  {
    SlopeFormula(|values| as real, IndexSum(|values|), Sum(values),
                 IndexWeightedSum(values), IndexSquareSum(|values|))
  }

  lemma {:induction false} IndexSumClosed(n: nat)
    ensures 2.0 * IndexSum(n) == (n as real) * (n as real - 1.0)
  {
    if n > 0 {
      IndexSumClosed(n - 1);
    }
  }

  lemma {:induction false} IndexSquareSumClosed(n: nat)
    ensures 6.0 * IndexSquareSum(n) == (n as real) * (n as real - 1.0) * (2.0 * (n as real) - 1.0)
  {
    if n > 0 {
      IndexSquareSumClosed(n - 1);
      var m := (n - 1) as real;
      assert 6.0 * IndexSquareSum(n) == m * (m - 1.0) * (2.0 * m - 1.0) + 6.0 * m * m;
      assert m * (m - 1.0) * (2.0 * m - 1.0) + 6.0 * m * m == m * (m + 1.0) * (2.0 * m + 1.0);
    }
  }

  /** The slope's denominator is n²(n² − 1)/12, positive from two points on.
      (The sums are passed by name: products of the recursive sums themselves
      send the solver's nonlinear arithmetic astray.) */
  lemma RegressionDenominator(n: nat, m: real, x: real, x2: real)
    requires n >= 2 && m == n as real && x == IndexSum(n) && x2 == IndexSquareSum(n)
    ensures m * x2 - x * x > 0.0
  {
    IndexSumClosed(n);
    IndexSquareSumClosed(n);
    assert 2.0 * x == m * (m - 1.0);
    assert 6.0 * x2 == m * (m - 1.0) * (2.0 * m - 1.0);
    assert 12.0 * (m * x2 - x * x) == 2.0 * m * (6.0 * x2) - 3.0 * (2.0 * x) * (2.0 * x);
    assert 12.0 * (m * x2 - x * x) == m * m * ((m - 1.0) * (m + 1.0));
    assert m * m > 0.0;
    assert (m - 1.0) * (m + 1.0) > 0.0;
  }

  /** The points of a line a + b*i. */
  ghost predicate OnLine(values: seq<real>, a: real, b: real)
  {
    forall i :: 0 <= i < |values| ==> values[i] == a + b * (i as real)
  }

  /** How each running sum grows by the last value. */
  lemma SumStep(values: seq<real>, p: seq<real>, y: real)
    requires |values| > 0 && p == values[..|values| - 1] && y == values[|values| - 1]
    ensures Sum(values) == Sum(p) + y
  {
  }

  lemma WeightedStep(values: seq<real>, p: seq<real>, k: real, y: real)
    requires |values| > 0 && p == values[..|values| - 1] && y == values[|values| - 1]
    requires k == (|values| - 1) as real
    ensures IndexWeightedSum(values) == IndexWeightedSum(p) + k * y
  {
  }

  lemma IndexStep(n: nat, k: real)
    requires n > 0 && k == (n - 1) as real
    ensures IndexSum(n) == IndexSum(n - 1) + k
    ensures IndexSquareSum(n) == IndexSquareSum(n - 1) + k * k
  {
  }

  lemma LineStepAlgebra(n: real, k: real, a: real, b: real, y: real,
                        sum: real, sumP: real, weighted: real, weightedP: real,
                        x: real, xp: real, x2: real, x2p: real)
    requires n == k + 1.0 && y == a + b * k
    requires sumP == k * a + b * xp && weightedP == a * xp + b * x2p
    requires sum == sumP + y && weighted == weightedP + k * y
    requires x == xp + k && x2 == x2p + k * k
    ensures sum == n * a + b * x
    ensures weighted == a * x + b * x2
  {
    assert k * y == a * k + b * (k * k);
  }

  /** One more point on the line extends the sums of the points before it. */
  lemma LineSumsStep(values: seq<real>, p: seq<real>, a: real, b: real,
                     n: real, k: real, x: real, xp: real, x2: real, x2p: real)
    requires |values| > 0 && p == values[..|values| - 1]
    requires n == |values| as real && k == (|values| - 1) as real
    requires x == IndexSum(|values|) && x2 == IndexSquareSum(|values|)
    requires xp == IndexSum(|p|) && x2p == IndexSquareSum(|p|)
    requires values[|values| - 1] == a + b * k
    requires Sum(p) == k * a + b * xp && IndexWeightedSum(p) == a * xp + b * x2p
    ensures Sum(values) == n * a + b * x
    ensures IndexWeightedSum(values) == a * x + b * x2
  {
    var y := values[|values| - 1];
    SumStep(values, p, y);
    WeightedStep(values, p, k, y);
    IndexStep(|values|, k);
    LineStepAlgebra(n, k, a, b, y, Sum(values), Sum(p), IndexWeightedSum(values), IndexWeightedSum(p), x, xp, x2, x2p);
  }

  /** The sums of n points on a line a + b*i. */
  lemma {:induction false} SumsOfLine(values: seq<real>, a: real, b: real, n: real, x: real, x2: real)
    requires OnLine(values, a, b)
    requires n == |values| as real && x == IndexSum(|values|) && x2 == IndexSquareSum(|values|)
    ensures Sum(values) == n * a + b * x
    ensures IndexWeightedSum(values) == a * x + b * x2
  {
    if |values| > 0 {
      var p := values[..|values| - 1];
      assert OnLine(p, a, b);
      var k := (|values| - 1) as real;
      var xp := IndexSum(|p|);
      var x2p := IndexSquareSum(|p|);
      SumsOfLine(p, a, b, k, xp, x2p);
      LineSumsStep(values, p, a, b, n, k, x, xp, x2, x2p);
    }
  }

  lemma CancelPositive(x: real, y: real, d: real)
    requires d > 0.0 && x * d == y * d
    ensures x == y
  {
    assert (x - y) * d == 0.0;
  }

  /** The slope formula returns b on the sums of points of a line a + b*i. */
  lemma SlopeOfLineSums(n: real, sumX: real, sumY: real, sumXY: real, sumX2: real, a: real, b: real)
    requires n * sumX2 - sumX * sumX > 0.0
    requires sumY == n * a + b * sumX
    requires sumXY == a * sumX + b * sumX2
    ensures SlopeFormula(n, sumX, sumY, sumXY, sumX2) == b
  {
    var d := n * sumX2 - sumX * sumX;
    assert n * sumXY == n * a * sumX + n * b * sumX2;
    assert sumX * sumY == sumX * n * a + sumX * b * sumX;
    assert n * sumXY - sumX * sumY == b * d;
    CancelPositive(SlopeFormula(n, sumX, sumY, sumXY, sumX2), b, d);
  }

  /** The regression recovers the slope of points that lie on a line. */
  lemma SlopeOfLine(values: seq<real>, a: real, b: real)
    requires |values| >= 2 && OnLine(values, a, b)
    ensures Slope(values) == b
  {
    var n := |values| as real;
    var x := IndexSum(|values|);
    var x2 := IndexSquareSum(|values|);
    SumsOfLine(values, a, b, n, x, x2);
    RegressionDenominator(|values|, n, x, x2);
    SlopeOfLineSums(n, x, Sum(values), IndexWeightedSum(values), x2, a, b);
  }

  /** Constant values have slope 0. */
  lemma SlopeOfConstant(values: seq<real>, c: real)
    requires |values| >= 2 && forall i :: 0 <= i < |values| ==> values[i] == c
    ensures Slope(values) == 0.0
  {
    assert OnLine(values, c, 0.0);
    SlopeOfLine(values, c, 0.0);
  }

  // ----- Seasonal patterns -----

  /** The entries grouped under `slot`, in input order. */
  function MonthMembers(data: seq<FinancialMetrics>, slot: MonthSlot): (r: seq<FinancialMetrics>)
    ensures |r| <= |data|
  {
    if |data| == 0 then []
    else MonthMembers(data[..|data| - 1], slot)
         + (if MonthSlotOf(data[|data| - 1].date) == slot then [data[|data| - 1]] else [])
  }

  /** `max(0, 1 - variance/100)` of the group's performances. */
  function SeasonalConfidence(members: seq<FinancialMetrics>): real
  {
    Max(0.0, 1.0 - Variance(Project(members, Performance)) / 100.0)
  }

  function SeasonalPatternOf(slot: MonthSlot, members: seq<FinancialMetrics>): Pattern
    requires |members| > 0
  {
    var confidence := SeasonalConfidence(members);
    Pattern(Seasonal(slot), confidence,
      PatternMetrics(AverageOf(members, Performance), AverageOf(members, Volatility),
                     AverageOf(members, Volume), AverageOf(members, Close)),
      |members|, members[|members| - 1].date, StrengthOf(confidence))
  }

  /** The pattern a month group yields, if any. */
  function SeasonalFor(slot: MonthSlot, members: seq<FinancialMetrics>): Option<Pattern>
  {
    if |members| >= 3 && SeasonalConfidence(members) >= 0.3
    then Some(SeasonalPatternOf(slot, members))
    else None
  }

  /** The order `Object.entries` lists the groups in: the integer keys
      ascending, then the string key "NaN". */
  function SlotOrder(): (r: seq<MonthSlot>)
    ensures |r| == 13
    ensures forall m :: 1 <= m <= 12 ==> r[m - 1] == Month(m)
    ensures r[12] == NotAMonth
  {
    seq(12, i => Month(i + 1)) + [NotAMonth]
  }

  function OptionSeq<T>(o: Option<T>): (r: seq<T>)
    ensures |r| <= 1
  {
    if o.Some? then [o.value] else []
  }

  /** The seasonal patterns of the groups `slots`, in that order. */
  function Seasonals(slots: seq<MonthSlot>, data: seq<FinancialMetrics>): seq<Pattern>
  {
    if |slots| == 0 then []
    else Seasonals(slots[..|slots| - 1], data)
         + OptionSeq(SeasonalFor(slots[|slots| - 1], MonthMembers(data, slots[|slots| - 1])))
  }

  /** `detectMonthlyPatterns`. */
  function MonthlyPatterns(data: seq<FinancialMetrics>): seq<Pattern>
  {
    Seasonals(SlotOrder(), data)
  }

  /** The grouping loop: one list per month key, each in input order. */
  method GroupByMonth(data: seq<FinancialMetrics>) returns (monthly: map<MonthSlot, seq<FinancialMetrics>>)
    ensures forall slot :: slot in monthly <==> MonthMembers(data, slot) != []
    ensures forall slot :: slot in monthly ==> monthly[slot] == MonthMembers(data, slot)
  {
    monthly := map[];
    for k := 0 to |data|
      invariant forall slot :: slot in monthly <==> MonthMembers(data[..k], slot) != []
      invariant forall slot :: slot in monthly ==> monthly[slot] == MonthMembers(data[..k], slot)
    {
      assert data[..k + 1][..k] == data[..k];
      var item := data[k];
      var month := MonthSlotOf(item.date);
      if month !in monthly {
        monthly := monthly[month := []];
      }
      monthly := monthly[month := monthly[month] + [item]];
    }
    assert data[..|data|] == data;
  }

  method DetectMonthlyPatterns(data: seq<FinancialMetrics>) returns (patterns: seq<Pattern>)
    ensures patterns == MonthlyPatterns(data)
  {
    var monthly := GroupByMonth(data);
    patterns := [];
    var order := SlotOrder();
    for k := 0 to |order|
      invariant patterns == Seasonals(order[..k], data)
    {
      assert order[..k + 1][..k] == order[..k];
      var month := order[k];
      if month in monthly {
        var monthData := monthly[month];
        if |monthData| >= 3 {
          var confidence := SeasonalConfidence(monthData);
          if confidence >= 0.3 {
            patterns := patterns + [SeasonalPatternOf(month, monthData)];
          }
        }
      }
    }
    assert order[..|order|] == order;
  }

  /** A seasonal pattern has confidence in [0.3, 1] and counts at least
      three occurrences: every member of its group. */
  lemma SeasonalForFacts(slot: MonthSlot, members: seq<FinancialMetrics>)
    requires SeasonalFor(slot, members).Some?
    ensures SeasonalFor(slot, members).value.kind == Seasonal(slot)
    ensures 0.3 <= SeasonalFor(slot, members).value.confidence
    ensures SeasonalFor(slot, members).value.confidence <= 1.0
    ensures SeasonalFor(slot, members).value.occurrences == |members| >= 3
    ensures SeasonalFor(slot, members).value.lastOccurrence == members[|members| - 1].date
  {
    VarianceNonNegative(Project(members, Performance));
  }

  /** A month whose performances never vary is a strong pattern of full confidence. */
  lemma SteadyMonthIsStrong(slot: MonthSlot, members: seq<FinancialMetrics>, c: real)
    requires |members| >= 3
    requires forall i :: 0 <= i < |members| ==> members[i].performance == c
    ensures SeasonalFor(slot, members).Some?
    ensures SeasonalFor(slot, members).value.confidence == 1.0
    ensures SeasonalFor(slot, members).value.strength == Strong
    ensures SeasonalFor(slot, members).value.metrics.performance == c
  {
    var perfs := Project(members, Performance);
    VarianceOfConstant(perfs, c);
  }

  /** `p` is the pattern of one of the groups `slots`. */
  ghost predicate SeasonalOf(p: Pattern, slots: seq<MonthSlot>, data: seq<FinancialMetrics>)
  {
    p.kind.Seasonal? && p.kind.slot in slots
    && SeasonalFor(p.kind.slot, MonthMembers(data, p.kind.slot)) == Some(p)
  }

  /** The seasonal list holds only patterns of its groups, at most one each. */
  lemma {:induction false} SeasonalsSound(slots: seq<MonthSlot>, data: seq<FinancialMetrics>)
    ensures |Seasonals(slots, data)| <= |slots|
    ensures forall i :: 0 <= i < |Seasonals(slots, data)| ==> SeasonalOf(Seasonals(slots, data)[i], slots, data)
  {
    if |slots| > 0 {
      var init := slots[..|slots| - 1];
      var last := slots[|slots| - 1];
      SeasonalsSound(init, data);
      var prev := Seasonals(init, data);
      var r := Seasonals(slots, data);
      assert r == prev + OptionSeq(SeasonalFor(last, MonthMembers(data, last)));
      forall i | 0 <= i < |r| ensures SeasonalOf(r[i], slots, data) {
        if i < |prev| {
          assert r[i] == prev[i];
          assert SeasonalOf(prev[i], init, data);
        } else {
          SeasonalForFacts(last, MonthMembers(data, last));
        }
      }
    }
  }

  /** Over distinct groups no two seasonal patterns share a month key. */
  lemma {:induction false} SeasonalsDistinct(slots: seq<MonthSlot>, data: seq<FinancialMetrics>)
    requires forall i, j :: 0 <= i < j < |slots| ==> slots[i] != slots[j]
    ensures DistinctKinds(Seasonals(slots, data))
  {
    if |slots| > 0 {
      var init := slots[..|slots| - 1];
      var last := slots[|slots| - 1];
      SeasonalsDistinct(init, data);
      SeasonalsSound(init, data);
      var prev := Seasonals(init, data);
      var extra := OptionSeq(SeasonalFor(last, MonthMembers(data, last)));
      assert Seasonals(slots, data) == prev + extra;
      assert last !in init;
      if |extra| == 1 {
        SeasonalForFacts(last, MonthMembers(data, last));
        forall i | 0 <= i < |prev| ensures prev[i].kind != extra[0].kind {
          assert SeasonalOf(prev[i], init, data);
        }
      }
      DistinctKindsAppend(prev, extra);
    }
  }

  /** Every group that yields a pattern has it in the seasonal list. */
  lemma {:induction false} SeasonalsComplete(slots: seq<MonthSlot>, data: seq<FinancialMetrics>)
    ensures forall slot :: slot in slots && SeasonalFor(slot, MonthMembers(data, slot)).Some? ==>
      HasKind(Seasonals(slots, data), Seasonal(slot))
  {
    if |slots| > 0 {
      var init := slots[..|slots| - 1];
      var last := slots[|slots| - 1];
      SeasonalsComplete(init, data);
      var prev := Seasonals(init, data);
      var o := SeasonalFor(last, MonthMembers(data, last));
      assert Seasonals(slots, data) == prev + OptionSeq(o);
      forall slot | slot in slots && SeasonalFor(slot, MonthMembers(data, slot)).Some?
        ensures HasKind(prev + OptionSeq(o), Seasonal(slot))
      {
        if slot == last {
          SeasonalForFacts(last, MonthMembers(data, last));
          HasKindLast(prev, o.value);
        } else {
          assert slot in init;
          HasKindAppend(prev, OptionSeq(o), Seasonal(slot));
        }
      }
    }
  }

  /** `detectMonthlyPatterns` emits at most one pattern per month key, each
      with confidence in [0.3, 1] and at least three occurrences, and one for
      every month group that has three entries and enough consistency. */
  lemma MonthlyFacts(data: seq<FinancialMetrics>)
    ensures |MonthlyPatterns(data)| <= 13
    ensures forall i :: 0 <= i < |MonthlyPatterns(data)| ==>
      var p := MonthlyPatterns(data)[i];
      p.kind.Seasonal? && 0.3 <= p.confidence <= 1.0 && p.occurrences >= 3
      && p.occurrences == |MonthMembers(data, p.kind.slot)|
    ensures DistinctKinds(MonthlyPatterns(data))
    ensures forall e :: e in data && SeasonalFor(MonthSlotOf(e.date), MonthMembers(data, MonthSlotOf(e.date))).Some? ==>
      HasKind(MonthlyPatterns(data), Seasonal(MonthSlotOf(e.date)))
  {
    var order := SlotOrder();
    forall i, j | 0 <= i < j < |order| ensures order[i] != order[j] {
      if j < 12 {
        assert order[i] == Month(i + 1) && order[j] == Month(j + 1);
      }
    }
    SeasonalsSound(order, data);
    SeasonalsDistinct(order, data);
    SeasonalsComplete(order, data);
    var r := MonthlyPatterns(data);
    forall i | 0 <= i < |r|
      ensures r[i].kind.Seasonal? && 0.3 <= r[i].confidence <= 1.0 && r[i].occurrences >= 3
      ensures r[i].occurrences == |MonthMembers(data, r[i].kind.slot)|
    {
      assert SeasonalOf(r[i], order, data);
      SeasonalForFacts(r[i].kind.slot, MonthMembers(data, r[i].kind.slot));
    }
    forall e | e in data ensures MonthSlotOf(e.date) in order {
      var slot := MonthSlotOf(e.date);
      if slot.Month? {
        assert order[slot.month - 1] == slot;
      } else {
        assert order[12] == slot;
      }
    }
  }

  // ----- Trend pattern -----

  /** The single trend pattern over a window of recent entries. */
  function TrendPatternOf(window: seq<FinancialMetrics>): Pattern
    requires |window| > 0
  {
    var prices := Indicators.Closes(window);
    var slope := Slope(prices);
    var confidence := Min(1.0, Abs(slope) * 100.0);
    Pattern(Trend(DirectionOf(slope)), confidence,
      PatternMetrics(AverageOf(window, Performance), AverageOf(window, Volatility),
                     AverageOf(window, Volume), prices[|prices| - 1]),
      1, window[|window| - 1].date, StrengthOf(confidence))
  }

  /** `detectTrendPatterns`: nothing below ten entries, otherwise the trend
      of the last thirty. */
  function TrendPatterns(data: seq<FinancialMetrics>): seq<Pattern>
  {
    if |data| < 10 then [] else [TrendPatternOf(Last(data, 30))]
  }

  /** From ten entries on there is exactly one trend pattern; it reports the
      series' last close and date and a confidence in [0, 1]. */
  lemma TrendFacts(data: seq<FinancialMetrics>)
    ensures |data| < 10 ==> TrendPatterns(data) == []
    ensures |data| >= 10 ==> |TrendPatterns(data)| == 1
    ensures |data| >= 10 ==>
      var p := TrendPatterns(data)[0];
      p.kind.Trend? && p.occurrences == 1
      && p.metrics.price == data[|data| - 1].close
      && p.lastOccurrence == data[|data| - 1].date
      && 0.0 <= p.confidence <= 1.0
  {
    if |data| >= 10 {
      var w := Last(data, 30);
      assert w[|w| - 1] == data[|data| - 1];
    }
  }

  /** When the closes of the window rise or fall along a line of slope b, the
      direction follows b's sign beyond ±0.01 and the confidence is
      min(1, 100|b|). */
  lemma TrendOfLine(data: seq<FinancialMetrics>, a: real, b: real)
    requires |data| >= 10
    requires OnLine(Indicators.Closes(Last(data, 30)), a, b)
    ensures TrendPatterns(data)[0].kind == Trend(DirectionOf(b))
    ensures TrendPatterns(data)[0].confidence == Min(1.0, Abs(b) * 100.0)
    ensures b > 0.01 ==> TrendPatterns(data)[0].kind == Trend(Upward)
    ensures b < -0.01 ==> TrendPatterns(data)[0].kind == Trend(Downward)
  {
    SlopeOfLine(Indicators.Closes(Last(data, 30)), a, b);
  }

  /** Flat closes make a sideways trend of confidence 0. */
  lemma FlatTrend(data: seq<FinancialMetrics>, c: real)
    requires |data| >= 10
    requires forall i :: 0 <= i < |data| ==> data[i].close == c
    ensures TrendPatterns(data)[0].kind == Trend(Sideways)
    ensures TrendPatterns(data)[0].confidence == 0.0
    ensures TrendPatterns(data)[0].strength == Weak
  {
    var prices := Indicators.Closes(Last(data, 30));
    assert OnLine(prices, c, 0.0);
    TrendOfLine(data, c, 0.0);
  }

  // ----- Anomaly patterns -----

  /** `|(p - mean) / std|`. */
  function ZScore(p: real, mean: real, std: real): (z: real)
    ensures z >= 0.0
  {
    Abs(Div(p - mean, std))
  }

  /** The pattern an entry whose z-score exceeds 2 yields. */
  function AnomalyOf(item: FinancialMetrics, index: nat, z: real): (p: Pattern)
    requires z > 2.0
    ensures 0.5 < p.confidence <= 1.0
    ensures p.strength == Strong <==> z > 3.0
    ensures p.strength != Weak
  {
    Pattern(Anomaly(index), Min(1.0, z / 4.0),
      PatternMetrics(item.performance, item.volatility, item.volume, item.close),
      1, item.date, if z > 3.0 then Strong else Moderate)
  }

  /** The anomalies among the first entries of a series, by position. */
  function AnomaliesFrom(prefix: seq<FinancialMetrics>, mean: real, std: real): seq<Pattern>
  {
    if |prefix| == 0 then []
    else
      var i := |prefix| - 1;
      var z := ZScore(prefix[i].performance, mean, std);
      AnomaliesFrom(prefix[..i], mean, std) + (if z > 2.0 then [AnomalyOf(prefix[i], i, z)] else [])
  }

  /** `detectAnomalyPatterns`: z-scores against the population mean and
      standard deviation of the performances. */
  function AnomalyPatterns(data: seq<FinancialMetrics>, sqrt: real -> real): seq<Pattern>
  {
    if |data| < 20 then []
    else
      var performances := Project(data, Performance);
      AnomaliesFrom(data, Mean(performances), sqrt(Variance(performances)))
  }

  method DetectAnomalyPatterns(data: seq<FinancialMetrics>, sqrt: real -> real) returns (patterns: seq<Pattern>)
    ensures patterns == AnomalyPatterns(data, sqrt)
  {
    patterns := [];
    if |data| < 20 {
      return;
    }
    var performances := Project(data, Performance);
    var mean := Mean(performances);
    var std := sqrt(Variance(performances));
    for index := 0 to |data|
      invariant patterns == AnomaliesFrom(data[..index], mean, std)
    {
      assert data[..index + 1][..index] == data[..index];
      var item := data[index];
      var zScore := ZScore(item.performance, mean, std);
      if zScore > 2.0 {
        patterns := patterns + [AnomalyOf(item, index, zScore)];
      }
    }
    assert data[..|data|] == data;
  }

  /** `p` is the anomaly pattern of an entry of `prefix` whose z-score exceeds 2. */
  ghost predicate AnomalyAt(p: Pattern, prefix: seq<FinancialMetrics>, mean: real, std: real)
  {
    p.kind.Anomaly? && p.kind.index < |prefix|
    && ZScore(prefix[p.kind.index].performance, mean, std) > 2.0
    && p == AnomalyOf(prefix[p.kind.index], p.kind.index, ZScore(prefix[p.kind.index].performance, mean, std))
  }

  lemma AnomalyAtExtends(p: Pattern, prefix: seq<FinancialMetrics>, init: seq<FinancialMetrics>, mean: real, std: real)
    requires |init| <= |prefix| && init == prefix[..|init|]
    requires AnomalyAt(p, init, mean, std)
    ensures AnomalyAt(p, prefix, mean, std)
  {
    assert init[p.kind.index] == prefix[p.kind.index];
  }

  /** Every anomaly stands for an entry whose z-score exceeds 2. */
  lemma {:induction false} AnomaliesSound(prefix: seq<FinancialMetrics>, mean: real, std: real)
    ensures |AnomaliesFrom(prefix, mean, std)| <= |prefix|
    ensures forall i :: 0 <= i < |AnomaliesFrom(prefix, mean, std)| ==>
      AnomalyAt(AnomaliesFrom(prefix, mean, std)[i], prefix, mean, std)
  {
    if |prefix| > 0 {
      var n := |prefix| - 1;
      var init := prefix[..n];
      AnomaliesSound(init, mean, std);
      var prev := AnomaliesFrom(init, mean, std);
      var r := AnomaliesFrom(prefix, mean, std);
      var z := ZScore(prefix[n].performance, mean, std);
      assert r == prev + (if z > 2.0 then [AnomalyOf(prefix[n], n, z)] else []);
      forall i | 0 <= i < |r| ensures AnomalyAt(r[i], prefix, mean, std) {
        if i < |prev| {
          assert r[i] == prev[i];
          AnomalyAtExtends(prev[i], prefix, init, mean, std);
        }
      }
    }
  }

  /** Anomalies come in input order. */
  lemma {:induction false} AnomaliesOrdered(prefix: seq<FinancialMetrics>, mean: real, std: real)
    ensures forall i :: 0 <= i < |AnomaliesFrom(prefix, mean, std)| ==>
      AnomaliesFrom(prefix, mean, std)[i].kind.Anomaly?
    ensures forall i, j :: 0 <= i < j < |AnomaliesFrom(prefix, mean, std)| ==>
      AnomaliesFrom(prefix, mean, std)[i].kind.index < AnomaliesFrom(prefix, mean, std)[j].kind.index
  {
    if |prefix| > 0 {
      var n := |prefix| - 1;
      var init := prefix[..n];
      AnomaliesOrdered(init, mean, std);
      AnomaliesSound(init, mean, std);
      var prev := AnomaliesFrom(init, mean, std);
      var r := AnomaliesFrom(prefix, mean, std);
      var z := ZScore(prefix[n].performance, mean, std);
      assert r == prev + (if z > 2.0 then [AnomalyOf(prefix[n], n, z)] else []);
      forall i | 0 <= i < |r| ensures r[i].kind.Anomaly? {
        if i < |prev| {
          assert r[i] == prev[i];
        }
      }
      forall i, j | 0 <= i < j < |r| ensures r[i].kind.index < r[j].kind.index {
        assert r[i] == prev[i];
        if j < |prev| {
          assert r[j] == prev[j];
        } else {
          assert AnomalyAt(prev[i], init, mean, std);
        }
      }
    }
  }

  /** Every entry whose z-score exceeds 2 has its anomaly. */
  lemma {:induction false} AnomaliesComplete(prefix: seq<FinancialMetrics>, mean: real, std: real)
    ensures forall k :: 0 <= k < |prefix| && ZScore(prefix[k].performance, mean, std) > 2.0 ==>
      HasKind(AnomaliesFrom(prefix, mean, std), Anomaly(k))
  {
    if |prefix| > 0 {
      var n := |prefix| - 1;
      var init := prefix[..n];
      AnomaliesComplete(init, mean, std);
      var prev := AnomaliesFrom(init, mean, std);
      var z := ZScore(prefix[n].performance, mean, std);
      var extra := if z > 2.0 then [AnomalyOf(prefix[n], n, z)] else [];
      assert AnomaliesFrom(prefix, mean, std) == prev + extra;
      forall k | 0 <= k < |prefix| && ZScore(prefix[k].performance, mean, std) > 2.0
        ensures HasKind(prev + extra, Anomaly(k))
      {
        if k == n {
          HasKindLast(prev, AnomalyOf(prefix[n], n, z));
        } else {
          assert init[k] == prefix[k];
          HasKindAppend(prev, extra, Anomaly(k));
        }
      }
    }
  }

  /** Where no z-score exceeds 2 there is no anomaly. */
  lemma {:induction false} NoAnomalies(prefix: seq<FinancialMetrics>, mean: real, std: real)
    requires forall k :: 0 <= k < |prefix| ==> ZScore(prefix[k].performance, mean, std) <= 2.0
    ensures AnomaliesFrom(prefix, mean, std) == []
  {
    if |prefix| > 0 {
      var init := prefix[..|prefix| - 1];
      assert forall k :: 0 <= k < |init| ==> init[k] == prefix[k];
      NoAnomalies(init, mean, std);
    }
  }

  /** A series whose performance never moves has no anomalies (the source
      divides 0 by 0 there; NaN is not above 2 either). */
  lemma SteadySeriesHasNoAnomalies(data: seq<FinancialMetrics>, sqrt: real -> real, c: real)
    requires Indicators.IsSqrt(sqrt)
    requires forall i :: 0 <= i < |data| ==> data[i].performance == c
    ensures AnomalyPatterns(data, sqrt) == []
  {
    if |data| >= 20 {
      var performances := Project(data, Performance);
      VarianceOfConstant(performances, c);
      var mean := Mean(performances);
      var std := sqrt(Variance(performances));
      forall k | 0 <= k < |data| ensures ZScore(data[k].performance, mean, std) <= 2.0 {
      }
      NoAnomalies(data, mean, std);
    }
  }

  // ----- All patterns -----

  /** The sort key of `sort((a, b) => b.confidence - a.confidence)`. */
  function ByConfidence(p: Pattern): real
  {
    -p.confidence
  }

  /** Seasonal, then trend, then anomaly patterns, before sorting. */
  function Unsorted(data: seq<FinancialMetrics>, sqrt: real -> real): seq<Pattern>
  {
    MonthlyPatterns(data) + TrendPatterns(data) + AnomalyPatterns(data, sqrt)
  }

  /** `detectSimplePatterns`. */
  function SimplePatterns(data: seq<FinancialMetrics>, sqrt: real -> real): seq<Pattern>
  {
    if |data| < 20 then [] else SortBy(Unsorted(data, sqrt), ByConfidence)
  }

  lemma SeasonalConfidences(data: seq<FinancialMetrics>)
    ensures forall i :: 0 <= i < |MonthlyPatterns(data)| ==>
      0.3 <= MonthlyPatterns(data)[i].confidence <= 1.0
  {
    MonthlyFacts(data);
  }

  /** An anomaly's confidence lies in (0.5, 1]. */
  lemma AnomalyConfidences(data: seq<FinancialMetrics>, sqrt: real -> real)
    ensures forall i :: 0 <= i < |AnomalyPatterns(data, sqrt)| ==>
      0.5 < AnomalyPatterns(data, sqrt)[i].confidence <= 1.0
  {
    if |data| >= 20 {
      var performances := Project(data, Performance);
      var r := AnomaliesFrom(data, Mean(performances), sqrt(Variance(performances)));
      AnomaliesSound(data, Mean(performances), sqrt(Variance(performances)));
      forall i | 0 <= i < |r| ensures 0.5 < r[i].confidence <= 1.0 {
        assert AnomalyAt(r[i], data, Mean(performances), sqrt(Variance(performances)));
      }
    }
  }

  ghost predicate ConfidencesWithin(s: seq<Pattern>, lo: real, hi: real)
  {
    forall i :: 0 <= i < |s| ==> lo <= s[i].confidence <= hi
  }

  lemma ConfidencesOfConcat(s: seq<Pattern>, t: seq<Pattern>, lo: real, hi: real)
    requires ConfidencesWithin(s, lo, hi) && ConfidencesWithin(t, lo, hi)
    ensures ConfidencesWithin(s + t, lo, hi)
  {
    forall i | 0 <= i < |s + t| ensures lo <= (s + t)[i].confidence <= hi {
      if i >= |s| {
        assert (s + t)[i] == t[i - |s|];
      }
    }
  }

  /** Every pattern before sorting has a confidence in [0, 1]. */
  lemma UnsortedConfidences(data: seq<FinancialMetrics>, sqrt: real -> real)
    ensures ConfidencesWithin(Unsorted(data, sqrt), 0.0, 1.0)
  {
    var monthly := MonthlyPatterns(data);
    var trend := TrendPatterns(data);
    var anomalies := AnomalyPatterns(data, sqrt);
    SeasonalConfidences(data);
    assert ConfidencesWithin(monthly, 0.0, 1.0);
    TrendFacts(data);
    assert ConfidencesWithin(trend, 0.0, 1.0);
    AnomalyConfidences(data, sqrt);
    assert ConfidencesWithin(anomalies, 0.0, 1.0);
    ConfidencesOfConcat(monthly, trend, 0.0, 1.0);
    ConfidencesOfConcat(monthly + trend, anomalies, 0.0, 1.0);
  }

  /** Below twenty entries nothing is detected; otherwise the result holds
      every seasonal, trend and anomaly pattern (exactly one trend), by
      non-increasing confidence. */
  lemma SimplePatternsFacts(data: seq<FinancialMetrics>, sqrt: real -> real)
    ensures |data| < 20 ==> SimplePatterns(data, sqrt) == []
    ensures forall i, j :: 0 <= i < j < |SimplePatterns(data, sqrt)| ==>
      SimplePatterns(data, sqrt)[i].confidence >= SimplePatterns(data, sqrt)[j].confidence
    ensures |data| >= 20 ==> multiset(SimplePatterns(data, sqrt)) == multiset(Unsorted(data, sqrt))
    ensures |data| >= 20 ==>
      |SimplePatterns(data, sqrt)| == |MonthlyPatterns(data)| + 1 + |AnomalyPatterns(data, sqrt)|
  {
    if |data| >= 20 {
      var u := Unsorted(data, sqrt);
      var r := SimplePatterns(data, sqrt);
      SortByCorrect(u, ByConfidence);
      TrendFacts(data);
      forall i, j | 0 <= i < j < |r| ensures r[i].confidence >= r[j].confidence {
        assert ByConfidence(r[i]) <= ByConfidence(r[j]);
      }
    }
  }

  /** Every detected pattern has a confidence in [0, 1]. */
  lemma SimpleConfidences(data: seq<FinancialMetrics>, sqrt: real -> real)
    ensures forall i :: 0 <= i < |SimplePatterns(data, sqrt)| ==>
      0.0 <= SimplePatterns(data, sqrt)[i].confidence <= 1.0
  {
    if |data| >= 20 {
      var u := Unsorted(data, sqrt);
      var r := SimplePatterns(data, sqrt);
      SortByCorrect(u, ByConfidence);
      UnsortedConfidences(data, sqrt);
      forall i | 0 <= i < |r| ensures 0.0 <= r[i].confidence <= 1.0 {
        assert r[i] in multiset(u);
        var k :| 0 <= k < |u| && u[k] == r[i];
      }
    }
  }

  method DetectSimplePatterns(data: seq<FinancialMetrics>, sqrt: real -> real) returns (patterns: seq<Pattern>)
    ensures patterns == SimplePatterns(data, sqrt)
  {
    patterns := [];
    if |data| < 20 {
      return;
    }
    var seasonal := DetectMonthlyPatterns(data);
    var trend := TrendPatterns(data);
    var anomalies := DetectAnomalyPatterns(data, sqrt);
    patterns := seasonal + trend + anomalies;
    patterns := SortBy(patterns, ByConfidence);
  }
}
