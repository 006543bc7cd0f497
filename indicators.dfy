/** The technical indicators of `src/utils/helper.ts`: simple and exponential
    moving averages, RSI, the standard deviation of returns, Bollinger bands,
    MACD, and the two display ratios used by the order book and the calendar
    cells. `Math.sqrt` is a parameter; the lemmas that need its meaning ask
    for `IsSqrt`. */
module Indicators {
  import opened Common
  import opened Calendar
  import opened Metrics

  function Closes(data: seq<FinancialMetrics>): (r: seq<real>)
    ensures |r| == |data|
    ensures forall i :: 0 <= i < |data| ==> r[i] == data[i].close
  {
    seq(|data|, i requires 0 <= i < |data| => data[i].close)
  }

  lemma ClosesPrefix(data: seq<FinancialMetrics>, k: nat)
    requires k <= |data|
    ensures Closes(data[..k]) == Closes(data)[..k]
  {
  }

  // ----- calculateSMA -----

  /** calculateSMA: the mean close of the last `period` entries. */
  function Sma(data: seq<FinancialMetrics>, period: int): real
  {
    var recent := Last(data, period);
    if |recent| == 0 then 0.0 else Sum(Closes(recent)) / |recent| as real
  }

  /** An empty window gives 0; otherwise the average lies between the smallest
      and the largest close of the last min(period, n) entries. */
  lemma {:induction false} SmaBounds(data: seq<FinancialMetrics>, period: int)
    ensures var recent := Last(data, period);
      (|recent| == 0 ==> Sma(data, period) == 0.0) &&
      (0 < period ==> |recent| == Min2(period, |data|)) &&
      (|recent| > 0 ==> MinOf(Closes(recent)) <= Sma(data, period) <= MaxOf(Closes(recent)))
  {
    var recent := Last(data, period);
    if |recent| > 0 {
      MeanBetweenExtrema(Closes(recent));
    }
  }

  // ----- calculateRSI -----

  /** The close-to-close changes of the series. */
  function Changes(data: seq<FinancialMetrics>): (r: seq<real>)
    ensures |r| == if |data| == 0 then 0 else |data| - 1
  {
    if |data| == 0 then []
    else seq(|data| - 1, i requires 0 <= i < |data| - 1 => data[i + 1].close - data[i].close)
  }

  /** The gain of each change: the larger of the change and 0. */
  function Gains(changes: seq<real>): (r: seq<real>)
    ensures |r| == |changes|
    ensures forall i :: 0 <= i < |r| ==> r[i] >= 0.0 && r[i] >= changes[i] && (r[i] == changes[i] || r[i] == 0.0)
  {
    seq(|changes|, i requires 0 <= i < |changes| => if changes[i] > 0.0 then changes[i] else 0.0)
  }

  /** The loss of each change: the larger of the fall and 0. */
  function Losses(changes: seq<real>): (r: seq<real>)
    ensures |r| == |changes|
    ensures forall i :: 0 <= i < |r| ==> r[i] >= 0.0 && r[i] >= -changes[i] && (r[i] == -changes[i] || r[i] == 0.0)
  {
    seq(|changes|, i requires 0 <= i < |changes| => if changes[i] < 0.0 then -changes[i] else 0.0)
  }

  /** The changes add up to the move from the first close to the last. */
  lemma {:induction false} ChangesTelescope(data: seq<FinancialMetrics>)
    requires |data| > 0
    ensures Sum(Changes(data)) == data[|data| - 1].close - data[0].close
  {
    var n := |data|;
    if n > 1 {
      var init := data[..n - 1];
      ChangesTelescope(init);
      ChangesOfPrefix(data);
    }
  }

  /** Dropping the last entry drops the last change. */
  lemma ChangesOfPrefix(data: seq<FinancialMetrics>)
    requires |data| > 1
    ensures var n := |data|;
      Sum(Changes(data)) == Sum(Changes(data[..n - 1])) + (data[n - 1].close - data[n - 2].close)
    ensures data[..|data| - 1][0] == data[0] && data[..|data| - 1][|data| - 2] == data[|data| - 2]
  {
    var n := |data|;
    var c := Changes(data);
    assert Changes(data[..n - 1]) == c[..n - 2];
  }

  /** Each change is split into a gain and a loss, at most one of them not
      zero, so the total gain less the total loss is the total change. */
  lemma {:induction false} GainsMinusLosses(changes: seq<real>)
    ensures forall i :: 0 <= i < |changes| ==>
      Gains(changes)[i] - Losses(changes)[i] == changes[i] && (Gains(changes)[i] == 0.0 || Losses(changes)[i] == 0.0)
    ensures Sum(Gains(changes)) - Sum(Losses(changes)) == Sum(changes)
  {
    if |changes| > 0 {
      var init := changes[..|changes| - 1];
      GainsMinusLosses(init);
      assert Gains(init) == Gains(changes)[..|changes| - 1];
      assert Losses(init) == Losses(changes)[..|changes| - 1];
    }
  }

  function AverageGain(data: seq<FinancialMetrics>): real
  {
    Sum(Last(Gains(Changes(data)), 14)) / 14.0
  }

  function AverageLoss(data: seq<FinancialMetrics>): real
  {
    Sum(Last(Losses(Changes(data)), 14)) / 14.0
  }

  /** calculateRSI over the last 14 changes. */
  function Rsi(data: seq<FinancialMetrics>): real
  {
    if |data| < 15 then 50.0
    else if AverageLoss(data) == 0.0 then 100.0
    else 100.0 - Div(100.0, 1.0 + AverageGain(data) / AverageLoss(data))
  }

  /** No change in the window fell: every one of the last 14 changes is >= 0. */
  predicate NoRecentFall(data: seq<FinancialMetrics>)
    requires |data| >= 15
  {
    var c := Changes(data);
    forall i :: |c| - 14 <= i < |c| ==> c[i] >= 0.0
  }

  lemma {:induction false} AveragesNonNegative(data: seq<FinancialMetrics>)
    ensures AverageGain(data) >= 0.0 && AverageLoss(data) >= 0.0
  {
    SumNonNegative(Last(Gains(Changes(data)), 14));
    SumNonNegative(Last(Losses(Changes(data)), 14));
  }

  /** Short series give 50; otherwise the RSI is 100 exactly when none of the
      last 14 changes is a fall, and lies in [0, 100) when one is. */
  lemma RsiRange(data: seq<FinancialMetrics>)
    ensures |data| < 15 ==> Rsi(data) == 50.0
    ensures |data| >= 15 ==> (Rsi(data) == 100.0 <==> NoRecentFall(data))
    ensures |data| >= 15 && !NoRecentFall(data) ==> 0.0 <= Rsi(data) < 100.0
  {
    if |data| >= 15 {
      if NoRecentFall(data) {
        RsiWithoutFall(data);
      } else {
        RsiWithFall(data);
      }
    }
  }

  lemma RsiWithoutFall(data: seq<FinancialMetrics>)
    requires |data| >= 15 && NoRecentFall(data)
    ensures Rsi(data) == 100.0
  {
    var c := Changes(data);
    var window := Last(Losses(c), 14);
    assert window == Losses(c)[|c| - 14..];
    SumConstant(window, 0.0);
  }

  lemma RsiWithFall(data: seq<FinancialMetrics>)
    requires |data| >= 15 && !NoRecentFall(data)
    ensures 0.0 <= Rsi(data) < 100.0
  {
    AveragesNonNegative(data);
    LossInWindow(data);
    RelativeStrengthBounds(AverageGain(data), AverageLoss(data));
  }

  /** A fall among the last 14 changes makes the average loss positive. */
  lemma LossInWindow(data: seq<FinancialMetrics>)
    requires |data| >= 15 && !NoRecentFall(data)
    ensures AverageLoss(data) > 0.0
  {
    var c := Changes(data);
    var losses := Losses(c);
    var window := Last(losses, 14);
    assert window == losses[|c| - 14..];
    var i :| |c| - 14 <= i < |c| && c[i] < 0.0;
    assert window[i - (|c| - 14)] == losses[i] > 0.0;
    SumPositive(window, i - (|c| - 14));
  }

  /** `100 / (1 + g / l)` lies in (0, 100] for a non-negative gain and a
      positive loss. */
  lemma RelativeStrengthBounds(g: real, l: real)
    requires g >= 0.0 && l > 0.0
    ensures 0.0 < Div(100.0, 1.0 + g / l) <= 100.0
  {
    var q := 1.0 + g / l;
    assert g / l >= 0.0;
    ScaledBounds(100.0, q, 0.0, 100.0);
    assert Div(100.0, q) * q == 100.0;
  }

  // ----- calculateStandardDeviation and calculateBollingerBands -----

  /** `Math.sqrt` on the values where it is defined: a non-negative root,
      which is 0 at 0. */
  ghost predicate IsSqrt(sqrt: real -> real)
  {
    sqrt(0.0) == 0.0 &&
    forall x :: x >= 0.0 ==> sqrt(x) >= 0.0 && sqrt(x) * sqrt(x) == x
  }

  /** The close-to-close returns of a window, each relative to the earlier
      close: the return times that close is the change to the next one (a
      zero close gives Infinity or NaN in JavaScript, 0 here). */
  function Returns(recent: seq<FinancialMetrics>): (r: seq<real>)
    requires |recent| >= 1
    ensures |r| == |recent| - 1
    ensures forall i :: 0 <= i < |r| ==>
      if recent[i].close != 0.0 then r[i] * recent[i].close == recent[i + 1].close - recent[i].close else r[i] == 0.0
  {
    seq(|recent| - 1, i requires 0 <= i < |recent| - 1 => Div(recent[i + 1].close - recent[i].close, recent[i].close))
  }

  /** calculateStandardDeviation: the population standard deviation of the
      returns of the last `period` entries, in percent. */
  function StdDev(data: seq<FinancialMetrics>, period: int, sqrt: real -> real): real
  {
    var recent := Last(data, period);
    if |recent| < 2 then 0.0 else sqrt(Variance(Returns(recent))) * 100.0
  }

  /** The deviation is never negative; it is 0 for fewer than two entries and
      for a window whose closes never change. */
  lemma {:induction false} StdDevFacts(data: seq<FinancialMetrics>, period: int, sqrt: real -> real)
    requires IsSqrt(sqrt)
    ensures StdDev(data, period, sqrt) >= 0.0
    ensures |Last(data, period)| < 2 ==> StdDev(data, period, sqrt) == 0.0
  {
    var recent := Last(data, period);
    if |recent| >= 2 {
      var v := Variance(Returns(recent));
      VarianceNonNegative(Returns(recent));
      assert sqrt(v) >= 0.0;
    }
  }

  /** Every close of the window equals the first. */
  predicate SteadyCloses(recent: seq<FinancialMetrics>)
  {
    forall i :: 0 <= i < |recent| ==> recent[i].close == recent[0].close
  }

  /** A window whose closes never change has deviation 0. */
  lemma {:induction false} StdDevOfSteadyCloses(data: seq<FinancialMetrics>, period: int, sqrt: real -> real)
    requires IsSqrt(sqrt)
    requires SteadyCloses(Last(data, period))
    ensures StdDev(data, period, sqrt) == 0.0
  {
    var recent := Last(data, period);
    if |recent| >= 2 {
      SteadyReturnsHaveNoVariance(recent);
      assert StdDev(data, period, sqrt) == sqrt(Variance(Returns(recent))) * 100.0;
    }
  }

  lemma {:induction false} SteadyReturnsHaveNoVariance(recent: seq<FinancialMetrics>)
    requires |recent| >= 2 && SteadyCloses(recent)
    ensures Variance(Returns(recent)) == 0.0
  {
    SteadyClosesHaveNoReturns(recent);
    VarianceOfConstant(Returns(recent), 0.0);
  }

  lemma {:induction false} SteadyClosesHaveNoReturns(recent: seq<FinancialMetrics>)
    requires |recent| >= 2 && SteadyCloses(recent)
    ensures forall i :: 0 <= i < |Returns(recent)| ==> Returns(recent)[i] == 0.0
  {
    var r := Returns(recent);
    forall i | 0 <= i < |r| ensures r[i] == 0.0 {
      var a, b := recent[i + 1].close, recent[i].close;
      assert a == b;
      assert a - b == 0.0;
      assert Div(0.0, b) == 0.0;
    }
  }

  datatype Bands = Bands(upper: real, middle: real, lower: real)

  /** calculateBollingerBands: the SMA with `width` deviations either side. */
  function Bollinger(data: seq<FinancialMetrics>, period: int, width: real, sqrt: real -> real): Bands
  {
    var sma := Sma(data, period);
    var deviation := StdDev(data, period, sqrt) / 100.0;
    Bands(sma + deviation * width, sma, sma - deviation * width)
  }

  /** The middle band is the SMA and the bands are symmetric around it; with a
      non-negative width they are ordered, and they coincide for fewer than two
      entries. */
  lemma {:induction false} BollingerShape(data: seq<FinancialMetrics>, period: int, width: real, sqrt: real -> real)
    requires IsSqrt(sqrt)
    ensures var b := Bollinger(data, period, width, sqrt);
      b.middle == Sma(data, period) &&
      b.upper - b.middle == b.middle - b.lower &&
      (width >= 0.0 ==> b.lower <= b.middle <= b.upper) &&
      (|Last(data, period)| < 2 ==> b.lower == b.middle == b.upper)
  {
    StdDevFacts(data, period, sqrt);
    var d := StdDev(data, period, sqrt) / 100.0;
    if width >= 0.0 {
      assert d * width >= 0.0;
    }
  }

  // ----- calculateEMA -----

  /** The exponential average of a non-empty list of closes, seeded with the
      first close. */
  function EmaOf(closes: seq<real>, multiplier: real): real
    requires |closes| > 0
  {
    if |closes| == 1 then closes[0]
    else closes[|closes| - 1] * multiplier + EmaOf(closes[..|closes| - 1], multiplier) * (1.0 - multiplier)
  }

  function Multiplier(period: int): real
  {
    Div(2.0, (period + 1) as real)
  }

  /** calculateEMA: 0 for fewer than `period` entries. The source reads the
      first entry unguarded, so an empty series needs a positive period. */
  function Ema(data: seq<FinancialMetrics>, period: int): real
    requires period > 0 || |data| > 0
  {
    if |data| < period then 0.0 else EmaOf(Closes(data), Multiplier(period))
  }

  /** The loop of calculateEMA. */
  method CalculateEma(data: seq<FinancialMetrics>, period: int) returns (ema: real)
    requires period > 0 || |data| > 0
    ensures ema == Ema(data, period)
  {
    if |data| < period {
      return 0.0;
    }
    var multiplier := Multiplier(period);
    ghost var closes := Closes(data);
    ema := data[0].close;
    var i := 1;
    while i < |data|
      invariant 1 <= i <= |data|
      invariant ema == EmaOf(closes[..i], multiplier)
    {
      assert closes[..i + 1][..i] == closes[..i];
      ema := data[i].close * multiplier + ema * (1.0 - multiplier);
      i := i + 1;
    }
    assert closes[..|data|] == closes;
  }

  /** For 0 <= m <= 1, x*m + e*(1-m) stays within any interval holding x and e. */
  lemma ConvexStep(x: real, e: real, m: real, lo: real, hi: real)
    requires 0.0 <= m <= 1.0 && lo <= x <= hi && lo <= e <= hi
    ensures lo <= x * m + e * (1.0 - m) <= hi
  {
    assert (x - lo) * m >= 0.0;
    assert (e - lo) * (1.0 - m) >= 0.0;
    assert (hi - x) * m >= 0.0;
    assert (hi - e) * (1.0 - m) >= 0.0;
  }

  lemma {:induction false} EmaOfBounds(closes: seq<real>, m: real, lo: real, hi: real)
    requires |closes| > 0 && 0.0 <= m <= 1.0
    requires forall i :: 0 <= i < |closes| ==> lo <= closes[i] <= hi
    ensures lo <= EmaOf(closes, m) <= hi
  {
    if |closes| > 1 {
      EmaOfBounds(closes[..|closes| - 1], m, lo, hi);
      ConvexStep(closes[|closes| - 1], EmaOf(closes[..|closes| - 1], m), m, lo, hi);
    }
  }

  /** For a positive period the EMA of a long enough series is a convex
      combination of its closes, so it lies between their min and max. */
  lemma {:induction false} EmaBounds(data: seq<FinancialMetrics>, period: int)
    requires period > 0 && |data| >= period
    ensures MinOf(Closes(data)) <= Ema(data, period) <= MaxOf(Closes(data))
  {
    MultiplierBounds(period);
    EmaOfBounds(Closes(data), Multiplier(period), MinOf(Closes(data)), MaxOf(Closes(data)));
  }

  /** The multiplier of a positive period lies in (0, 1]. */
  lemma MultiplierBounds(period: int)
    requires period > 0
    ensures 0.0 < Multiplier(period) <= 1.0
  {
    ScaledBounds(2.0, (period + 1) as real, 0.0, 1.0);
    assert Multiplier(period) * (period + 1) as real == 2.0;
  }

  /** A list of closes that are all c has exponential average c. */
  lemma {:induction false} EmaOfConstant(closes: seq<real>, m: real, c: real)
    requires |closes| > 0 && 0.0 <= m <= 1.0
    requires forall i :: 0 <= i < |closes| ==> closes[i] == c
    ensures EmaOf(closes, m) == c
  {
    EmaOfBounds(closes, m, c, c);
  }

  // ----- calculateMACD -----

  const FastPeriod := 12
  const SlowPeriod := 26
  const SignalPeriod := 9

  datatype Macd = Macd(macd: real, signal: real, histogram: real)

  function MacdLine(data: seq<FinancialMetrics>): real
  {
    Ema(data, FastPeriod) - Ema(data, SlowPeriod)
  }

  /** The samples the source averages into the signal line: sample `index` is
      the MACD line of `data.slice(0, -SignalPeriod + index + 1)`. For the last
      index that end is 0, so the window is empty. */
  function MacdSamplesAsWritten(data: seq<FinancialMetrics>): (r: seq<real>)
    ensures |r| == |Last(data, SignalPeriod)|
  {
    seq(|Last(data, SignalPeriod)|, index => MacdLine(Slice(data, 0, -SignalPeriod + index + 1)))
  }

  /** The intended samples: the MACD line at each of the last SignalPeriod
      positions, the last one being the whole series. */
  function MacdSamples(data: seq<FinancialMetrics>): (r: seq<real>)
    requires |data| >= SignalPeriod
    ensures |r| == SignalPeriod
  {
    seq(SignalPeriod, index requires 0 <= index < SignalPeriod => MacdLine(data[..|data| - SignalPeriod + index + 1]))
  }

  function MacdOf(data: seq<FinancialMetrics>, samples: seq<real>): Macd
  {
    var line := MacdLine(data);
    var signal := Div(Sum(samples), |samples| as real);
    Macd(line, signal, line - signal)
  }

  /** calculateMACD as written. */
  function MacdAsWritten(data: seq<FinancialMetrics>): Macd
  {
    if |data| < SlowPeriod then Macd(0.0, 0.0, 0.0) else MacdOf(data, MacdSamplesAsWritten(data))
  }

  /** calculateMACD with the signal line averaged over the intended samples. */
  function MacdCorrected(data: seq<FinancialMetrics>): Macd
  {
    if |data| < SlowPeriod then Macd(0.0, 0.0, 0.0) else MacdOf(data, MacdSamples(data))
  }

  /** Both versions return zeros for short series and histogram = macd - signal
      always; the intended samples end with the MACD line itself. */
  lemma {:induction false} MacdShape(data: seq<FinancialMetrics>)
    ensures |data| < SlowPeriod ==> MacdAsWritten(data) == Macd(0.0, 0.0, 0.0) == MacdCorrected(data)
    ensures MacdAsWritten(data).histogram == MacdAsWritten(data).macd - MacdAsWritten(data).signal
    ensures MacdCorrected(data).histogram == MacdCorrected(data).macd - MacdCorrected(data).signal
    ensures |data| >= SlowPeriod ==> MacdSamples(data)[SignalPeriod - 1] == MacdCorrected(data).macd
  {
    if |data| >= SlowPeriod {
      assert data[..|data|] == data;
    }
  }

  /** As written, the last sample is always taken on an empty window and is 0;
      the other samples agree with the intended ones, so the published signal
      line is the intended one minus macd/9. */
  lemma {:induction false} MacdAsWrittenLastSampleIsZero(data: seq<FinancialMetrics>)
    requires |data| >= SlowPeriod
    ensures MacdSamplesAsWritten(data)[SignalPeriod - 1] == 0.0
    ensures MacdSamplesAsWritten(data)[..SignalPeriod - 1] == MacdSamples(data)[..SignalPeriod - 1]
    ensures MacdAsWritten(data).signal == MacdCorrected(data).signal - MacdCorrected(data).macd / 9.0
  {
    var w, c := MacdSamplesAsWritten(data), MacdSamples(data);
    assert Slice(data, 0, 0) == [];
    assert w[SignalPeriod - 1] == MacdLine([]) == 0.0;
    forall index | 0 <= index < SignalPeriod - 1
      ensures w[index] == c[index]
    {
      assert Slice(data, 0, -SignalPeriod + index + 1) == data[..|data| - SignalPeriod + index + 1];
    }
    assert w == w[..SignalPeriod - 1] + [0.0];
    assert c == c[..SignalPeriod - 1] + [MacdLine(data)] by {
      assert data[..|data|] == data;
    }
    SumAppend(w[..SignalPeriod - 1], 0.0);
    SumAppend(c[..SignalPeriod - 1], MacdLine(data));
  }

  /** A concrete series on which the two signal lines differ: 25 closes of 1
      followed by a close of 2. */
  function RisingSeries(): (r: seq<FinancialMetrics>)
    ensures |r| == 26
  {
    seq(26, i => FinancialMetrics(DayKey(Date(2024, 1, 1)), 1.0, 2.0, 1.0,
      if i == 25 then 2.0 else 1.0, 1.0, 0.0, 1.0, 0.0, None))
  }

  lemma MacdSignalDiffers()
    ensures MacdAsWritten(RisingSeries()).signal != MacdCorrected(RisingSeries()).signal
  {
    var data := RisingSeries();
    var closes := Closes(data);
    var head := closes[..25];
    MultiplierBounds(FastPeriod);
    MultiplierBounds(SlowPeriod);
    EmaOfConstant(head, Multiplier(FastPeriod), 1.0);
    EmaOfConstant(head, Multiplier(SlowPeriod), 1.0);
    assert closes[24] == 1.0 && closes[25] == 2.0;
    var fast, slow := Multiplier(FastPeriod), Multiplier(SlowPeriod);
    assert fast == 2.0 / 13.0 && slow == 2.0 / 27.0;
    assert Ema(data, FastPeriod) == 2.0 * fast + 1.0 * (1.0 - fast);
    assert Ema(data, SlowPeriod) == 2.0 * slow + 1.0 * (1.0 - slow);
    MacdAsWrittenLastSampleIsZero(data);
  }

  // ----- getDepthPercentage, calculateTotalQuantity, getVolumeCircleRadius -----

  /** getDepthPercentage */
  function DepthPercentage(quantity: real, total: real): (r: real)
    ensures total <= 0.0 ==> r == 0.0
    ensures total > 0.0 && 0.0 <= quantity <= total ==> 0.0 <= r <= 100.0
  {
    if total > 0.0 then
      RatioFacts(quantity, total);
      quantity / total * 100.0
    else 0.0
  }

  /** calculateTotalQuantity over `[price, quantity]` pairs. */
  function TotalQuantity(orders: seq<(string, string)>, parse: string -> real): real
  {
    Sum(Quantities(orders, parse))
  }

  function Quantities(orders: seq<(string, string)>, parse: string -> real): (r: seq<real>)
    ensures |r| == |orders|
    ensures forall i :: 0 <= i < |orders| ==> r[i] == parse(orders[i].1)
  {
    seq(|orders|, i requires 0 <= i < |orders| => parse(orders[i].1))
  }

  /** The depth bars of one side of the book, measured against that side's
      total, add up to 100 percent whenever the total is positive. */
  lemma {:induction false} DepthBarsSumTo100(orders: seq<(string, string)>, parse: string -> real)
    requires TotalQuantity(orders, parse) > 0.0
    ensures var total := TotalQuantity(orders, parse);
      Sum(seq(|orders|, i requires 0 <= i < |orders| => DepthPercentage(parse(orders[i].1), total))) == 100.0
  {
    var total := TotalQuantity(orders, parse);
    var q := Quantities(orders, parse);
    var bars := seq(|orders|, i requires 0 <= i < |orders| => DepthPercentage(parse(orders[i].1), total));
    var c := 100.0 / total;
    forall i | 0 <= i < |orders| ensures bars[i] == q[i] * c {
      assert q[i] / total * 100.0 == q[i] * c;
    }
    SumScale(q, bars, c);
  }

  /** Where x/n lies relative to 0 and 1 for a positive n. */
  lemma RatioFacts(x: real, n: real)
    ensures n > 0.0 && x >= 0.0 ==> x / n >= 0.0
    ensures n > 0.0 && x <= n ==> x / n <= 1.0
    ensures n > 0.0 && x >= n ==> x / n >= 1.0
  {
    if n > 0.0 {
      var q := x / n;
      assert n * q == x;
      if x >= 0.0 {
        ScaledBounds(x, n, 0.0, q);
      }
      if x <= n {
        ScaledBounds(x, n, q, 1.0);
      }
      if x >= n {
        ScaledBounds(x, n, 1.0, q);
      }
    }
  }

  /** getVolumeCircleRadius: the volume as a share of `maxRadius`, capped there. */
  function VolumeCircleRadius(volume: real, maxVolume: real, maxRadius: real): (r: real)
    ensures maxVolume == 0.0 ==> r == 0.0
    ensures maxVolume != 0.0 ==> r <= maxRadius
    ensures maxVolume > 0.0 && volume >= maxVolume ==> r == maxRadius || maxRadius < 0.0
    ensures maxVolume > 0.0 && volume >= 0.0 && maxRadius >= 0.0 ==> r >= 0.0
  {
    if maxVolume == 0.0 then 0.0
    else
      RatioFacts(volume, maxVolume);
      Min(volume / maxVolume * maxRadius, maxRadius)
  }

  /** A larger volume never draws a smaller circle. */
  lemma VolumeCircleMonotone(v1: real, v2: real, maxVolume: real, maxRadius: real)
    requires v1 <= v2 && maxVolume > 0.0 && maxRadius >= 0.0
    ensures VolumeCircleRadius(v1, maxVolume, maxRadius) <= VolumeCircleRadius(v2, maxVolume, maxRadius)
  {
    assert v1 / maxVolume <= v2 / maxVolume;
    assert (v2 / maxVolume - v1 / maxVolume) * maxRadius >= 0.0;
  }
}
