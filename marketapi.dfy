/** The REST side of `src/services/api.ts`: turning exchange candles into
    FinancialMetrics rows (transformToFinancialMetrics) and fetching a long
    history backwards page by page (getComprehensiveKlineData). The HTTP
    request is a function parameter standing in for the exchange. */
module MarketApi {
  import opened Common
  import opened Calendar
  import opened Metrics

  /** The candle fields the transform and the pagination read. */
  datatype KlineData = KlineData(openTime: int, open: string, high: string, low: string, close: string, volume: string)

  // ----- transformToFinancialMetrics -----

  const VolumeWeight: real := 0.7
  const StabilityWeight: real := 0.3

  /** The row key for the candle interval: `YYYY-Www` for '1w', `YYYY-MM`
      for '1M' and the ISO day otherwise, all of the candle's open time. */
  function IntervalKey(openTime: int, interval: string): (k: DateKey)
    ensures var d := DateOfMs(openTime);
      (interval == "1w" ==>
        (k.WeekKey? && k.year == d.year && 1 <= k.week <= 53 && 7 * (k.week - 1) < DayOfYear(d) <= 7 * k.week)) &&
      (interval == "1M" ==> k == MonthKey(d.year, d.month) && ParsedDate(k) == Some(Date(d.year, d.month, 1))) &&
      (interval != "1w" && interval != "1M" ==> k == DayKey(d) && ParsedDate(k) == Some(d))
  {
    var d := DateOfMs(openTime);
    WeekNumberIsCeiling(d.year, DayOfYear(d));
    if interval == "1w" then WeekKey(d.year, WeekOfDate(d))
    else if interval == "1M" then MonthKey(d.year, d.month)
    else DayKey(d)
  }

  /** One candle as a row; `parse` is `parseFloat`. */
  function ToMetrics(k: KlineData, interval: string, parse: string -> real): FinancialMetrics
  {
    var open, high, low, close, volume := parse(k.open), parse(k.high), parse(k.low), parse(k.close), parse(k.volume);
    var performance := Div(close - open, open) * 100.0;
    var volatility := Div(high - low, open) * 100.0;
    var priceStability := 1.0 - volatility / 100.0;
    var liquidity := volume * VolumeWeight + volume * priceStability * StabilityWeight;
    FinancialMetrics(IntervalKey(k.openTime, interval), open, high, low, close, volume,
      volatility, liquidity, performance, None)
  }

  /** transformToFinancialMetrics: one row per candle, in candle order. */
  function Transform(klines: seq<KlineData>, interval: string, parse: string -> real): (rows: seq<FinancialMetrics>)
    ensures |rows| == |klines|
    ensures forall i :: 0 <= i < |klines| ==> rows[i] == ToMetrics(klines[i], interval, parse)
  {
    seq(|klines|, i requires 0 <= i < |klines| => ToMetrics(klines[i], interval, parse))
  }

  /** What a row says about its candle: the prices and volume are the parsed
      texts; performance and volatility are the open-to-close change and the
      high-low range as percentages of the open; liquidity is 70% of the
      volume plus 30% of it scaled by price stability, so it never exceeds
      the volume when both volume and volatility are non-negative, and never
      falls below 70% of it while volatility is at most 100%. */
  lemma MetricsFacts(k: KlineData, interval: string, parse: string -> real)
    ensures var r := ToMetrics(k, interval, parse);
      var o := parse(k.open);
      r.open == o && r.high == parse(k.high) && r.low == parse(k.low) &&
      r.close == parse(k.close) && r.volume == parse(k.volume) && r.rollup.None? &&
      (o != 0.0 ==> r.performance * o == (r.close - o) * 100.0) &&
      (o != 0.0 ==> r.volatility * o == (r.high - r.low) * 100.0) &&
      (o == 0.0 ==> r.performance == 0.0 && r.volatility == 0.0) &&
      (r.volume >= 0.0 && r.volatility >= 0.0 ==> r.liquidity <= r.volume) &&
      (r.volume >= 0.0 && r.volatility <= 100.0 ==> r.liquidity >= VolumeWeight * r.volume)
  {
    var r := ToMetrics(k, interval, parse);
    var v, s := r.volume, 1.0 - r.volatility / 100.0;
    assert r.liquidity == v * (VolumeWeight + StabilityWeight * s);
    if v >= 0.0 && r.volatility >= 0.0 {
      assert s <= 1.0;
      assert v * (StabilityWeight * s) <= v * StabilityWeight;
    }
    if v >= 0.0 && r.volatility <= 100.0 {
      assert s >= 0.0;
      assert v * (StabilityWeight * s) >= 0.0;
    }
  }

  // ----- getComprehensiveKlineData -----

  /** Binance's largest page. */
  const MaxPage: int := 1000

  /** The query of one fetch: `limit` and, when set, `endTime`. */
  datatype Request = Request(limit: int, endTime: Option<int>)

  /** The exchange, as a function from a query to the page it answers. */
  type PageSource = (int, Option<int>) -> seq<KlineData>

  function Fetch(page: PageSource, r: Request): seq<KlineData>
  {
    page(r.limit, r.endTime)
  }

  /** `if (endTime)`: a cursor of 0 is falsy and is not sent. */
  function Cursor(endTime: Option<int>): Option<int>
  {
    if endTime.Some? && endTime.value != 0 then endTime else None
  }

  /** Rows received for the given requests. */
  ghost function Collected(page: PageSource, requests: seq<Request>): nat
  {
    if |requests| == 0 then 0
    else Collected(page, requests[..|requests| - 1]) + |Fetch(page, requests[|requests| - 1])|
  }

  /** The candles received for the given requests: each answer is put in
      front of the candles received before it (`unshift`). */
  ghost function Received(page: PageSource, requests: seq<Request>): (r: seq<KlineData>)
    ensures |r| == Collected(page, requests)
    ensures |requests| > 0 ==> Fetch(page, requests[|requests| - 1]) <= r
  {
    if |requests| == 0 then []
    else Fetch(page, requests[|requests| - 1]) + Received(page, requests[..|requests| - 1])
  }

  /** Why the loop stopped after its last query: that answer was shorter
      than asked for (an empty answer included), or `targetLimit` candles
      had been collected. */
  ghost predicate Stopped(page: PageSource, requests: seq<Request>, targetLimit: int)
  {
    |requests| > 0 ==>
      |Fetch(page, requests[|requests| - 1])| < requests[|requests| - 1].limit ||
      Collected(page, requests) >= targetLimit
  }

  ghost predicate StrictlyAscending(s: seq<KlineData>)
  {
    forall i, j :: 0 <= i < j < |s| ==> s[i].openTime < s[j].openTime
  }

  /** An exchange that answers with candles in ascending time, none after
      the requested `endTime`, all opened after the first millisecond of
      1970 (so the derived cursor is never the falsy 0). */
  ghost predicate HonoursEndTime(page: PageSource)
  {
    forall limit: int, endTime: Option<int> ::
      StrictlyAscending(page(limit, endTime)) &&
      forall k :: 0 <= k < |page(limit, endTime)| ==>
        page(limit, endTime)[k].openTime >= 2 &&
        (endTime.Some? ==> page(limit, endTime)[k].openTime <= endTime.value)
  }

  /** An exchange that always has `limit` more candles to give. */
  ghost predicate AlwaysFull(page: PageSource)
  {
    forall limit: int, endTime: Option<int> :: limit >= 1 ==> |page(limit, endTime)| == limit
  }

  /** Every query asks for 1 to 1000 candles and no more than are still
      missing from `targetLimit`. */
  ghost predicate LimitsBounded(page: PageSource, requests: seq<Request>, targetLimit: int)
  {
    forall i :: 0 <= i < |requests| ==>
      1 <= requests[i].limit <= MaxPage && requests[i].limit <= targetLimit - Collected(page, requests[..i])
  }

  /** The first query has no cursor; each later one is sent with the open
      time of the previous answer's first candle, less one, as its cursor. */
  ghost predicate CursorChained(page: PageSource, requests: seq<Request>)
  {
    (|requests| > 0 ==> requests[0].endTime.None?) &&
    forall i :: 0 <= i < |requests| - 1 ==>
      |Fetch(page, requests[i])| > 0 &&
      requests[i + 1].endTime == Cursor(Some(Fetch(page, requests[i])[0].openTime - 1))
  }

  /** Every answer was a full page. */
  ghost predicate AllFull(page: PageSource, requests: seq<Request>)
  {
    forall i :: 0 <= i < |requests| ==> |Fetch(page, requests[i])| >= requests[i].limit
  }

  lemma CollectedStep(page: PageSource, requests: seq<Request>, r: Request)
    ensures Collected(page, requests + [r]) == Collected(page, requests) + |Fetch(page, r)|
    ensures Received(page, requests + [r]) == Fetch(page, r) + Received(page, requests)
    ensures (requests + [r])[..|requests|] == requests
  {
    assert (requests + [r])[..|requests|] == requests;
  }

  lemma LimitsStep(page: PageSource, requests: seq<Request>, r: Request, targetLimit: int)
    requires LimitsBounded(page, requests, targetLimit)
    requires 1 <= r.limit <= MaxPage && r.limit <= targetLimit - Collected(page, requests)
    ensures LimitsBounded(page, requests + [r], targetLimit)
  {
    var s := requests + [r];
    forall i | 0 <= i < |s| ensures 1 <= s[i].limit <= MaxPage && s[i].limit <= targetLimit - Collected(page, s[..i]) {
      if i < |requests| {
        assert s[..i] == requests[..i];
      } else {
        assert s[..i] == requests;
      }
    }
  }

  lemma ChainStep(page: PageSource, requests: seq<Request>, r: Request, endTime: Option<int>)
    requires CursorChained(page, requests)
    requires |requests| == 0 ==> endTime.None?
    requires |requests| > 0 ==>
      (|Fetch(page, requests[|requests| - 1])| > 0 && endTime == Some(Fetch(page, requests[|requests| - 1])[0].openTime - 1))
    requires r.endTime == Cursor(endTime)
    ensures CursorChained(page, requests + [r])
  {
    var s := requests + [r];
    forall i | 0 <= i < |s| - 1
      ensures |Fetch(page, s[i])| > 0 && s[i + 1].endTime == Cursor(Some(Fetch(page, s[i])[0].openTime - 1))
    {
      assert s[i] == requests[i];
    }
  }

  /** Every answer but the last was a full page. */
  ghost predicate FullBeforeLast(page: PageSource, requests: seq<Request>)
  {
    forall i :: 0 <= i < |requests| - 1 ==> |Fetch(page, requests[i])| >= requests[i].limit
  }

  /** What holds of the collected candles after each round of the loop:
      `all` is every candle received, the cursor is the first one's open
      time less one, and an honest exchange's candles are in order. */
  ghost predicate Progress(page: PageSource, targetLimit: int, all: seq<KlineData>, endTime: Option<int>,
    requests: seq<Request>)
  {
    all == Received(page, requests) &&
    LimitsBounded(page, requests, targetLimit) &&
    CursorChained(page, requests) &&
    (|requests| == 0 ==> endTime.None? && all == []) &&
    (|requests| > 0 ==>
      |Fetch(page, requests[|requests| - 1])| > 0 && |all| > 0 &&
      all[0] == Fetch(page, requests[|requests| - 1])[0] && endTime == Some(all[0].openTime - 1)) &&
    (HonoursEndTime(page) ==> StrictlyAscending(all) && forall k :: 0 <= k < |all| ==> all[k].openTime >= 2)
  }

  /** One round that receives a non-empty page keeps `Progress`. */
  lemma ProgressStep(page: PageSource, targetLimit: int, all: seq<KlineData>, endTime: Option<int>,
    requests: seq<Request>, request: Request)
    requires Progress(page, targetLimit, all, endTime, requests)
    requires request.endTime == Cursor(endTime)
    requires 1 <= request.limit <= MaxPage && request.limit <= targetLimit - |all|
    requires |Fetch(page, request)| > 0
    ensures var data := Fetch(page, request);
      Progress(page, targetLimit, data + all, Some(data[0].openTime - 1), requests + [request])
  {
    var data := Fetch(page, request);
    CollectedStep(page, requests, request);
    LimitsStep(page, requests, request, targetLimit);
    ChainStep(page, requests, request, endTime);
    Prepend(data, all, page, request, endTime);
  }

  lemma FullPageStep(page: PageSource, requests: seq<Request>, request: Request)
    requires AllFull(page, requests) && |Fetch(page, request)| >= request.limit
    ensures AllFull(page, requests + [request])
  {
    var s := requests + [request];
    forall i | 0 <= i < |s| ensures |Fetch(page, s[i])| >= s[i].limit {
      if i < |requests| { assert s[i] == requests[i]; }
    }
  }

  /** The loop state at the top of each round: every page so far was full,
      the next limit is what is still missing capped at 1000, and an
      exchange that always fills its pages has given 1000 candles a round. */
  ghost predicate Fetching(page: PageSource, targetLimit: int, all: seq<KlineData>, endTime: Option<int>,
    requests: seq<Request>, currentLimit: int)
  {
    Progress(page, targetLimit, all, endTime, requests) &&
    AllFull(page, requests) &&
    (targetLimit <= 0 ==> all == [] && requests == []) &&
    Counting(targetLimit, |all|, |requests|, currentLimit, AlwaysFull(page))
  }

  /** The counters of the loop: `collected` candles in `rounds` rounds, and
      the next limit; `full` says every page is full. */
  ghost predicate Counting(targetLimit: int, collected: int, rounds: int, currentLimit: int, full: bool)
  {
    currentLimit <= MaxPage && currentLimit <= targetLimit - collected &&
    (collected < targetLimit ==> 1 <= currentLimit) &&
    (full && targetLimit >= 1 ==>
      collected == Min2(targetLimit, MaxPage * rounds) && (rounds > 0 ==> MaxPage * (rounds - 1) < targetLimit)) &&
    (full && targetLimit >= 1 && collected < targetLimit ==> currentLimit == Min2(MaxPage, targetLimit - collected))
  }

  lemma CountingStep(targetLimit: int, collected: int, rounds: int, currentLimit: int, full: bool, received: int)
    requires Counting(targetLimit, collected, rounds, currentLimit, full) && collected < targetLimit
    requires received >= currentLimit && (full ==> received == currentLimit)
    ensures Counting(targetLimit, collected + received, rounds + 1,
      Min2(currentLimit, targetLimit - (collected + received)), full)
  {
  }

  /** What the loop guarantees once it stops. */
  ghost predicate Finished(page: PageSource, targetLimit: int, all: seq<KlineData>, requests: seq<Request>)
  {
    all == Received(page, requests) &&
    (|requests| == 0 <==> targetLimit <= 0) &&
    Stopped(page, requests, targetLimit) &&
    LimitsBounded(page, requests, targetLimit) &&
    CursorChained(page, requests) &&
    FullBeforeLast(page, requests) &&
    (targetLimit <= 0 ==> all == []) &&
    (HonoursEndTime(page) ==> StrictlyAscending(all)) &&
    (AlwaysFull(page) && targetLimit >= 1 ==>
      |all| == targetLimit && MaxPage * (|requests| - 1) < targetLimit <= MaxPage * |requests|)
  }

  lemma FetchingStarts(page: PageSource, targetLimit: int)
    ensures Fetching(page, targetLimit, [], None, [], Min2(targetLimit, MaxPage))
  {
  }

  /** A full page: the loop goes round again. */
  lemma FullRound(page: PageSource, targetLimit: int, all: seq<KlineData>, endTime: Option<int>,
    requests: seq<Request>, currentLimit: int)
    requires Fetching(page, targetLimit, all, endTime, requests, currentLimit) && |all| < targetLimit
    requires |Fetch(page, Request(currentLimit, Cursor(endTime)))| >= currentLimit
    ensures var request := Request(currentLimit, Cursor(endTime));
      var data := Fetch(page, request);
      |data| > 0 &&
      Fetching(page, targetLimit, data + all, Some(data[0].openTime - 1), requests + [request],
        Min2(currentLimit, targetLimit - |data + all|))
  {
    var request := Request(currentLimit, Cursor(endTime));
    var data := Fetch(page, request);
    ProgressStep(page, targetLimit, all, endTime, requests, request);
    FullPageStep(page, requests, request);
    assert AlwaysFull(page) ==> |data| == currentLimit;
    CountingStep(targetLimit, |all|, |requests|, currentLimit, AlwaysFull(page), |data|);
    assert |data + all| == |all| + |data|;
  }

  /** A short or empty page: the loop stops with that page prepended. */
  lemma StopRound(page: PageSource, targetLimit: int, all: seq<KlineData>, endTime: Option<int>,
    requests: seq<Request>, currentLimit: int)
    requires Fetching(page, targetLimit, all, endTime, requests, currentLimit) && |all| < targetLimit
    requires |Fetch(page, Request(currentLimit, Cursor(endTime)))| < currentLimit
    ensures var request := Request(currentLimit, Cursor(endTime));
      Finished(page, targetLimit, Fetch(page, request) + all, requests + [request])
  {
    var request := Request(currentLimit, Cursor(endTime));
    var data := Fetch(page, request);
    CollectedStep(page, requests, request);
    LimitsStep(page, requests, request, targetLimit);
    ChainStep(page, requests, request, endTime);
    Prepend(data, all, page, request, endTime);
    var s := requests + [request];
    forall i | 0 <= i < |s| - 1 ensures |Fetch(page, s[i])| >= s[i].limit {
      assert s[i] == requests[i];
    }
  }

  /** An empty page: the loop stops with the candles it had. */
  lemma EmptyRound(page: PageSource, targetLimit: int, all: seq<KlineData>, endTime: Option<int>,
    requests: seq<Request>, currentLimit: int)
    requires Fetching(page, targetLimit, all, endTime, requests, currentLimit) && |all| < targetLimit
    requires |Fetch(page, Request(currentLimit, Cursor(endTime)))| == 0
    ensures Finished(page, targetLimit, all, requests + [Request(currentLimit, Cursor(endTime))])
  {
    var request := Request(currentLimit, Cursor(endTime));
    StopRound(page, targetLimit, all, endTime, requests, currentLimit);
    assert Fetch(page, request) + all == all;
  }

  /** Enough candles: the loop condition fails. */
  lemma EnoughCollected(page: PageSource, targetLimit: int, all: seq<KlineData>, endTime: Option<int>,
    requests: seq<Request>, currentLimit: int)
    requires Fetching(page, targetLimit, all, endTime, requests, currentLimit) && |all| >= targetLimit
    ensures Finished(page, targetLimit, all, requests)
  {
  }

  /** The fetch loop of getComprehensiveKlineData: pages of at most 1000
      candles are fetched backwards from the present, each prepended, until
      `targetLimit` candles are collected or the exchange runs out;
      `requests` lists the queries made, in order. The loop goes on only
      after a full page. */
  method FetchPages(targetLimit: int, page: PageSource) returns (all: seq<KlineData>, requests: seq<Request>)
    ensures Finished(page, targetLimit, all, requests)
  {
    all := [];
    var currentLimit := Min2(targetLimit, MaxPage);
    var endTime: Option<int> := None;
    requests := [];
    FetchingStarts(page, targetLimit);
    while |all| < targetLimit
      invariant Fetching(page, targetLimit, all, endTime, requests, currentLimit)
      decreases targetLimit - |all|
    {
      var request := Request(currentLimit, Cursor(endTime));
      var data := Fetch(page, request);
      if |data| == 0 {
        EmptyRound(page, targetLimit, all, endTime, requests, currentLimit);
        requests := requests + [request];
        assert Finished(page, targetLimit, all, requests);
        return;
      }
      if |data| < currentLimit {
        StopRound(page, targetLimit, all, endTime, requests, currentLimit);
        requests := requests + [request];
        all := data + all;
        return;
      }
      FullRound(page, targetLimit, all, endTime, requests, currentLimit);
      requests := requests + [request];
      all := data + all;
      endTime := Some(data[0].openTime - 1);
      currentLimit := Min2(currentLimit, targetLimit - |all|);
    }
    EnoughCollected(page, targetLimit, all, endTime, requests, currentLimit);
  }

  /** getComprehensiveKlineData: the fetched candles, oldest first, cut to
      their first `targetLimit`; the loop queries the exchange when
      `targetLimit` is positive and stops after a short or empty answer or
      once `targetLimit` candles are in. Every query asks for 1 to 1000 candles and no more than are still
      missing; the cursor of each query comes from the previous page; only
      the last page may be short; an honest exchange's candles come out in
      strictly ascending time; and an exchange that always fills its pages
      yields exactly `targetLimit` candles in one query per started 1000. */
  method ComprehensiveKlineData(targetLimit: int, page: PageSource)
    returns (klines: seq<KlineData>, requests: seq<Request>)
    ensures klines == Slice(Received(page, requests), 0, targetLimit)
    ensures 0 <= targetLimit <= |Received(page, requests)| ==> klines == Received(page, requests)[..targetLimit]
    ensures |requests| == 0 <==> targetLimit <= 0
    ensures Stopped(page, requests, targetLimit)
    ensures |klines| <= if targetLimit < 0 then 0 else targetLimit
    ensures LimitsBounded(page, requests, targetLimit)
    ensures CursorChained(page, requests)
    ensures FullBeforeLast(page, requests)
    ensures HonoursEndTime(page) ==> StrictlyAscending(klines)
    ensures AlwaysFull(page) && targetLimit >= 1 ==>
      |klines| == targetLimit && |requests| == (targetLimit + MaxPage - 1) / MaxPage
  {
    var all;
    all, requests := FetchPages(targetLimit, page);
    klines := Slice(all, 0, targetLimit);
    AscendingPrefix(all, targetLimit);
    if AlwaysFull(page) && targetLimit >= 1 {
      CeilPages(targetLimit, |requests|);
    }
  }

  /** Prepending the answer to a cursor query keeps an honest exchange's
      candles strictly ascending. */
  lemma Prepend(data: seq<KlineData>, all: seq<KlineData>, page: PageSource, request: Request, endTime: Option<int>)
    requires data == Fetch(page, request) && request.endTime == Cursor(endTime)
    requires |all| > 0 ==> endTime == Some(all[0].openTime - 1)
    requires HonoursEndTime(page) ==> StrictlyAscending(all) && forall k :: 0 <= k < |all| ==> all[k].openTime >= 2
    ensures HonoursEndTime(page) ==>
      StrictlyAscending(data + all) && forall k :: 0 <= k < |data + all| ==> (data + all)[k].openTime >= 2
  {
    if HonoursEndTime(page) {
      assert StrictlyAscending(data);
      var r := data + all;
      forall i, j | 0 <= i < j < |r| ensures r[i].openTime < r[j].openTime {
        if j >= |data| && i < |data| {
          assert all[0].openTime >= 2;
          assert r[i].openTime <= all[0].openTime - 1;
          assert r[j] == all[j - |data|];
        }
      }
    }
  }

  /** `slice(0, end)` of ascending candles is ascending, and holds at most
      `end` of them. */
  lemma AscendingPrefix(all: seq<KlineData>, end: int)
    ensures |Slice(all, 0, end)| <= |all|
    ensures end >= 0 ==> |Slice(all, 0, end)| <= end
    ensures 0 <= end <= |all| ==> |Slice(all, 0, end)| == end
    ensures StrictlyAscending(all) ==> StrictlyAscending(Slice(all, 0, end))
  {
    assert SliceIndex(0, |all|) == 0;
  }

  /** With every page full, the loop makes one request per started
      thousand candles. */
  lemma CeilPages(targetLimit: int, requests: int)
    requires MaxPage * (requests - 1) < targetLimit <= MaxPage * requests
    ensures requests == (targetLimit + MaxPage - 1) / MaxPage
  {
  }
}
