/** The calendar data hook of `src/hooks/useCalendarData.ts`: rolling a daily
    series up into weekly or monthly rows (getAggregatedData), and patching the
    row of the current day when a kline arrives from the socket. */
module Aggregation {
  import opened Common
  import opened Calendar
  import opened Metrics

  // ----- the incomplete-week filter -----

  /** A `YYYY-Www` entry later than the last completed week. */
  predicate BeyondLastCompleted(k: DateKey, lastYear: int, lastWeek: int)
  {
    k.WeekKey? && (k.year > lastYear || (k.year == lastYear && k.week > lastWeek))
  }

  predicate Kept(e: FinancialMetrics, timeframe: Timeframe, lastYear: int, lastWeek: int)
  {
    !(timeframe == Weekly && BeyondLastCompleted(e.date, lastYear, lastWeek))
  }

  /** The `filter` step: in the weekly view, entries already keyed by a week
      after the last completed one are dropped; every other entry passes. */
  function Filtered(data: seq<FinancialMetrics>, timeframe: Timeframe, lastYear: int, lastWeek: int)
    : (r: seq<FinancialMetrics>)
    ensures |r| <= |data|
    ensures forall e :: e in r ==> e in data && Kept(e, timeframe, lastYear, lastWeek)
    ensures forall e :: e in data && Kept(e, timeframe, lastYear, lastWeek) ==> e in r
    ensures timeframe != Weekly ==> r == data
  {
    if |data| == 0 then []
    else
      var init, e := data[..|data| - 1], data[|data| - 1];
      assert data == init + [e];
      Filtered(init, timeframe, lastYear, lastWeek) + (if Kept(e, timeframe, lastYear, lastWeek) then [e] else [])
  }

  /** The filter callback of the weekly view. */
  function KeptBy(timeframe: Timeframe, lastYear: int, lastWeek: int): FinancialMetrics -> bool
  {
    e => Kept(e, timeframe, lastYear, lastWeek)
  }

  /** The filter is the generic in-order filter with the weekly test. */
  lemma {:induction false} FilteredIsKeep(data: seq<FinancialMetrics>, timeframe: Timeframe, lastYear: int, lastWeek: int)
    ensures Filtered(data, timeframe, lastYear, lastWeek) == Keep(data, KeptBy(timeframe, lastYear, lastWeek))
    decreases |data|
  {
    if |data| > 0 {
      FilteredIsKeep(data[..|data| - 1], timeframe, lastYear, lastWeek);
    }
  }

  /** The kept rows are an order-preserving subsequence of the input: row k
      of the result is the input row at the k-th kept position, and the kept
      positions are exactly those of the rows that pass. */
  lemma FilteredInOrder(data: seq<FinancialMetrics>, timeframe: Timeframe, lastYear: int, lastWeek: int)
    ensures var p := KeptBy(timeframe, lastYear, lastWeek);
      FilteredAt(Filtered(data, timeframe, lastYear, lastWeek), data, p, KeptIndices(data, p))
  {
    FilteredIsKeep(data, timeframe, lastYear, lastWeek);
    KeepIsSubsequence(data, KeptBy(timeframe, lastYear, lastWeek));
  }

  // ----- grouping -----

  /** The keys grouping can produce in a view. */
  predicate GroupKeyShape(k: DateKey, timeframe: Timeframe)
  {
    match timeframe
    case Weekly => (k.WeekKey? && 1 <= k.week <= 53) || k == InvalidKey(true)
    case Monthly => (k.MonthKey? && 1 <= k.month <= 12) || k == InvalidKey(false)
    case Daily => true
  }

  /** The Map key of an entry: the week (`YYYY-Www`) or month (`YYYY-MM`) of
      `new Date(item.date)`, or the `NaN` text when that date is invalid. */
  function GroupKey(k: DateKey, timeframe: Timeframe): (g: DateKey)
    ensures GroupKeyShape(g, timeframe)
    ensures timeframe != Daily ==> (g.InvalidKey? <==> ParsedDate(k).None?)
    ensures timeframe == Weekly && ParsedDate(k).Some? ==>
      g.WeekKey? && g.year == ParsedDate(k).value.year
    ensures timeframe == Weekly && ParsedDate(k).Some? ==>
      g == WeekKey(ParsedDate(k).value.year, WeekOfDate(ParsedDate(k).value))
    ensures timeframe == Monthly && ParsedDate(k).Some? ==>
      g == MonthKey(ParsedDate(k).value.year, ParsedDate(k).value.month)
  {
    var d := ParsedDate(k);
    match timeframe
    case Weekly =>
      if d.Some? then
        WeekNumberIsCeiling(d.value.year, DayOfYear(d.value));
        WeekKey(d.value.year, WeekOfDate(d.value))
      else InvalidKey(true)
    case Monthly => if d.Some? then MonthKey(d.value.year, d.value.month) else InvalidKey(false)
    case Daily => k
  }

  datatype Group = Group(key: DateKey, items: seq<FinancialMetrics>)

  function KeyOf(g: Group): DateKey { g.key }

  function FindGroup(groups: seq<Group>, key: DateKey): (r: Option<nat>)
    ensures r.Some? ==> r.value < |groups| && groups[r.value].key == key
    ensures r.None? ==> forall j :: 0 <= j < |groups| ==> groups[j].key != key
  {
    if |groups| == 0 then None
    else if groups[|groups| - 1].key == key then Some(|groups| - 1)
    else FindGroup(groups[..|groups| - 1], key)
  }

  /** One step of the `forEach`: the entry joins its key's group, which is
      opened at the end when the key is new. */
  function AddEntry(groups: seq<Group>, e: FinancialMetrics, timeframe: Timeframe): seq<Group>
  {
    var key := GroupKey(e.date, timeframe);
    var idx := FindGroup(groups, key);
    if idx.Some? then groups[idx.value := Group(key, groups[idx.value].items + [e])]
    else groups + [Group(key, [e])]
  }

  /** The Map after the `forEach`: groups in order of first appearance, each
      holding its members in input order. */
  function Grouped(entries: seq<FinancialMetrics>, timeframe: Timeframe): seq<Group>
  {
    if |entries| == 0 then []
    else AddEntry(Grouped(entries[..|entries| - 1], timeframe), entries[|entries| - 1], timeframe)
  }

  /** The entries whose group key is `key`, in input order. */
  function WithKey(entries: seq<FinancialMetrics>, key: DateKey, timeframe: Timeframe): (r: seq<FinancialMetrics>)
    ensures forall e :: e in r ==> e in entries && GroupKey(e.date, timeframe) == key
  {
    if |entries| == 0 then []
    else
      var init, e := entries[..|entries| - 1], entries[|entries| - 1];
      assert entries == init + [e];
      WithKey(init, key, timeframe) + (if GroupKey(e.date, timeframe) == key then [e] else [])
  }

  lemma {:induction false} WithKeyEmpty(entries: seq<FinancialMetrics>, key: DateKey, timeframe: Timeframe)
    requires forall e :: e in entries ==> GroupKey(e.date, timeframe) != key
    ensures WithKey(entries, key, timeframe) == []
  {
    if |entries| > 0 {
      var init := entries[..|entries| - 1];
      assert forall e :: e in init ==> e in entries;
      assert entries[|entries| - 1] in entries;
      WithKeyEmpty(init, key, timeframe);
    }
  }

  /** Grouping is a partition: keys are distinct, every group is non-empty
      and holds exactly the entries with its key, in input order, and every
      entry has its group. */
  ghost predicate IsPartition(groups: seq<Group>, entries: seq<FinancialMetrics>, timeframe: Timeframe)
  {
    DistinctBy(groups, KeyOf) && GroupsExact(groups, entries, timeframe) && EveryEntryGrouped(groups, entries, timeframe)
  }

  ghost predicate GroupsExact(groups: seq<Group>, entries: seq<FinancialMetrics>, timeframe: Timeframe)
  {
    forall i :: 0 <= i < |groups| ==>
      groups[i].items == WithKey(entries, groups[i].key, timeframe) && |groups[i].items| > 0
  }

  ghost predicate EveryEntryGrouped(groups: seq<Group>, entries: seq<FinancialMetrics>, timeframe: Timeframe)
  {
    forall e :: e in entries ==> exists i :: 0 <= i < |groups| && groups[i].key == GroupKey(e.date, timeframe)
  }

  lemma {:induction false} GroupedIsPartition(entries: seq<FinancialMetrics>, timeframe: Timeframe)
    ensures IsPartition(Grouped(entries, timeframe), entries, timeframe)
  {
    if |entries| > 0 {
      var init, e := entries[..|entries| - 1], entries[|entries| - 1];
      assert entries == init + [e];
      GroupedIsPartition(init, timeframe);
      var groups := Grouped(init, timeframe);
      var key := GroupKey(e.date, timeframe);
      var idx := FindGroup(groups, key);
      if idx.Some? {
        JoinExistingGroup(groups, init, e, idx.value, timeframe);
      } else {
        forall x | x in init ensures GroupKey(x.date, timeframe) != key {
          var i :| 0 <= i < |groups| && groups[i].key == GroupKey(x.date, timeframe);
        }
        WithKeyEmpty(init, key, timeframe);
        OpenNewGroup(groups, init, e, timeframe);
      }
    }
  }

  lemma JoinExistingGroup(groups: seq<Group>, init: seq<FinancialMetrics>, e: FinancialMetrics, j: nat, timeframe: Timeframe)
    requires IsPartition(groups, init, timeframe)
    requires j < |groups| && groups[j].key == GroupKey(e.date, timeframe)
    ensures var key := GroupKey(e.date, timeframe);
      IsPartition(groups[j := Group(key, groups[j].items + [e])], init + [e], timeframe)
  {
    JoinKeepsExact(groups, init, e, j, timeframe);
    JoinKeepsGrouped(groups, init, e, j, timeframe);
    var g := groups[j := Group(GroupKey(e.date, timeframe), groups[j].items + [e])];
    forall a, b | 0 <= a < b < |g| ensures g[a].key != g[b].key {
      assert g[a].key == groups[a].key && g[b].key == groups[b].key;
    }
  }

  lemma JoinKeepsExact(groups: seq<Group>, init: seq<FinancialMetrics>, e: FinancialMetrics, j: nat, timeframe: Timeframe)
    requires DistinctBy(groups, KeyOf) && GroupsExact(groups, init, timeframe)
    requires j < |groups| && groups[j].key == GroupKey(e.date, timeframe)
    ensures var key := GroupKey(e.date, timeframe);
      GroupsExact(groups[j := Group(key, groups[j].items + [e])], init + [e], timeframe)
  {
    var key := GroupKey(e.date, timeframe);
    var entries := init + [e];
    var g := groups[j := Group(key, groups[j].items + [e])];
    assert entries[..|entries| - 1] == init;
    forall i | 0 <= i < |g| ensures g[i].items == WithKey(entries, g[i].key, timeframe) && |g[i].items| > 0 {
      if i != j {
        assert groups[i].key != groups[j].key;
      }
    }
  }

  lemma JoinKeepsGrouped(groups: seq<Group>, init: seq<FinancialMetrics>, e: FinancialMetrics, j: nat, timeframe: Timeframe)
    requires EveryEntryGrouped(groups, init, timeframe)
    requires j < |groups| && groups[j].key == GroupKey(e.date, timeframe)
    ensures var key := GroupKey(e.date, timeframe);
      EveryEntryGrouped(groups[j := Group(key, groups[j].items + [e])], init + [e], timeframe)
  {
    var key := GroupKey(e.date, timeframe);
    var entries := init + [e];
    var g := groups[j := Group(key, groups[j].items + [e])];
    forall x | x in entries ensures exists i :: 0 <= i < |g| && g[i].key == GroupKey(x.date, timeframe) {
      if x != e {
        assert x in init;
        var i :| 0 <= i < |groups| && groups[i].key == GroupKey(x.date, timeframe);
        assert g[i].key == groups[i].key;
      } else {
        assert g[j].key == key;
      }
    }
  }

  lemma OpenNewGroup(groups: seq<Group>, init: seq<FinancialMetrics>, e: FinancialMetrics, timeframe: Timeframe)
    requires IsPartition(groups, init, timeframe)
    requires forall j :: 0 <= j < |groups| ==> groups[j].key != GroupKey(e.date, timeframe)
    requires WithKey(init, GroupKey(e.date, timeframe), timeframe) == []
    ensures IsPartition(groups + [Group(GroupKey(e.date, timeframe), [e])], init + [e], timeframe)
  {
    OpenKeepsExact(groups, init, e, timeframe);
    OpenKeepsGrouped(groups, init, e, timeframe);
    var g := groups + [Group(GroupKey(e.date, timeframe), [e])];
    forall a, b | 0 <= a < b < |g| ensures g[a].key != g[b].key {
      assert g[a] == groups[a];
      if b < |groups| { assert g[b] == groups[b]; }
    }
  }

  lemma OpenKeepsExact(groups: seq<Group>, init: seq<FinancialMetrics>, e: FinancialMetrics, timeframe: Timeframe)
    requires GroupsExact(groups, init, timeframe)
    requires forall j :: 0 <= j < |groups| ==> groups[j].key != GroupKey(e.date, timeframe)
    requires WithKey(init, GroupKey(e.date, timeframe), timeframe) == []
    ensures GroupsExact(groups + [Group(GroupKey(e.date, timeframe), [e])], init + [e], timeframe)
  {
    var key := GroupKey(e.date, timeframe);
    var entries := init + [e];
    var g := groups + [Group(key, [e])];
    assert entries[..|entries| - 1] == init;
    forall i | 0 <= i < |g| ensures g[i].items == WithKey(entries, g[i].key, timeframe) && |g[i].items| > 0 {
      if i < |groups| {
        assert g[i] == groups[i];
      }
    }
  }

  lemma OpenKeepsGrouped(groups: seq<Group>, init: seq<FinancialMetrics>, e: FinancialMetrics, timeframe: Timeframe)
    requires EveryEntryGrouped(groups, init, timeframe)
    ensures EveryEntryGrouped(groups + [Group(GroupKey(e.date, timeframe), [e])], init + [e], timeframe)
  {
    var key := GroupKey(e.date, timeframe);
    var entries := init + [e];
    var g := groups + [Group(key, [e])];
    forall x | x in entries ensures exists i :: 0 <= i < |g| && g[i].key == GroupKey(x.date, timeframe) {
      if x != e {
        assert x in init;
        var i :| 0 <= i < |groups| && groups[i].key == GroupKey(x.date, timeframe);
        assert g[i] == groups[i];
      } else {
        assert g[|groups|].key == key;
      }
    }
  }

  /** A JavaScript Map, as its insertion order and its contents, holds the
      same groups as `groups`. */
  ghost predicate Mirrors(groups: seq<Group>, order: seq<DateKey>, members: map<DateKey, seq<FinancialMetrics>>)
  {
    |order| == |groups| &&
    (forall i :: 0 <= i < |order| ==> order[i] in members && groups[i] == Group(order[i], members[order[i]])) &&
    (forall key :: key in members ==> key in order)
  }

  /** The entry's key is already in the Map: its member list grows. */
  lemma MirrorJoin(groups: seq<Group>, order: seq<DateKey>, members: map<DateKey, seq<FinancialMetrics>>,
                   e: FinancialMetrics, timeframe: Timeframe)
    requires Mirrors(groups, order, members) && DistinctBy(groups, KeyOf)
    requires GroupKey(e.date, timeframe) in members
    ensures var key := GroupKey(e.date, timeframe);
      Mirrors(AddEntry(groups, e, timeframe), order, members[key := members[key] + [e]])
  {
    var key := GroupKey(e.date, timeframe);
    var j :| 0 <= j < |order| && order[j] == key;
    assert groups[j].key == key;
    var k := FindGroup(groups, key).value;
    forall i | 0 <= i < |order| && i != k ensures order[i] != key {
      assert groups[i].key != groups[k].key;
    }
  }

  /** The entry's key is new: it is appended to the insertion order. */
  lemma MirrorOpen(groups: seq<Group>, order: seq<DateKey>, members: map<DateKey, seq<FinancialMetrics>>,
                   e: FinancialMetrics, timeframe: Timeframe)
    requires Mirrors(groups, order, members)
    requires GroupKey(e.date, timeframe) !in members
    ensures var key := GroupKey(e.date, timeframe);
      Mirrors(AddEntry(groups, e, timeframe), order + [key], members[key := [e]])
  {
    var key := GroupKey(e.date, timeframe);
    forall i | 0 <= i < |groups| ensures groups[i].key != key {
      assert groups[i].key == order[i];
    }
  }

  lemma GroupedStep(entries: seq<FinancialMetrics>, k: nat, timeframe: Timeframe)
    requires k < |entries|
    ensures Grouped(entries[..k + 1], timeframe) == AddEntry(Grouped(entries[..k], timeframe), entries[k], timeframe)
    ensures IsPartition(Grouped(entries[..k], timeframe), entries[..k], timeframe)
  {
    assert entries[..k + 1][..k] == entries[..k];
    GroupedIsPartition(entries[..k], timeframe);
  }

  /** The `forEach` that fills the Map: `order` is the Map's insertion order
      and `members` its contents, which hold the groups of `Grouped`. */
  method GroupEntries(entries: seq<FinancialMetrics>, timeframe: Timeframe)
    returns (order: seq<DateKey>, members: map<DateKey, seq<FinancialMetrics>>)
    ensures Mirrors(Grouped(entries, timeframe), order, members)
  {
    order := [];
    members := map[];
    var k := 0;
    while k < |entries|
      invariant 0 <= k <= |entries|
      invariant Mirrors(Grouped(entries[..k], timeframe), order, members)
    {
      GroupedStep(entries, k, timeframe);
      var e := entries[k];
      var key := GroupKey(e.date, timeframe);
      ghost var next := AddEntry(Grouped(entries[..k], timeframe), e, timeframe);
      if key in members {
        MirrorJoin(Grouped(entries[..k], timeframe), order, members, e, timeframe);
        members := members[key := members[key] + [e]];
      } else {
        MirrorOpen(Grouped(entries[..k], timeframe), order, members, e, timeframe);
        order := order + [key];
        members := members[key := [e]];
      }
      assert Mirrors(next, order, members);
      k := k + 1;
    }
    assert entries[..|entries|] == entries;
  }

  // ----- one row per group -----

  /** `new Date(item.date).getTime()`, in days. An invalid date gives NaN and
      the comparator then yields NaN, which the sort treats as a tie, so all
      of them map to one shared value here. */
  function MemberTime(e: FinancialMetrics): real
  {
    var d := ParsedDate(e.date);
    if d.Some? then EpochDay(d.value) as real else 0.0
  }


  /** The row built from a group's members once they are in date order. */
  function RowOf(key: DateKey, items: seq<FinancialMetrics>): FinancialMetrics
    requires |items| > 0
  {
    var n := |items| as real;
    var open := items[0].open;
    var close := items[|items| - 1].close;
    var totalVolume := Sum(Project(items, Volume));
    var totalLiquidity := Sum(Project(items, Liquidity));
    var volatilities := Project(items, Volatility);
    FinancialMetrics(
      key, open, MaxOf(Project(items, High)), MinOf(Project(items, Low)), close,
      totalVolume, Div(Sum(Project(items, Times(Volatility, Volume))), totalVolume), totalLiquidity,
      Div(close - open, open) * 100.0,
      Some(Rollup(Div(totalVolume, n), Div(totalLiquidity, n), MaxOf(volatilities) - MinOf(volatilities), |items|)))
  }

  /** The row of one group: members sorted by date; OHLC from the first and
      last member and the extremes; sums of volume and liquidity; the
      volume-weighted volatility; and the rollup fields. */
  function RollupOf(g: Group): FinancialMetrics
    requires |g.items| > 0
  {
    SortByCorrect(g.items, MemberTime);
    RowOf(g.key, SortBy(g.items, MemberTime))
  }

  /** Member `i` is dated no later than any other member. */
  ghost predicate Earliest(items: seq<FinancialMetrics>, i: int)
    requires 0 <= i < |items|
  {
    forall j :: 0 <= j < |items| ==> MemberTime(items[i]) <= MemberTime(items[j])
  }

  /** Member `i` is dated no earlier than any other member. */
  ghost predicate Latest(items: seq<FinancialMetrics>, i: int)
    requires 0 <= i < |items|
  {
    forall j :: 0 <= j < |items| ==> MemberTime(items[j]) <= MemberTime(items[i])
  }

  /** The row opens at the open of an earliest member and closes at the
      close of a latest one. */
  lemma RollupOpenClose(g: Group)
    requires |g.items| > 0
    ensures exists i :: 0 <= i < |g.items| && RollupOf(g).open == g.items[i].open && Earliest(g.items, i)
    ensures exists i :: 0 <= i < |g.items| && RollupOf(g).close == g.items[i].close && Latest(g.items, i)
  {
    var items := SortBy(g.items, MemberTime);
    SortByCorrect(g.items, MemberTime);
    SortBySameElements(g.items, MemberTime);
    assert RollupOf(g).open == items[0].open;
    assert RollupOf(g).close == items[|items| - 1].close;
    SortedEnds(g.items, items);
  }

  /** The first and last of a sorted copy are an earliest and a latest member. */
  lemma SortedEnds(members: seq<FinancialMetrics>, items: seq<FinancialMetrics>)
    requires |items| > 0 && SortedBy(items, MemberTime)
    requires forall e :: e in items ==> e in members
    requires forall e :: e in members ==> e in items
    ensures exists i :: 0 <= i < |members| && members[i] == items[0] && Earliest(members, i)
    ensures exists i :: 0 <= i < |members| && members[i] == items[|items| - 1] && Latest(members, i)
  {
    var last := |items| - 1;
    assert items[0] in members && items[last] in members;
    var i0 :| 0 <= i0 < |members| && members[i0] == items[0];
    var i1 :| 0 <= i1 < |members| && members[i1] == items[last];
    FirstIsEarliest(members, items, i0);
    LastIsLatest(members, items, i1);
  }

  /** The head of a sorted copy is dated no later than any member. */
  lemma FirstIsEarliest(members: seq<FinancialMetrics>, items: seq<FinancialMetrics>, i: int)
    requires |items| > 0 && SortedBy(items, MemberTime)
    requires forall e :: e in members ==> e in items
    requires 0 <= i < |members| && members[i] == items[0]
    ensures Earliest(members, i)
  {
    forall j | 0 <= j < |members| ensures MemberTime(members[i]) <= MemberTime(members[j]) {
      assert members[j] in items;
      var k :| 0 <= k < |items| && items[k] == members[j];
    }
  }

  /** The last of a sorted copy is dated no earlier than any member. */
  lemma LastIsLatest(members: seq<FinancialMetrics>, items: seq<FinancialMetrics>, i: int)
    requires |items| > 0 && SortedBy(items, MemberTime)
    requires forall e :: e in members ==> e in items
    requires 0 <= i < |members| && members[i] == items[|items| - 1]
    ensures Latest(members, i)
  {
    forall j | 0 <= j < |members| ensures MemberTime(members[j]) <= MemberTime(members[i]) {
      assert members[j] in items;
      var k :| 0 <= k < |items| && items[k] == members[j];
    }
  }

  /** High and low are the largest high and the smallest low of the members,
      each attained by one of them. */
  lemma RollupExtremes(g: Group)
    requires |g.items| > 0
    ensures exists i :: 0 <= i < |g.items| && RollupOf(g).high == g.items[i].high
    ensures forall j :: 0 <= j < |g.items| ==> g.items[j].high <= RollupOf(g).high
    ensures exists i :: 0 <= i < |g.items| && RollupOf(g).low == g.items[i].low
    ensures forall j :: 0 <= j < |g.items| ==> RollupOf(g).low <= g.items[j].low
  {
    var items := SortBy(g.items, MemberTime);
    SortByCorrect(g.items, MemberTime);
    SortBySameElements(g.items, MemberTime);
    assert RollupOf(g) == RowOf(g.key, items);
    ExtremesOfSorted(g.items, items);
  }

  lemma ExtremesOfSorted(members: seq<FinancialMetrics>, items: seq<FinancialMetrics>)
    requires |items| > 0
    requires forall e :: e in items ==> e in members
    requires forall e :: e in members ==> e in items
    ensures exists i :: 0 <= i < |members| && MaxOf(Project(items, High)) == members[i].high
    ensures forall j :: 0 <= j < |members| ==> members[j].high <= MaxOf(Project(items, High))
    ensures exists i :: 0 <= i < |members| && MinOf(Project(items, Low)) == members[i].low
    ensures forall j :: 0 <= j < |members| ==> MinOf(Project(items, Low)) <= members[j].low
  {
    var highs, lows := Project(items, High), Project(items, Low);
    var h :| 0 <= h < |highs| && highs[h] == MaxOf(highs);
    var l :| 0 <= l < |lows| && lows[l] == MinOf(lows);
    assert items[h] in members && items[l] in members;
    forall j | 0 <= j < |members|
      ensures members[j].high <= MaxOf(highs) && MinOf(lows) <= members[j].low
    {
      assert members[j] in items;
      var k :| 0 <= k < |items| && items[k] == members[j];
      assert highs[k] == members[j].high && lows[k] == members[j].low;
    }
  }

  /** The row carries its group's key; volume and liquidity are the totals
      over all members whatever their order, the daily averages are those
      totals over the member count, which is `daysCount`, and the volatility
      range is not negative. */
  lemma RollupTotals(g: Group)
    requires |g.items| > 0
    ensures var r := RollupOf(g);
      var n := |g.items|;
      r.date == g.key &&
      r.volume == Sum(Project(g.items, Volume)) &&
      r.liquidity == Sum(Project(g.items, Liquidity)) &&
      r.rollup.Some? && r.rollup.value.daysCount == n &&
      r.rollup.value.avgDailyVolume == Div(r.volume, n as real) &&
      r.rollup.value.avgDailyLiquidity == Div(r.liquidity, n as real) &&
      r.rollup.value.volatilityRange >= 0.0
  {
    var items := SortBy(g.items, MemberTime);
    SortByCorrect(g.items, MemberTime);
    SumProjectSortBy(g.items, MemberTime, Volume);
    SumProjectSortBy(g.items, MemberTime, Liquidity);
    assert RollupOf(g) == RowOf(g.key, items);
  }

  /** The row's performance is the percentage change from its open to its
      close, and its volatility range is the spread between the largest and
      the smallest member volatility. */
  lemma RollupChangeAndRange(g: Group)
    requires |g.items| > 0
    ensures var r := RollupOf(g);
      r.performance == Div(r.close - r.open, r.open) * 100.0 &&
      r.rollup.Some? &&
      r.rollup.value.volatilityRange == MaxOf(Project(g.items, Volatility)) - MinOf(Project(g.items, Volatility))
  {
    var items := SortBy(g.items, MemberTime);
    SortBySameElements(g.items, MemberTime);
    ExtremesOfSameElements(g.items, items, Volatility);
    assert RollupOf(g) == RowOf(g.key, items);
  }

  /** The row's volatility is the volume-weighted mean of its members'. */
  lemma RollupVolatility(g: Group)
    requires |g.items| > 0
    ensures RollupOf(g).volatility == Div(Sum(Project(g.items, Times(Volatility, Volume))), Sum(Project(g.items, Volume)))
  {
    var items := SortBy(g.items, MemberTime);
    SumProjectSortBy(g.items, MemberTime, Volume);
    SumProjectSortBy(g.items, MemberTime, Times(Volatility, Volume));
    assert RollupOf(g) == RowOf(g.key, items);
  }

  /** With non-negative weights and a positive total, a weighted mean lies
      between the smallest and the largest value. */
  lemma WeightedMeanBounds(items: seq<FinancialMetrics>, lo: real, hi: real)
    requires forall i :: 0 <= i < |items| ==> lo <= items[i].volatility <= hi && 0.0 <= items[i].volume
    requires Sum(Project(items, Volume)) > 0.0
    ensures lo <= Div(Sum(Project(items, Times(Volatility, Volume))), Sum(Project(items, Volume))) <= hi
  {
    WeightedSumBounds(items, Volatility, Volume, lo, hi);
    ScaledBounds(Sum(Project(items, Times(Volatility, Volume))), Sum(Project(items, Volume)), lo, hi);
  }

  /** With non-negative volumes and a positive total, the weighted volatility
      lies between the members' smallest and largest volatility. */
  lemma WeightedVolatilityBounds(g: Group)
    requires |g.items| > 0
    requires forall i :: 0 <= i < |g.items| ==> g.items[i].volume >= 0.0
    requires Sum(Project(g.items, Volume)) > 0.0
    ensures MinOf(Project(g.items, Volatility)) <= RollupOf(g).volatility <= MaxOf(Project(g.items, Volatility))
  {
    var vols := Project(g.items, Volatility);
    var lo, hi := MinOf(vols), MaxOf(vols);
    assert forall i :: 0 <= i < |g.items| ==> lo <= g.items[i].volatility <= hi by {
      forall i | 0 <= i < |g.items| ensures lo <= g.items[i].volatility <= hi {
        assert vols[i] == g.items[i].volatility;
      }
    }
    WeightedMeanBounds(g.items, lo, hi);
    RollupVolatility(g);
  }

  // ----- ordering the rows -----

  /** The comparator of the final sort on the valid keys: `(year, week)` or
      `(year, month)` as one number. */
  function OrderKey(r: FinancialMetrics): real
  {
    match r.date
    case WeekKey(y, w) => (y * 100 + w) as real
    case MonthKey(y, m) => (y * 100 + m) as real
    case _ => 0.0
  }

  /** Two different keys of one view never compare equal. */
  lemma OrderKeyInjective(a: FinancialMetrics, b: FinancialMetrics, timeframe: Timeframe)
    requires timeframe != Daily
    requires GroupKeyShape(a.date, timeframe) && GroupKeyShape(b.date, timeframe)
    requires !a.date.InvalidKey? && !b.date.InvalidKey? && a.date != b.date
    ensures OrderKey(a) != OrderKey(b)
  {
  }

  function DateOf(r: FinancialMetrics): DateKey { r.date }

  function ValidRows(rows: seq<FinancialMetrics>): (r: seq<FinancialMetrics>)
    ensures forall e :: e in r ==> e in rows && !e.date.InvalidKey?
    ensures forall e :: e in rows && !e.date.InvalidKey? ==> e in r
  {
    if |rows| == 0 then []
    else
      var init, e := rows[..|rows| - 1], rows[|rows| - 1];
      assert rows == init + [e];
      ValidRows(init) + (if e.date.InvalidKey? then [] else [e])
  }

  function InvalidRows(rows: seq<FinancialMetrics>): (r: seq<FinancialMetrics>)
    ensures forall e :: e in r ==> e in rows && e.date.InvalidKey?
    ensures forall e :: e in rows && e.date.InvalidKey? ==> e in r
  {
    if |rows| == 0 then []
    else
      var init, e := rows[..|rows| - 1], rows[|rows| - 1];
      assert rows == init + [e];
      InvalidRows(init) + (if e.date.InvalidKey? then [e] else [])
  }

  /** Splitting rows by validity loses none and keeps keys distinct. */
  lemma SplitRows(rows: seq<FinancialMetrics>)
    requires DistinctBy(rows, DateOf)
    ensures |ValidRows(rows)| + |InvalidRows(rows)| == |rows|
    ensures DistinctBy(ValidRows(rows), DateOf) && DistinctBy(InvalidRows(rows), DateOf)
  {
    SplitCount(rows);
    ValidRowsDistinct(rows);
    InvalidRowsDistinct(rows);
  }

  lemma {:induction false} SplitCount(rows: seq<FinancialMetrics>)
    ensures |ValidRows(rows)| + |InvalidRows(rows)| == |rows|
  {
    if |rows| > 0 {
      SplitCount(rows[..|rows| - 1]);
    }
  }

  /** The last row's key differs from every earlier row's. */
  lemma LastKeyFresh(rows: seq<FinancialMetrics>)
    requires DistinctBy(rows, DateOf) && |rows| > 0
    ensures DistinctBy(rows[..|rows| - 1], DateOf)
    ensures forall x :: x in rows[..|rows| - 1] ==> x.date != rows[|rows| - 1].date
  {
    var init, e := rows[..|rows| - 1], rows[|rows| - 1];
    assert rows == init + [e];
    forall x | x in init ensures x.date != e.date {
      var i :| 0 <= i < |init| && init[i] == x;
      assert rows[i] == x;
    }
  }

  lemma {:induction false} ValidRowsDistinct(rows: seq<FinancialMetrics>)
    requires DistinctBy(rows, DateOf)
    ensures DistinctBy(ValidRows(rows), DateOf)
  {
    if |rows| > 0 {
      LastKeyFresh(rows);
      ValidRowsDistinct(rows[..|rows| - 1]);
    }
  }

  lemma {:induction false} InvalidRowsDistinct(rows: seq<FinancialMetrics>)
    requires DistinctBy(rows, DateOf)
    ensures DistinctBy(InvalidRows(rows), DateOf)
  {
    if |rows| > 0 {
      LastKeyFresh(rows);
      InvalidRowsDistinct(rows[..|rows| - 1]);
    }
  }

  /** The final sort. Valid keys are ordered by (year, week) or by date; the
      `NaN` row compares as a tie with every row, which leaves its place to
      the engine, and is put last here. */
  function Ordered(rows: seq<FinancialMetrics>): seq<FinancialMetrics>
  {
    SortBy(ValidRows(rows), OrderKey) + InvalidRows(rows)
  }

  lemma {:induction false} InvalidRowsEmpty(rows: seq<FinancialMetrics>)
    requires forall e :: e in rows ==> !e.date.InvalidKey?
    ensures InvalidRows(rows) == []
  {
    if |rows| > 0 {
      var init, e := rows[..|rows| - 1], rows[|rows| - 1];
      assert rows == init + [e];
      InvalidRowsEmpty(init);
    }
  }

  /** A view has at most one `NaN` row: all of them would share one key. */
  lemma {:induction false} AtMostOneInvalid(rows: seq<FinancialMetrics>, timeframe: Timeframe)
    requires timeframe != Daily
    requires DistinctBy(rows, DateOf)
    requires forall e :: e in rows ==> GroupKeyShape(e.date, timeframe)
    ensures |InvalidRows(rows)| <= 1
  {
    if |rows| > 0 {
      var init, e := rows[..|rows| - 1], rows[|rows| - 1];
      assert rows == init + [e];
      assert forall i :: 0 <= i < |init| ==> init[i] == rows[i];
      AtMostOneInvalid(init, timeframe);
      if e.date.InvalidKey? {
        forall x | x in init ensures !x.date.InvalidKey? {
          var i :| 0 <= i < |init| && init[i] == x;
          assert DateOf(rows[i]) != DateOf(rows[|rows| - 1]);
        }
        InvalidRowsEmpty(init);
      }
    }
  }

  /** The sorted valid rows ascend strictly. */
  lemma SortedValidRows(rows: seq<FinancialMetrics>, timeframe: Timeframe)
    requires timeframe != Daily
    requires DistinctBy(rows, DateOf)
    requires forall e :: e in rows ==> GroupKeyShape(e.date, timeframe)
    ensures var sorted := SortBy(ValidRows(rows), OrderKey);
      DistinctBy(sorted, DateOf) &&
      (forall e :: e in sorted ==> e in rows && !e.date.InvalidKey?) &&
      (forall e :: e in rows && !e.date.InvalidKey? ==> e in sorted) &&
      (forall i, j :: 0 <= i < j < |sorted| ==> OrderKey(sorted[i]) < OrderKey(sorted[j]))
  {
    var valid := ValidRows(rows);
    SplitRows(rows);
    SortByCorrect(valid, OrderKey);
    SortKeepsDistinct(valid, OrderKey, DateOf);
    var sorted := SortBy(valid, OrderKey);
    forall i, j | 0 <= i < j < |sorted| ensures OrderKey(sorted[i]) < OrderKey(sorted[j]) {
      assert sorted[i] in valid && sorted[j] in valid;
      OrderKeyInjective(sorted[i], sorted[j], timeframe);
    }
  }

  /** Ordering a view's rows: a permutation with distinct keys in which only
      the last row may be the `NaN` row and every valid row comes after rows
      with a smaller key. */
  lemma OrderedShape(rows: seq<FinancialMetrics>, timeframe: Timeframe)
    requires timeframe != Daily
    requires DistinctBy(rows, DateOf)
    requires forall e :: e in rows ==> GroupKeyShape(e.date, timeframe)
    ensures var r := Ordered(rows);
      DistinctBy(r, DateOf) && |r| == |rows| &&
      (forall i :: 0 <= i < |r| - 1 ==> !r[i].date.InvalidKey?) &&
      (forall i, j :: 0 <= i < j < |r| && !r[j].date.InvalidKey? ==> OrderKey(r[i]) < OrderKey(r[j])) &&
      (forall e :: e in r ==> e in rows) && (forall e :: e in rows ==> e in r)
  {
    var sorted, invalid := SortBy(ValidRows(rows), OrderKey), InvalidRows(rows);
    SplitRows(rows);
    SortByCorrect(ValidRows(rows), OrderKey);
    AtMostOneInvalid(rows, timeframe);
    SortedValidRows(rows, timeframe);
    ValidThenInvalid(sorted, invalid);
    var r := sorted + invalid;
    forall e | e in r ensures e in rows {
      if e !in sorted { assert e in invalid; }
    }
  }

  /** Valid rows in strictly ascending order followed by at most one `NaN`
      row. */
  lemma ValidThenInvalid(sorted: seq<FinancialMetrics>, invalid: seq<FinancialMetrics>)
    requires DistinctBy(sorted, DateOf) && |invalid| <= 1
    requires forall e :: e in sorted ==> !e.date.InvalidKey?
    requires forall e :: e in invalid ==> e.date.InvalidKey?
    requires forall i, j :: 0 <= i < j < |sorted| ==> OrderKey(sorted[i]) < OrderKey(sorted[j])
    ensures var r := sorted + invalid;
      DistinctBy(r, DateOf) &&
      (forall i :: 0 <= i < |r| - 1 ==> !r[i].date.InvalidKey?) &&
      (forall i, j :: 0 <= i < j < |r| && !r[j].date.InvalidKey? ==> OrderKey(r[i]) < OrderKey(r[j]))
  {
    var r := sorted + invalid;
    forall k | 0 <= k < |r| ensures r[k].date.InvalidKey? <==> k >= |sorted| {
      if k < |sorted| {
        assert r[k] == sorted[k] && sorted[k] in sorted;
      } else {
        assert r[k] == invalid[k - |sorted|] && r[k] in invalid;
      }
    }
    forall i, j | 0 <= i < j < |r| ensures r[i].date != r[j].date {
      if j < |sorted| {
        assert r[i] == sorted[i] && r[j] == sorted[j];
      }
    }
    forall i, j | 0 <= i < j < |r| && !r[j].date.InvalidKey? ensures OrderKey(r[i]) < OrderKey(r[j]) {
      assert r[i] == sorted[i] && r[j] == sorted[j];
    }
  }

  function Rollups(groups: seq<Group>): (rows: seq<FinancialMetrics>)
    requires forall i :: 0 <= i < |groups| ==> |groups[i].items| > 0
    ensures |rows| == |groups|
    ensures forall i :: 0 <= i < |groups| ==> rows[i] == RollupOf(groups[i])
  {
    seq(|groups|, i requires 0 <= i < |groups| => RollupOf(groups[i]))
  }

  /** The `map` over the Map's entries: one row per key, in insertion order. */
  method RollupEach(order: seq<DateKey>, members: map<DateKey, seq<FinancialMetrics>>)
    returns (rows: seq<FinancialMetrics>)
    requires forall i :: 0 <= i < |order| ==> order[i] in members && |members[order[i]]| > 0
    ensures |rows| == |order|
    ensures forall i :: 0 <= i < |order| ==> rows[i] == RollupOf(Group(order[i], members[order[i]]))
  {
    rows := [];
    var i := 0;
    while i < |order|
      invariant 0 <= i <= |order| && |rows| == i
      invariant forall j :: 0 <= j < i ==> rows[j] == RollupOf(Group(order[j], members[order[j]]))
    {
      rows := rows + [RollupOf(Group(order[i], members[order[i]]))];
      i := i + 1;
    }
  }

  lemma MirroredRollups(groups: seq<Group>, order: seq<DateKey>, members: map<DateKey, seq<FinancialMetrics>>,
                        rows: seq<FinancialMetrics>)
    requires Mirrors(groups, order, members)
    requires forall i :: 0 <= i < |groups| ==> |groups[i].items| > 0
    requires |rows| == |order|
    requires forall i :: 0 <= i < |order| ==> rows[i] == RollupOf(Group(order[i], members[order[i]]))
    ensures rows == Rollups(groups)
  {
  }

  /** getAggregatedData, given the last completed week (the source reads the
      clock for it). */
  function Aggregated(data: seq<FinancialMetrics>, timeframe: Timeframe, lastYear: int, lastWeek: int)
    : seq<FinancialMetrics>
  {
    if timeframe == Daily then data
    else
      var kept := Filtered(data, timeframe, lastYear, lastWeek);
      GroupedIsPartition(kept, timeframe);
      Ordered(Rollups(Grouped(kept, timeframe)))
  }

  method GetAggregatedData(data: seq<FinancialMetrics>, timeframe: Timeframe, lastYear: int, lastWeek: int)
    returns (r: seq<FinancialMetrics>)
    ensures r == Aggregated(data, timeframe, lastYear, lastWeek)
  {
    if timeframe == Daily {
      return data;
    }
    var kept := Filtered(data, timeframe, lastYear, lastWeek);
    var order, members := GroupEntries(kept, timeframe);
    ghost var groups := Grouped(kept, timeframe);
    GroupedIsPartition(kept, timeframe);
    var rows := RollupEach(order, members);
    MirroredRollups(groups, order, members, rows);
    r := SortBy(ValidRows(rows), OrderKey) + InvalidRows(rows);
  }

  /** The row summarises exactly the kept entries that share its key. */
  ghost predicate Summarises(row: FinancialMetrics, kept: seq<FinancialMetrics>, timeframe: Timeframe)
  {
    var items := WithKey(kept, row.date, timeframe);
    |items| > 0 && row == RollupOf(Group(row.date, items))
  }

  /** The row of one group of the partition summarises that group. */
  lemma RowOfGroup(g: Group, kept: seq<FinancialMetrics>, timeframe: Timeframe)
    requires g.items == WithKey(kept, g.key, timeframe) && |g.items| > 0
    ensures RollupOf(g).date == g.key
    ensures Summarises(RollupOf(g), kept, timeframe)
    ensures GroupKeyShape(RollupOf(g).date, timeframe)
  {
    RollupTotals(g);
    assert g.items[0] in WithKey(kept, g.key, timeframe);
  }

  lemma RowsOfGroups(groups: seq<Group>, kept: seq<FinancialMetrics>, timeframe: Timeframe)
    requires IsPartition(groups, kept, timeframe)
    ensures DistinctBy(Rollups(groups), DateOf)
    ensures forall e :: e in Rollups(groups) ==> Summarises(e, kept, timeframe) && GroupKeyShape(e.date, timeframe)
    ensures forall e :: e in kept ==>
      exists i :: 0 <= i < |Rollups(groups)| && Rollups(groups)[i].date == GroupKey(e.date, timeframe)
  {
    var rows := Rollups(groups);
    forall i | 0 <= i < |rows|
      ensures rows[i].date == groups[i].key && Summarises(rows[i], kept, timeframe)
      ensures GroupKeyShape(rows[i].date, timeframe)
    {
      RowOfGroup(groups[i], kept, timeframe);
    }
    forall e | e in kept ensures exists i :: 0 <= i < |rows| && rows[i].date == GroupKey(e.date, timeframe) {
      var i :| 0 <= i < |groups| && groups[i].key == GroupKey(e.date, timeframe);
      assert rows[i].date == groups[i].key;
    }
  }

  /** The rows of a weekly or monthly view have distinct keys; only the last
      row may be the `NaN` row, and each valid row has a larger (year, week)
      or (year, month) than every row before it. */
  lemma AggregatedOrder(data: seq<FinancialMetrics>, timeframe: Timeframe, lastYear: int, lastWeek: int)
    requires timeframe != Daily
    ensures var r := Aggregated(data, timeframe, lastYear, lastWeek);
      DistinctBy(r, DateOf) &&
      (forall i :: 0 <= i < |r| - 1 ==> !r[i].date.InvalidKey?) &&
      (forall i, j :: 0 <= i < j < |r| && !r[j].date.InvalidKey? ==> OrderKey(r[i]) < OrderKey(r[j]))
  {
    var kept := Filtered(data, timeframe, lastYear, lastWeek);
    var groups := Grouped(kept, timeframe);
    GroupedIsPartition(kept, timeframe);
    RowsOfGroups(groups, kept, timeframe);
    OrderedShape(Rollups(groups), timeframe);
  }

  /** Every row summarises exactly the kept entries sharing its key, and
      every kept entry has its row. */
  ghost predicate Covers(r: seq<FinancialMetrics>, kept: seq<FinancialMetrics>, timeframe: Timeframe)
  {
    (forall i :: 0 <= i < |r| ==> Summarises(r[i], kept, timeframe)) &&
    (forall e :: e in kept ==> exists i :: 0 <= i < |r| && r[i].date == GroupKey(e.date, timeframe))
  }

  /** The rows of a weekly or monthly view cover the kept entries. */
  lemma AggregatedCoverage(data: seq<FinancialMetrics>, timeframe: Timeframe, lastYear: int, lastWeek: int)
    requires timeframe != Daily
    ensures Covers(Aggregated(data, timeframe, lastYear, lastWeek), Filtered(data, timeframe, lastYear, lastWeek), timeframe)
  {
    var kept := Filtered(data, timeframe, lastYear, lastWeek);
    GroupedIsPartition(kept, timeframe);
    OrderedCoverage(Grouped(kept, timeframe), kept, timeframe);
  }

  lemma OrderedCoverage(groups: seq<Group>, kept: seq<FinancialMetrics>, timeframe: Timeframe)
    requires timeframe != Daily && IsPartition(groups, kept, timeframe)
    ensures Covers(Ordered(Rollups(groups)), kept, timeframe)
  {
    var rows := Rollups(groups);
    RowsOfGroups(groups, kept, timeframe);
    OrderedShape(rows, timeframe);
    SummarisesAll(Ordered(rows), rows, kept, timeframe);
    CoverAll(Ordered(rows), rows, kept, timeframe);
  }

  lemma SummarisesAll(r: seq<FinancialMetrics>, rows: seq<FinancialMetrics>, kept: seq<FinancialMetrics>, timeframe: Timeframe)
    requires forall e :: e in rows ==> Summarises(e, kept, timeframe)
    requires forall e :: e in r ==> e in rows
    ensures forall i :: 0 <= i < |r| ==> Summarises(r[i], kept, timeframe)
  {
    forall i | 0 <= i < |r| ensures Summarises(r[i], kept, timeframe) {
      assert r[i] in rows;
    }
  }

  lemma CoverAll(r: seq<FinancialMetrics>, rows: seq<FinancialMetrics>, kept: seq<FinancialMetrics>, timeframe: Timeframe)
    requires forall e :: e in kept ==> exists i :: 0 <= i < |rows| && rows[i].date == GroupKey(e.date, timeframe)
    requires forall e :: e in rows ==> e in r
    ensures forall e :: e in kept ==> exists i :: 0 <= i < |r| && r[i].date == GroupKey(e.date, timeframe)
  {
    forall e | e in kept ensures exists i :: 0 <= i < |r| && r[i].date == GroupKey(e.date, timeframe) {
      var k :| 0 <= k < |rows| && rows[k].date == GroupKey(e.date, timeframe);
      assert rows[k] in r;
    }
  }

  // ----- the kline patch-in -----

  /** The fields of a kline event the hook reads: the open time in ms and
      the price and volume texts. */
  datatype Kline = Kline(openTime: int, o: string, h: string, l: string, c: string, v: string)

  /** The daily row a kline becomes; `parse` is `parseFloat`. */
  function KlineRow(k: Kline, parse: string -> real): (row: FinancialMetrics)
    ensures row.date == DayKey(DateOfMs(k.openTime)) && row.rollup.None?
    ensures row.liquidity == row.volume
    ensures parse(k.o) != 0.0 ==> row.volatility * parse(k.o) == (row.high - row.low) * 100.0
    ensures parse(k.o) != 0.0 ==> row.performance * parse(k.o) == (row.close - row.open) * 100.0
  {
    var open, high, low, close, volume := parse(k.o), parse(k.h), parse(k.l), parse(k.c), parse(k.v);
    FinancialMetrics(DayKey(DateOfMs(k.openTime)), open, high, low, close, volume,
      Div(high - low, open) * 100.0, volume, Div(close - open, open) * 100.0, None)
  }

  /** `findIndex`: the first position holding `key`, or None. */
  function FindDate(data: seq<FinancialMetrics>, key: DateKey): (r: Option<nat>)
    ensures r.Some? ==> r.value < |data| && data[r.value].date == key
    ensures r.Some? ==> forall j :: 0 <= j < r.value ==> data[j].date != key
    ensures r.None? ==> forall j :: 0 <= j < |data| ==> data[j].date != key
  {
    if |data| == 0 then None
    else if data[0].date == key then Some(0)
    else
      var r := FindDate(data[1..], key);
      assert forall j :: 1 <= j < |data| ==> data[j] == data[1..][j - 1];
      if r.Some? then Some(r.value + 1) else None
  }

  /** onKlineUpdate: the row of the kline's UTC day is replaced by the
      kline's values; a day not in the series is ignored. */
  function PatchIn(data: seq<FinancialMetrics>, k: Kline, parse: string -> real): seq<FinancialMetrics>
  {
    var row := KlineRow(k, parse);
    var idx := FindDate(data, row.date);
    if idx.Some? then data[idx.value := row] else data
  }

  /** The patch keeps the length; exactly the first row of the kline's day
      changes, to the kline's row, and with no such row nothing changes. */
  lemma PatchInFacts(data: seq<FinancialMetrics>, k: Kline, parse: string -> real)
    ensures var r := PatchIn(data, k, parse);
      var key := DayKey(DateOfMs(k.openTime));
      |r| == |data| &&
      ((forall j :: 0 <= j < |data| ==> data[j].date != key) ==> r == data) &&
      (forall i :: 0 <= i < |data| && data[i].date == key && (forall j :: 0 <= j < i ==> data[j].date != key) ==>
        r[i] == KlineRow(k, parse) && forall j :: 0 <= j < |data| && j != i ==> r[j] == data[j])
  {
  }

  /** Receiving the same kline twice is the same as receiving it once. */
  lemma PatchInIdempotent(data: seq<FinancialMetrics>, k: Kline, parse: string -> real)
    ensures PatchIn(PatchIn(data, k, parse), k, parse) == PatchIn(data, k, parse)
  {
    var row := KlineRow(k, parse);
    var idx := FindDate(data, row.date);
    if idx.Some? {
      var once := data[idx.value := row];
      var again := FindDate(once, row.date);
      assert again.Some? && again.value == idx.value by {
        assert once[idx.value].date == row.date;
        assert forall j :: 0 <= j < idx.value ==> once[j].date != row.date;
      }
    }
  }
}
