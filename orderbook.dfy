/** The live order-book replica of `src/hooks/useLiveData.ts`: a REST snapshot
    seeds it, a symbol change or a new socket clears it, and each depth diff
    from the socket edits it level by level, re-sorts both sides and keeps the
    best 100 levels of each. Prices and quantities stay strings, as on the
    wire; `parse` stands for `parseFloat`. */
module OrderBook {
  import opened Common

  /** A `[price, quantity]` pair of one side of the book. */
  datatype Level = Level(price: string, qty: string)

  const MaxLevels := 100

  /** `side.findIndex(([p]) => p === price)` */
  function FindLevel(side: seq<Level>, price: string): (r: Option<nat>)
    ensures r.Some? ==> (r.value < |side| && side[r.value].price == price &&
      forall j :: 0 <= j < r.value ==> side[j].price != price)
    ensures r.None? ==> forall j :: 0 <= j < |side| ==> side[j].price != price
  {
    if |side| == 0 then None
    else if side[0].price == price then Some(0)
    else
      var r := FindLevel(side[1..], price);
      assert forall j :: 1 <= j < |side| ==> side[j] == side[1..][j - 1];
      if r.Some? then Some(r.value + 1) else None
  }

  /** One `[price, qty]` pair of a diff applied to one side. A zero quantity
      removes the level with that price string; any other quantity overwrites
      the level's quantity or appends a new level. */
  function ApplyPair(side: seq<Level>, pair: Level, parse: string -> real): seq<Level>
  {
    var idx := FindLevel(side, pair.price);
    if parse(pair.qty) == 0.0 then
      if idx.Some? then side[..idx.value] + side[idx.value + 1..] else side
    else if idx.Some? then side[idx.value := pair]
    else side + [pair]
  }

  /** The pairs of a diff applied in order, as `forEach` does. */
  function ApplyPairs(side: seq<Level>, pairs: seq<Level>, parse: string -> real): seq<Level>
  {
    if |pairs| == 0 then side
    else ApplyPair(ApplyPairs(side, pairs[..|pairs| - 1], parse), pairs[|pairs| - 1], parse)
  }

  function BidKey(parse: string -> real): Level -> real
  {
    (l: Level) => -parse(l.price)
  }

  function AskKey(parse: string -> real): Level -> real
  {
    (l: Level) => parse(l.price)
  }

  /** `slice(0, 100)`: the first 100 levels, or all of them when there are
      fewer. */
  function Truncate(side: seq<Level>): (r: seq<Level>)
    ensures r <= side
    ensures |r| == Min2(|side|, MaxLevels)
  {
    if |side| <= MaxLevels then side else side[..MaxLevels]
  }

  /** A side after a diff: edited, sorted (bids by descending price, asks by
      ascending price, stably), then cut to the best 100 levels. */
  function SideAfter(side: seq<Level>, pairs: seq<Level>, parse: string -> real, isBid: bool): seq<Level>
  {
    Truncate(SortBy(ApplyPairs(side, pairs, parse), if isBid then BidKey(parse) else AskKey(parse)))
  }

  function PriceOf(l: Level): string { l.price }

  /** No price string appears twice on a side. */
  predicate DistinctPrices(side: seq<Level>)
  {
    forall i, j :: 0 <= i < j < |side| ==> side[i].price != side[j].price
  }

  /** The quantity the last pair naming `price` sets, if any pair names it. */
  function LastNamed(pairs: seq<Level>, price: string): Option<string>
  {
    if |pairs| == 0 then None
    else if pairs[|pairs| - 1].price == price then Some(pairs[|pairs| - 1].qty)
    else LastNamed(pairs[..|pairs| - 1], price)
  }

  // ----- single pair -----

  lemma {:induction false} ApplyPairKeepsDistinct(side: seq<Level>, pair: Level, parse: string -> real)
    requires DistinctPrices(side)
    ensures DistinctPrices(ApplyPair(side, pair, parse))
  {
    var idx := FindLevel(side, pair.price);
    var r := ApplyPair(side, pair, parse);
    if parse(pair.qty) == 0.0 && idx.Some? {
      var k := idx.value;
      forall i, j | 0 <= i < j < |r| ensures r[i].price != r[j].price {
        var i' := if i < k then i else i + 1;
        var j' := if j < k then j else j + 1;
        assert r[i] == side[i'] && r[j] == side[j'];
      }
    }
  }

  /** With distinct prices, a pair decides its own price and leaves every
      other level as it was: a zero quantity leaves no level at that price and
      never inserts one, any other quantity leaves exactly the pair. */
  lemma {:induction false} ApplyPairMembership(side: seq<Level>, pair: Level, parse: string -> real, l: Level)
    requires DistinctPrices(side)
    ensures l in ApplyPair(side, pair, parse) <==>
      if l.price == pair.price then parse(pair.qty) != 0.0 && l == pair else l in side
  {
    var idx := FindLevel(side, pair.price);
    if idx.Some? && parse(pair.qty) == 0.0 {
      RemovedMembership(side, idx.value, l);
    } else if idx.Some? {
      OverwrittenMembership(side, idx.value, pair, l);
    }
  }

  /** Removing the level at k, the only one with its price. */
  lemma RemovedMembership(side: seq<Level>, k: nat, l: Level)
    requires DistinctPrices(side) && k < |side|
    ensures l in side[..k] + side[k + 1..] <==> l.price != side[k].price && l in side
  {
    var r := side[..k] + side[k + 1..];
    forall i | 0 <= i < |r| ensures r[i].price != side[k].price && r[i] in side {
      if i < k { assert r[i] == side[i]; } else { assert r[i] == side[i + 1]; }
    }
    if l in side && l.price != side[k].price {
      var i :| 0 <= i < |side| && side[i] == l;
      if i < k { assert r[i] == l; } else { assert r[i - 1] == l; }
    }
  }

  /** Overwriting the level at k, the only one with the pair's price. */
  lemma OverwrittenMembership(side: seq<Level>, k: nat, pair: Level, l: Level)
    requires DistinctPrices(side) && k < |side| && side[k].price == pair.price
    ensures l in side[k := pair] <==> if l.price == pair.price then l == pair else l in side
  {
    var r := side[k := pair];
    forall i | 0 <= i < |r| && i != k ensures r[i].price != pair.price && r[i] == side[i] {
    }
    assert r[k] == pair;
    if l in side && l.price != pair.price {
      var i :| 0 <= i < |side| && side[i] == l;
      assert r[i] == l;
    }
    if l in r && l.price != pair.price {
      var i :| 0 <= i < |r| && r[i] == l;
      assert side[i] == l;
    }
  }

  // ----- a whole diff -----

  lemma {:induction false} ApplyPairsKeepsDistinct(side: seq<Level>, pairs: seq<Level>, parse: string -> real)
    requires DistinctPrices(side)
    ensures DistinctPrices(ApplyPairs(side, pairs, parse))
  {
    if |pairs| > 0 {
      ApplyPairsKeepsDistinct(side, pairs[..|pairs| - 1], parse);
      ApplyPairKeepsDistinct(ApplyPairs(side, pairs[..|pairs| - 1], parse), pairs[|pairs| - 1], parse);
    }
  }

  /** Map semantics of a diff: the last pair naming a price decides whether a
      level with that price remains and with which quantity; levels whose
      price no pair names are kept unchanged. */
  lemma {:induction false} ApplyPairsMembership(side: seq<Level>, pairs: seq<Level>, parse: string -> real, l: Level)
    requires DistinctPrices(side)
    ensures l in ApplyPairs(side, pairs, parse) <==>
      match LastNamed(pairs, l.price)
      case None => l in side
      case Some(q) => parse(q) != 0.0 && l.qty == q
  {
    if |pairs| > 0 {
      var init := pairs[..|pairs| - 1];
      ApplyPairsKeepsDistinct(side, init, parse);
      ApplyPairsMembership(side, init, parse, l);
      ApplyPairMembership(ApplyPairs(side, init, parse), pairs[|pairs| - 1], parse, l);
    }
  }

  /** The loop of `update.b.forEach(...)` (and of `update.a.forEach(...)`). */
  method ApplyPairsInOrder(side: seq<Level>, pairs: seq<Level>, parse: string -> real) returns (r: seq<Level>)
    ensures r == ApplyPairs(side, pairs, parse)
  {
    r := side;
    var k := 0;
    while k < |pairs|
      invariant 0 <= k <= |pairs|
      invariant r == ApplyPairs(side, pairs[..k], parse)
    {
      assert pairs[..k + 1][..k] == pairs[..k];
      var price, qty := pairs[k].price, pairs[k].qty;
      var idx := FindLevel(r, price);
      if parse(qty) == 0.0 {
        if idx.Some? {
          r := r[..idx.value] + r[idx.value + 1..];
        }
      } else if idx.Some? {
        r := r[idx.value := Level(price, qty)];
      } else {
        r := r + [Level(price, qty)];
      }
      k := k + 1;
    }
    assert pairs[..|pairs|] == pairs;
  }

  // ----- sorting and truncation -----

  /** After a diff each side is sorted (bids by non-increasing, asks by
      non-decreasing parsed price), holds the first 100 levels of the sorted
      edited side (all of them when there are fewer), keeps its prices
      distinct, and holds only levels of the edited side; every level that
      was dropped is priced no better than every level kept. */
  lemma {:induction false} SideAfterShape(side: seq<Level>, pairs: seq<Level>, parse: string -> real, isBid: bool)
    requires DistinctPrices(side)
    ensures |SideAfter(side, pairs, parse, isBid)| <= MaxLevels
    ensures var r := SideAfter(side, pairs, parse, isBid);
      isBid ==> forall i, j :: 0 <= i < j < |r| ==> parse(r[i].price) >= parse(r[j].price)
    ensures var r := SideAfter(side, pairs, parse, isBid);
      !isBid ==> forall i, j :: 0 <= i < j < |r| ==> parse(r[i].price) <= parse(r[j].price)
    ensures DistinctPrices(SideAfter(side, pairs, parse, isBid))
    ensures forall l :: l in SideAfter(side, pairs, parse, isBid) ==> l in ApplyPairs(side, pairs, parse)
    ensures var r, edited := SideAfter(side, pairs, parse, isBid), ApplyPairs(side, pairs, parse);
      |edited| <= MaxLevels ==> forall l :: l in r <==> l in edited
  {
    var edited := ApplyPairs(side, pairs, parse);
    var key := if isBid then BidKey(parse) else AskKey(parse);
    ApplyPairsKeepsDistinct(side, pairs, parse);
    SortTruncateShape(edited, key);
    var r := Truncate(SortBy(edited, key));
    assert r == SideAfter(side, pairs, parse, isBid);
    assert SortedBy(r, key);
    forall i, j | 0 <= i < j < |r|
      ensures isBid ==> parse(r[i].price) >= parse(r[j].price)
      ensures !isBid ==> parse(r[i].price) <= parse(r[j].price)
    {
      assert key(r[i]) <= key(r[j]);
    }
  }

  /** A side after a diff is the first 100 levels of the sorted edited side
      (all of them when there are fewer): every level dropped is priced no
      better than every level kept. */
  lemma SideAfterBest(side: seq<Level>, pairs: seq<Level>, parse: string -> real, isBid: bool)
    ensures var edited := ApplyPairs(side, pairs, parse);
      SideAfter(side, pairs, parse, isBid) <= SortBy(edited, if isBid then BidKey(parse) else AskKey(parse)) &&
      |SideAfter(side, pairs, parse, isBid)| == Min2(|edited|, MaxLevels)
    ensures var r, edited := SideAfter(side, pairs, parse, isBid), ApplyPairs(side, pairs, parse);
      forall l, d :: l in r && d in edited && d !in r ==>
        if isBid then parse(d.price) <= parse(l.price) else parse(l.price) <= parse(d.price)
  {
    var edited := ApplyPairs(side, pairs, parse);
    var r := SideAfter(side, pairs, parse, isBid);
    if isBid {
      var key := BidKey(parse);
      SortTruncateBest(edited, key);
      assert r == Truncate(SortBy(edited, key));
      forall l, d | l in r && d in edited && d !in r ensures parse(d.price) <= parse(l.price) {
        assert key(l) <= key(d);
      }
    } else {
      var key := AskKey(parse);
      SortTruncateBest(edited, key);
      assert r == Truncate(SortBy(edited, key));
      forall l, d | l in r && d in edited && d !in r ensures parse(l.price) <= parse(d.price) {
        assert key(l) <= key(d);
      }
    }
  }

  /** Sorting a side with distinct prices and cutting it to 100 levels gives
      a sorted side with distinct prices, drawn from the input and complete
      when the input fits. */
  lemma SortTruncateShape(edited: seq<Level>, key: Level -> real)
    requires DistinctPrices(edited)
    ensures SortedBy(Truncate(SortBy(edited, key)), key)
    ensures DistinctPrices(Truncate(SortBy(edited, key)))
    ensures forall l :: l in Truncate(SortBy(edited, key)) ==> l in edited
    ensures |edited| <= MaxLevels ==> forall l :: l in edited ==> l in Truncate(SortBy(edited, key))
  {
    var sorted := SortBy(edited, key);
    SortByCorrect(edited, key);
    assert DistinctBy(edited, PriceOf);
    SortKeepsDistinct(edited, key, PriceOf);
    assert DistinctBy(sorted, PriceOf);
    var r := Truncate(sorted);
    forall l | l in r ensures l in sorted {
      var i :| 0 <= i < |r| && r[i] == l;
      assert sorted[i] == l;
    }
  }

  /** Cutting a sorted side to 100 levels keeps its first levels; a level
      left out sorts no earlier than any level kept. */
  lemma SortTruncateBest(edited: seq<Level>, key: Level -> real)
    ensures Truncate(SortBy(edited, key)) <= SortBy(edited, key)
    ensures |Truncate(SortBy(edited, key))| == Min2(|edited|, MaxLevels)
    ensures forall l, d :: l in Truncate(SortBy(edited, key)) && d in edited && d !in Truncate(SortBy(edited, key)) ==>
      key(l) <= key(d)
  {
    SortByCorrect(edited, key);
    SortBySameElements(edited, key);
    TruncateKeepsFirst(SortBy(edited, key), key);
  }

  /** Cutting a sorted side keeps levels that sort no later than any level
      it drops. */
  lemma TruncateKeepsFirst(sorted: seq<Level>, key: Level -> real)
    requires SortedBy(sorted, key)
    ensures forall l, d :: l in Truncate(sorted) && d in sorted && d !in Truncate(sorted) ==> key(l) <= key(d)
  {
    var r := Truncate(sorted);
    forall l, d | l in r && d in sorted && d !in r ensures key(l) <= key(d) {
      var i :| 0 <= i < |r| && r[i] == l;
      var k :| 0 <= k < |sorted| && sorted[k] == d;
      assert r == sorted[..|r|];
      assert k >= |r|;
      assert sorted[i] == l;
    }
  }

  /** The shape of one side after a diff: at most 100 levels, no price twice,
      bids by non-increasing and asks by non-decreasing parsed price. */
  ghost predicate BookSide(side: seq<Level>, parse: string -> real, isBid: bool)
  {
    |side| <= MaxLevels && DistinctPrices(side) &&
    (isBid ==> forall i, j :: 0 <= i < j < |side| ==> parse(side[i].price) >= parse(side[j].price)) &&
    (!isBid ==> forall i, j :: 0 <= i < j < |side| ==> parse(side[i].price) <= parse(side[j].price))
  }

  /** The order-book snapshot kept in a ref: absent until the REST fetch
      seeds it, then edited by every depth diff. */
  class DepthReplica {
    var seeded: bool
    var lastUpdateId: int
    var bids: seq<Level>
    var asks: seq<Level>

    /** The ref starts out null. */
    constructor ()
      ensures !seeded && bids == [] && asks == []
    {
      seeded := false;
      lastUpdateId := 0;
      bids := [];
      asks := [];
    }

    /** fetchLiveData stores the REST snapshot. */
    method Seed(snapshotBids: seq<Level>, snapshotAsks: seq<Level>, snapshotId: int)
      modifies this
      ensures seeded && bids == snapshotBids && asks == snapshotAsks && lastUpdateId == snapshotId
    {
      seeded := true;
      bids := snapshotBids;
      asks := snapshotAsks;
      lastUpdateId := snapshotId;
    }

    /** A symbol change or a new socket drops the snapshot. */
    method Clear()
      modifies this
      ensures !seeded && bids == [] && asks == [] && lastUpdateId == old(lastUpdateId)
    {
      seeded := false;
      bids := [];
      asks := [];
    }

    /** applyDepthUpdate: dropped while no snapshot is held; otherwise bid
      pairs edit only the bids and ask pairs only the asks, each side is
      re-sorted and cut to 100 levels, and the update id is kept. */
    method ApplyDepthUpdate(b: seq<Level>, a: seq<Level>, parse: string -> real)
      modifies this
      ensures !old(seeded) ==> !seeded && bids == old(bids) && asks == old(asks)
      ensures old(seeded) ==> (seeded &&
        bids == SideAfter(old(bids), b, parse, true) &&
        asks == SideAfter(old(asks), a, parse, false))
      ensures lastUpdateId == old(lastUpdateId)
      ensures old(seeded) && DistinctPrices(old(bids)) ==> BookSide(bids, parse, true)
      ensures old(seeded) && DistinctPrices(old(asks)) ==> BookSide(asks, parse, false)
    {
      if !seeded {
        return;
      }
      var editedBids := ApplyPairsInOrder(bids, b, parse);
      var editedAsks := ApplyPairsInOrder(asks, a, parse);
      if DistinctPrices(bids) {
        SideAfterShape(bids, b, parse, true);
      }
      if DistinctPrices(asks) {
        SideAfterShape(asks, a, parse, false);
      }
      bids := Truncate(SortBy(editedBids, BidKey(parse)));
      asks := Truncate(SortBy(editedAsks, AskKey(parse)));
    }
  }
}
