/** Totals, per-holding profit and asset allocation of the dashboard (dashboard.py), over exact reals. */
module Dashboard {
  import opened Prelude
  import opened Tickers

  datatype Position = Position(id: nat, ticker: string, quantity: real, avgPrice: real)

  datatype Item = Item(
    id: nat, ticker: string, quantity: real, avgPrice: real, currentPrice: Option<real>,
    marketValue: Option<real>, marketValueKrw: Option<real>, pnlAmount: Option<real>, pnlRate: Option<real>, inUsd: bool)

  datatype Summary = Summary(items: seq<Item>, totalAsset: real, totalInvested: real)

  datatype Slice = Slice(ticker: string, value: real, ratio: real)

  type Prices = map<string, real>

  function PriceOf(prices: Prices, ticker: string): Option<real> {
    if ticker in prices then Some(prices[ticker]) else None
  }

  function Rate(pnl: real, invested: real): Option<real> {
    if invested != 0.0 then Some(pnl / invested * 100.0) else None
  }

  function Gain(value: real, invested: real): real { value - invested }

  function CalcPnl(quantity: real, avgPrice: real, price: Option<real>): (Option<real>, Option<real>) {
    match price
    case None => (None, None)
    case Some(p) =>
      var invested := Worth(quantity, avgPrice);
      var pnl := Gain(Worth(quantity, p), invested);
      (Some(pnl), Rate(pnl, invested))
  }

  /** A holding's line on the dashboard. Without a price an overseas holding is valued at what was invested;
    * a domestic one shows no value. */
  function ItemOf(p: Position, prices: Prices, fx: real): Item {
    var price := PriceOf(prices, p.ticker);
    var value := match price case None => None case Some(c) => Some(Worth(p.quantity, c));
    if IsDomestic(p.ticker) then
      var (pnl, rate) := CalcPnl(p.quantity, p.avgPrice, price);
      Item(p.id, p.ticker, p.quantity, p.avgPrice, price, value, value, pnl, rate, false)
    else
      var invested := InKrw(Worth(p.quantity, p.avgPrice), fx);
      match value
      case None =>
        Item(p.id, p.ticker, p.quantity, p.avgPrice, price, None, Some(invested), None, None, true)
      case Some(v) =>
        var pnl := Gain(InKrw(v, fx), invested);
        Item(p.id, p.ticker, p.quantity, p.avgPrice, price, value, Some(InKrw(v, fx)), Some(pnl), Rate(pnl, invested), true)
  }

  /** What a holding adds to the total asset and to the total invested. */
  function AssetOf(p: Position, prices: Prices, fx: real): real {
    var each := if p.ticker in prices then prices[p.ticker] else p.avgPrice;
    if IsDomestic(p.ticker) then Worth(p.quantity, each) else InKrw(Worth(p.quantity, each), fx)
  }

  function InvestedOf(p: Position, fx: real): real {
    if IsDomestic(p.ticker) then Worth(p.quantity, p.avgPrice) else InKrw(Worth(p.quantity, p.avgPrice), fx)
  }

  function Aggregated(ps: seq<Position>, prices: Prices, fx: real): Summary {
    if ps == [] then Summary([], 0.0, 0.0)
    else
      var s, p := Aggregated(DropLast(ps), prices, fx), Last(ps);
      Summary(s.items + [ItemOf(p, prices, fx)], s.totalAsset + AssetOf(p, prices, fx), s.totalInvested + InvestedOf(p, fx))
  }

  /** The loop body: one holding's line, and what it adds to the two totals. */
  method LineOf(h: Position, prices: Prices, fx: real) returns (item: Item, asset: real, invested: real)
    ensures item == ItemOf(h, prices, fx)
    ensures asset == AssetOf(h, prices, fx) && invested == InvestedOf(h, fx)
  {
    var price := PriceOf(prices, h.ticker);
    if !IsDomestic(h.ticker) {
      var investedUsd := Worth(h.quantity, h.avgPrice);
      var investedKrw := InKrw(investedUsd, fx);
      var marketValueKrw, marketValue, pnl, rate := investedKrw, None, None, None;
      if price.Some? {
        var marketValueUsd := Worth(h.quantity, price.value);
        marketValueKrw := InKrw(marketValueUsd, fx);
        var gain := Gain(marketValueKrw, investedKrw);
        pnl, rate, marketValue := Some(gain), Rate(gain, investedKrw), Some(marketValueUsd);
      }
      item := Item(h.id, h.ticker, h.quantity, h.avgPrice, price, marketValue, Some(marketValueKrw), pnl, rate, true);
      return item, marketValueKrw, investedKrw;
    }
    var (pnl, rate) := CalcPnl(h.quantity, h.avgPrice, price);
    var marketValue := if price.Some? then Some(Worth(h.quantity, price.value)) else None;
    invested := Worth(h.quantity, h.avgPrice);
    asset := if marketValue.Some? then marketValue.value else Worth(h.quantity, h.avgPrice);
    item := Item(h.id, h.ticker, h.quantity, h.avgPrice, price, marketValue, marketValue, pnl, rate, false);
  }

  method AggregateHoldings(ps: seq<Position>, prices: Prices, fx: real) returns (s: Summary)
    ensures s == Aggregated(ps, prices, fx)
  {
    var items, totalAsset, totalInvested := [], 0.0, 0.0;
    for i := 0 to |ps|
      invariant Summary(items, totalAsset, totalInvested) == Aggregated(ps[..i], prices, fx)
    {
      assert DropLast(ps[..i + 1]) == ps[..i];
      var item, asset, invested := LineOf(ps[i], prices, fx);
      totalInvested := totalInvested + invested;
      totalAsset := totalAsset + asset;
      items := items + [item];
    }
    assert ps[..|ps|] == ps;
    s := Summary(items, totalAsset, totalInvested);
  }

  // ----- Allocation -----

  function ValueKrw(x: Item, fx: real): real {
    match x.marketValueKrw
    case Some(v) => v
    case None => if x.inUsd then InKrw(Worth(x.quantity, x.avgPrice), fx) else Worth(x.quantity, x.avgPrice)
  }

  function SliceOf(x: Item, total: real, fx: real): Slice
    requires total > 0.0
  {
    var v := ValueKrw(x, fx);
    Slice(x.ticker, v, v / total * 100.0)
  }

  function Slices(xs: seq<Item>, total: real, fx: real): seq<Slice>
    requires total > 0.0
  {
    if xs == [] then [] else Slices(DropLast(xs), total, fx) + [SliceOf(Last(xs), total, fx)]
  }

  /** Behind every slice with at least its ratio, as a stable descending sort puts it. */
  function Placed(sorted: seq<Slice>, x: Slice): seq<Slice> {
    if sorted == [] || Last(sorted).ratio >= x.ratio then sorted + [x]
    else Placed(DropLast(sorted), x) + [Last(sorted)]
  }

  function SortedByRatio(xs: seq<Slice>): seq<Slice> {
    if xs == [] then [] else Placed(SortedByRatio(DropLast(xs)), Last(xs))
  }

  function Allocation(xs: seq<Item>, total: real, fx: real): seq<Slice> {
    if total <= 0.0 then [] else SortedByRatio(Slices(xs, total, fx))
  }

  method BuildAllocation(xs: seq<Item>, total: real, fx: real) returns (slices: seq<Slice>)
    ensures slices == Allocation(xs, total, fx)
  {
    slices := [];
    if total <= 0.0 {
      return;
    }
    for i := 0 to |xs|
      invariant slices == Slices(xs[..i], total, fx)
    {
      assert DropLast(xs[..i + 1]) == xs[..i];
      var value := ValueKrw(xs[i], fx);
      slices := slices + [Slice(xs[i].ticker, value, value / total * 100.0)];
    }
    assert xs[..|xs|] == xs;
    slices := SortedByRatio(slices);
  }

  // ----- Totals and profits -----

  function SumPnl(xs: seq<Item>): real {
    if xs == [] then 0.0 else SumPnl(DropLast(xs)) + match Last(xs).pnlAmount case Some(p) => p case None => 0.0
  }

  function SumValue(xs: seq<Item>, fx: real): real {
    if xs == [] then 0.0 else SumValue(DropLast(xs), fx) + ValueKrw(Last(xs), fx)
  }

  lemma RateTimesInvested(pnl: real, invested: real)
    requires invested != 0.0
    ensures pnl / invested * 100.0 * invested == pnl * 100.0
  {
    assert pnl / invested * invested == pnl;
  }

  /** One holding: its line's value is what it adds to the total asset, its profit is the difference to what
    * was invested, and its rate, shown when there is a price and something invested, gives the profit back. */
  lemma ItemBalances(p: Position, prices: Prices, fx: real)
    ensures var x, asset, invested := ItemOf(p, prices, fx), AssetOf(p, prices, fx), InvestedOf(p, fx);
            && ValueKrw(x, fx) == asset
            && asset - invested == (match x.pnlAmount case Some(v) => v case None => 0.0)
            && (x.pnlAmount.Some? <==> p.ticker in prices)
            && (x.pnlRate.Some? <==> p.ticker in prices && invested != 0.0)
            && (x.pnlRate.Some? ==> x.pnlRate.value * invested == (asset - invested) * 100.0)
  {
    var asset, invested := AssetOf(p, prices, fx), InvestedOf(p, fx);
    if invested != 0.0 {
      RateTimesInvested(asset - invested, invested);
    }
  }

  /** What else a line shows: the holding, its currency, and price and value in it where there is a price. */
  lemma ItemShows(p: Position, prices: Prices, fx: real)
    ensures var x := ItemOf(p, prices, fx);
            && (x.id, x.ticker, x.quantity, x.avgPrice, x.inUsd) == (p.id, p.ticker, p.quantity, p.avgPrice, !IsDomestic(p.ticker))
            && (if p.ticker in prices
                then x.currentPrice == Some(prices[p.ticker]) && x.marketValue.Some? && x.marketValue.value == p.quantity * prices[p.ticker]
                else x.currentPrice == None && x.marketValue == None)
  {
  }

  /** For any mix of priced, unpriced, domestic and overseas holdings, total asset minus total invested is
    * the sum of the profits shown, and total asset is the sum of the values allocated. */
  lemma {:induction false} TotalsAddUp(ps: seq<Position>, prices: Prices, fx: real)
    ensures var s := Aggregated(ps, prices, fx);
            && s.totalAsset - s.totalInvested == SumPnl(s.items)
            && s.totalAsset == SumValue(s.items, fx)
            && |s.items| == |ps|
  {
    if ps != [] {
      var s, before, p := Aggregated(ps, prices, fx), Aggregated(DropLast(ps), prices, fx), Last(ps);
      TotalsAddUp(DropLast(ps), prices, fx);
      ItemBalances(p, prices, fx);
      assert DropLast(s.items) == before.items && Last(s.items) == ItemOf(p, prices, fx);
    }
  }

  // ----- Totals in won -----

  /** Quantity times price, the average standing in for a missing price, times what a unit of the holding's
    * currency counts. */
  ghost function ValueAt(ps: seq<Position>, prices: Prices, won: real, usd: real): real {
    if ps == [] then 0.0
    else
      var p := Last(ps);
      ValueAt(DropLast(ps), prices, won, usd) +
      p.quantity * (if p.ticker in prices then prices[p.ticker] else p.avgPrice) * (if IsDomestic(p.ticker) then won else usd)
  }

  function SumAssets(ps: seq<Position>, prices: Prices, fx: real): real {
    if ps == [] then 0.0 else SumAssets(DropLast(ps), prices, fx) + AssetOf(Last(ps), prices, fx)
  }

  lemma {:induction false} TotalsAreSums(ps: seq<Position>, prices: Prices, fx: real)
    ensures Aggregated(ps, prices, fx).totalAsset == SumAssets(ps, prices, fx)
    ensures Aggregated(ps, prices, fx).totalInvested == SumAssets(ps, map[], fx)
  {
    if ps != [] {
      TotalsAreSums(DropLast(ps), prices, fx);
    }
  }

  lemma {:induction false} AssetsInWon(ps: seq<Position>, prices: Prices, fx: real)
    ensures SumAssets(ps, prices, fx) == ValueAt(ps, prices, 1.0, fx)
  {
    if ps != [] {
      AssetsInWon(DropLast(ps), prices, fx);
    }
  }

  /** Domestic holdings count as they are and overseas ones at the exchange rate: at their prices in the total
    * asset, at their averages in the total invested. */
  lemma TotalsInWon(ps: seq<Position>, prices: Prices, fx: real)
    ensures Aggregated(ps, prices, fx).totalAsset == ValueAt(ps, prices, 1.0, fx)
    ensures Aggregated(ps, prices, fx).totalInvested == ValueAt(ps, map[], 1.0, fx)
  {
    TotalsAreSums(ps, prices, fx);
    AssetsInWon(ps, prices, fx);
    AssetsInWon(ps, map[], fx);
  }

  lemma {:induction false} RateMovesValue(ps: seq<Position>, prices: Prices, fx: real, more: real)
    ensures ValueAt(ps, prices, 1.0, fx + more) == ValueAt(ps, prices, 1.0, fx) + ValueAt(ps, prices, 0.0, more)
  {
    if ps != [] {
      var p := Last(ps);
      RateMovesValue(DropLast(ps), prices, fx, more);
      RateMovesOne(p.quantity * (if p.ticker in prices then prices[p.ticker] else p.avgPrice), IsDomestic(p.ticker), fx, more);
    }
  }

  lemma RateMovesOne(each: real, domestic: bool, fx: real, more: real)
    ensures each * (if domestic then 1.0 else fx + more)
         == each * (if domestic then 1.0 else fx) + each * (if domestic then 0.0 else more)
  {
  }

  /** A higher exchange rate adds the overseas holdings at the difference, and nothing else; so twice the rate adds
    * exactly their share once more. */
  lemma RateMovesOverseasShare(ps: seq<Position>, prices: Prices, fx: real, more: real)
    ensures Aggregated(ps, prices, fx + more).totalAsset == Aggregated(ps, prices, fx).totalAsset + ValueAt(ps, prices, 0.0, more)
  {
    TotalsInWon(ps, prices, fx);
    TotalsInWon(ps, prices, fx + more);
    RateMovesValue(ps, prices, fx, more);
  }

  // ----- Ratios -----

  function SumRatio(xs: seq<Slice>): real {
    if xs == [] then 0.0 else SumRatio(DropLast(xs)) + Last(xs).ratio
  }

  ghost predicate Descending(xs: seq<Slice>) {
    forall i, j | 0 <= i < j < |xs| :: xs[i].ratio >= xs[j].ratio
  }

  function WithRatio(xs: seq<Slice>, ratio: real): seq<Slice> {
    if xs == [] then []
    else WithRatio(DropLast(xs), ratio) + if Last(xs).ratio == ratio then [Last(xs)] else []
  }

  lemma SharesAdd(a: real, b: real, total: real)
    requires total > 0.0
    ensures a / total * 100.0 + b / total * 100.0 == (a + b) / total * 100.0
  {
  }

  lemma {:induction false} RatiosAddUp(xs: seq<Item>, total: real, fx: real)
    requires total > 0.0
    ensures SumRatio(Slices(xs, total, fx)) == SumValue(xs, fx) / total * 100.0
  {
    if xs != [] {
      RatiosAddUp(DropLast(xs), total, fx);
      var before := Slices(DropLast(xs), total, fx);
      assert DropLast(Slices(xs, total, fx)) == before;
      SharesAdd(SumValue(DropLast(xs), fx), ValueKrw(Last(xs), fx), total);
    }
  }

  lemma {:induction false} PlacedHolds(sorted: seq<Slice>, x: Slice)
    ensures multiset(Placed(sorted, x)) == multiset(sorted) + multiset{x}
  {
    if sorted != [] && Last(sorted).ratio < x.ratio {
      PlacedHolds(DropLast(sorted), x);
      assert sorted == DropLast(sorted) + [Last(sorted)];
    }
  }

  lemma {:induction false} PlacedSorts(sorted: seq<Slice>, x: Slice)
    requires Descending(sorted)
    ensures Descending(Placed(sorted, x))
    ensures forall s <- Placed(sorted, x) :: s == x || s in sorted
  {
    if sorted != [] && Last(sorted).ratio < x.ratio {
      var rest, last := DropLast(sorted), Last(sorted);
      PlacedSorts(rest, x);
      assert forall s <- rest :: s in sorted && s.ratio >= last.ratio;
    }
  }

  lemma {:induction false} PlacedKeeps(sorted: seq<Slice>, x: Slice, ratio: real)
    ensures SumRatio(Placed(sorted, x)) == SumRatio(sorted) + x.ratio
    ensures WithRatio(Placed(sorted, x), ratio) == WithRatio(sorted, ratio) + if x.ratio == ratio then [x] else []
  {
    if sorted == [] || Last(sorted).ratio >= x.ratio {
      assert DropLast(sorted + [x]) == sorted;
    } else {
      var rest, last := DropLast(sorted), Last(sorted);
      PlacedKeeps(rest, x, ratio);
      assert DropLast(Placed(rest, x) + [last]) == Placed(rest, x);
    }
  }

  /** The sort leaves equal ratios in their order and the sum as it was. */
  lemma {:induction false} SortIsStable(xs: seq<Slice>, ratio: real)
    ensures SumRatio(SortedByRatio(xs)) == SumRatio(xs)
    ensures WithRatio(SortedByRatio(xs), ratio) == WithRatio(xs, ratio)
  {
    if xs != [] {
      SortIsStable(DropLast(xs), ratio);
      PlacedKeeps(SortedByRatio(DropLast(xs)), Last(xs), ratio);
    }
  }

  /** The sort keeps the slices and puts larger ratios first. */
  lemma {:induction false} SortSorts(xs: seq<Slice>)
    ensures multiset(SortedByRatio(xs)) == multiset(xs)
    ensures Descending(SortedByRatio(xs))
  {
    if xs != [] {
      SortSorts(DropLast(xs));
      PlacedSorts(SortedByRatio(DropLast(xs)), Last(xs));
      PlacedHolds(SortedByRatio(DropLast(xs)), Last(xs));
      assert xs == DropLast(xs) + [Last(xs)];
    }
  }

  lemma WholeIsHundred(total: real)
    requires total > 0.0
    ensures total / total * 100.0 == 100.0
  {
  }

  /** The dashboard's allocation: when there are assets its ratios sum to exactly 100, in descending order,
    * one slice for each holding. */
  lemma AllocationSumsTo100(ps: seq<Position>, prices: Prices, fx: real)
    requires Aggregated(ps, prices, fx).totalAsset > 0.0
    ensures var s := Aggregated(ps, prices, fx);
            var a := Allocation(s.items, s.totalAsset, fx);
            && SumRatio(a) == 100.0
            && Descending(a)
            && multiset(a) == multiset(Slices(s.items, s.totalAsset, fx))
  {
    var s := Aggregated(ps, prices, fx);
    TotalsAddUp(ps, prices, fx);
    RatiosAddUp(s.items, s.totalAsset, fx);
    WholeIsHundred(s.totalAsset);
    SortIsStable(Slices(s.items, s.totalAsset, fx), 0.0);
    SortSorts(Slices(s.items, s.totalAsset, fx));
  }

  lemma SliceShows(x: Item, total: real, fx: real)
    requires total > 0.0
    ensures SliceOf(x, total, fx).ticker == x.ticker && SliceOf(x, total, fx).value == ValueKrw(x, fx)
    ensures SliceOf(x, total, fx).ratio * total == ValueKrw(x, fx) * 100.0
  {
    RateTimesInvested(ValueKrw(x, fx), total);
  }

  /** Every line has a slice, of its value, at its share of the total. */
  lemma {:induction false} SliceOfEach(xs: seq<Item>, total: real, fx: real, i: nat)
    requires total > 0.0 && i < |xs|
    ensures var slices := Slices(xs, total, fx);
            && |slices| == |xs| && slices[i].ticker == xs[i].ticker
            && slices[i].value == ValueKrw(xs[i], fx) && slices[i].ratio * total == slices[i].value * 100.0
  {
    SliceShows(Last(xs), total, fx);
    if |xs| > 1 {
      SliceOfEach(DropLast(xs), total, fx, if i < |xs| - 1 then i else 0);
    }
  }

  /** Every holding has its line, in order. */
  lemma {:induction false} ItemOfEach(ps: seq<Position>, prices: Prices, fx: real, i: nat)
    requires i < |ps|
    ensures |Aggregated(ps, prices, fx).items| == |ps| && Aggregated(ps, prices, fx).items[i] == ItemOf(ps[i], prices, fx)
  {
    if |ps| > 1 {
      ItemOfEach(DropLast(ps), prices, fx, if i < |ps| - 1 then i else 0);
    }
  }
}
