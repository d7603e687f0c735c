/** One order's fill reported in slices: any growing series of cumulative reports against its last report
  * alone. */
module Slicing {
  import opened Prelude
  import opened Holdings
  import opened OrderLedger
  import opened LedgerRuns
  import opened Replays

  ghost predicate SameButLog(a: Ledger, b: Ledger) {
    a.orders == b.orders && a.holdings == b.holdings
  }

  lemma {:induction false} OnlyItsRow(l: Ledger, i: nat, n: nat, r: Report)
    requires UniqueNumbers(l.orders) && i < |l.orders| && n <= |l.orders| && HasNumber(l.orders[i], r.orderNo)
    ensures var m := map[r.orderNo := r];
            SettledRows(l, n, m).0 == if n <= i then l else SettledRow(l, i, m)
  {
    var m := map[r.orderNo := r];
    if n > 0 {
      OnlyItsRow(l, i, n - 1, r);
      RowOutcomes(l, n - 1, m);
      if n - 1 != i {
        assert !HasNumber(l.orders[n - 1], r.orderNo);
      }
    }
  }

  /** A single report moves only the row that carries its number. */
  lemma OneReport(l: Ledger, i: nat, r: Report)
    requires UniqueNumbers(l.orders) && i < |l.orders| && HasNumber(l.orders[i], r.orderNo)
    ensures Settle(l, [r]).0 == SettledRow(l, i, map[r.orderNo := r])
  {
    assert DropLast([r]) == [] && ByNumber([r]) == map[r.orderNo := r];
    OnlyItsRow(l, i, |l.orders|, r);
    if !AnyToAsk(l) {
      assert !(l.orders[i].Open() && l.orders[i].Numbered());
    }
  }

  /** Two reports of one order, of the same ticker and side, the second larger. */
  predicate Successive(r1: Report, r2: Report) {
    r1.orderNo == r2.orderNo && r1.ticker == r2.ticker && r1.side == r2.side && r1.filledQuantity < r2.filledQuantity
  }

  lemma RowsDecide(hs: Table, t: string, a: Option<Holding>, b: Option<Holding>)
    ensures WithRow(hs, t, a) == WithRow(hs, t, b) <==> a == b
  {
    if WithRow(hs, t, a) == WithRow(hs, t, b) {
      assert Row(WithRow(hs, t, a), t) == a && Row(WithRow(hs, t, b), t) == b;
    }
  }

  lemma AppliedTwice(hs: Table, f: Fill, g: Fill)
    requires f.ticker == g.ticker
    ensures Applied(Applied(hs, f), g) == WithRow(hs, f.ticker, FilledRow(FilledRow(Row(hs, f.ticker), f), g))
  {
    assert Row(Applied(hs, f), f.ticker) == FilledRow(Row(hs, f.ticker), f);
  }

  /** Fresh fills r1 and then r2, against r2 alone: the same orders and holdings exactly when r1 was not
    * yet the full fill and, for a buy, the average price did not move in between. */
  lemma SliceInTwo(l: Ledger, i: nat, r1: Report, r2: Report)
    requires UniqueNumbers(l.orders) && AllHeld(l.holdings) && Successive(r1, r2)
    requires i < |l.orders| && HasNumber(l.orders[i], r1.orderNo) && r1.orderNo != "" && l.orders[i].Open()
    requires l.orders[i].FilledSoFar() < r1.filledQuantity
    ensures SameButLog(Settle(Settle(l, [r1]).0, [r2]).0, Settle(l, [r2]).0) <==>
              !r1.isFullyFilled && (r1.side.Sell? || r1.filledPrice == r2.filledPrice)
  {
    var o := l.orders[i];
    var l1 := Settle(l, [r1]).0;
    OneReport(l, i, r1);
    OneReport(l, i, r2);
    assert UniqueNumbers(l1.orders) && HasNumber(l1.orders[i], r2.orderNo);
    OneReport(l1, i, r2);
    var split, whole := Settle(l1, [r2]).0, Settle(l, [r2]).0;
    if r1.isFullyFilled {
      assert split == l1 && split.orders[i].FilledSoFar() != whole.orders[i].FilledSoFar();
    } else {
      assert split.orders[i] == whole.orders[i] && split.orders == whole.orders;
      SlicedHoldings(l.holdings, FillOf(o, r1), FillOf(l1.orders[i], r2), FillOf(o, r2));
    }
  }

  lemma SlicedHoldings(hs: Table, f1: Fill, f2: Fill, f: Fill)
    requires AllHeld(hs) && 0.0 < f1.quantity < f.quantity
    requires f1 == f.(quantity := f1.quantity, price := f1.price) && f2 == f.(quantity := f.quantity - f1.quantity)
    ensures Applied(Applied(hs, f1), f2) == Applied(hs, f) <==> f.side.Sell? || f1.price == f.price
  {
    var h := Row(hs, f.ticker);
    AppliedTwice(hs, f1, f2);
    SplitFill(h, f, f1.quantity, f1.price);
    RowsDecide(hs, f.ticker, FilledRow(FilledRow(h, f1), f2), FilledRow(h, f));
  }

  // ----- Any growing series -----

  function SettleEach(l: Ledger, rs: seq<Report>): Ledger {
    if rs == [] then l else Settle(SettleEach(l, DropLast(rs)), [Last(rs)]).0
  }

  ghost predicate Growing(rs: seq<Report>) {
    forall j, k | 0 <= j < k < |rs| :: Successive(rs[j], rs[k])
  }

  predicate Listens(o: Order) {
    o.Open() && o.Numbered()
  }

  /** Some report before the last moves the order and claims to be its full fill. */
  ghost predicate CutShort(o: Order, rs: seq<Report>) {
    Listens(o) && exists j :: 0 <= j < |rs| - 1 && rs[j].isFullyFilled && o.FilledSoFar() < rs[j].filledQuantity
  }

  /** The series as it concerns order row i. */
  ghost predicate Concerns(l: Ledger, i: nat, rs: seq<Report>) {
    UniqueNumbers(l.orders) && rs != [] && Growing(rs) && i < |l.orders| && HasNumber(l.orders[i], rs[0].orderNo)
  }

  lemma Shorter(l: Ledger, i: nat, rs: seq<Report>)
    requires Concerns(l, i, rs) && |rs| > 1
    ensures Concerns(l, i, DropLast(rs)) && Successive(Last(DropLast(rs)), Last(rs)) && Last(rs).orderNo == rs[0].orderNo
    ensures CutShort(l.orders[i], rs) <==>
              CutShort(l.orders[i], DropLast(rs)) ||
              (Listens(l.orders[i]) && Last(DropLast(rs)).isFullyFilled && l.orders[i].FilledSoFar() < Last(DropLast(rs)).filledQuantity)
  {
    var before, o := DropLast(rs), l.orders[i];
    assert Successive(rs[|rs| - 2], rs[|rs| - 1]) && Successive(rs[0], rs[|rs| - 1]);
    assert Last(before) == rs[|rs| - 2];
    if CutShort(o, before) {
      var j :| 0 <= j < |before| - 1 && before[j].isFullyFilled && o.FilledSoFar() < before[j].filledQuantity;
      assert rs[j] == before[j];
    }
    if CutShort(o, rs) {
      var j :| 0 <= j < |rs| - 1 && rs[j].isFullyFilled && o.FilledSoFar() < rs[j].filledQuantity;
      assert rs[j] == before[j];
    }
  }

  /** What one report makes of the rows depends on the rows alone. */
  lemma OrdersDecideOrders(a: Ledger, b: Ledger, i: nat, r: Report)
    requires a.orders == b.orders && UniqueNumbers(a.orders) && i < |a.orders| && HasNumber(a.orders[i], r.orderNo)
    ensures Settle(a, [r]).0.orders == Settle(b, [r]).0.orders
  {
    OneReport(a, i, r);
    OneReport(b, i, r);
  }

  lemma OrdersTwice(l: Ledger, i: nat, r1: Report, r2: Report)
    requires UniqueNumbers(l.orders) && i < |l.orders| && HasNumber(l.orders[i], r1.orderNo) && Successive(r1, r2)
    requires !(Listens(l.orders[i]) && r1.isFullyFilled && l.orders[i].FilledSoFar() < r1.filledQuantity)
    ensures Settle(Settle(l, [r1]).0, [r2]).0.orders == Settle(l, [r2]).0.orders
  {
    var l1 := Settle(l, [r1]).0;
    OneReport(l, i, r1);
    OneReport(l, i, r2);
    assert UniqueNumbers(l1.orders) && HasNumber(l1.orders[i], r2.orderNo);
    OneReport(l1, i, r2);
  }

  lemma {:induction false} UncutOrders(l: Ledger, i: nat, rs: seq<Report>)
    requires Concerns(l, i, rs) && !CutShort(l.orders[i], rs)
    ensures SettleEach(l, rs).orders == Settle(l, [Last(rs)]).0.orders
  {
    var before := DropLast(rs);
    if before == [] {
      assert SettleEach(l, before) == l;
    } else {
      Shorter(l, i, rs);
      UncutOrders(l, i, before);
      var r1, r2 := Last(before), Last(rs);
      OneReport(l, i, r1);
      OrdersDecideOrders(SettleEach(l, before), Settle(l, [r1]).0, i, r2);
      OrdersTwice(l, i, r1, r2);
    }
  }

  lemma {:induction false} CutOrders(l: Ledger, i: nat, rs: seq<Report>)
    requires Concerns(l, i, rs) && CutShort(l.orders[i], rs)
    ensures var each := SettleEach(l, rs);
            && UniqueNumbers(each.orders) && |each.orders| == |l.orders| && HasNumber(each.orders[i], rs[0].orderNo)
            && !each.orders[i].Open() && each.orders[i].FilledSoFar() < Last(rs).filledQuantity
  {
    var before := DropLast(rs);
    Shorter(l, i, rs);
    var s, r1 := SettleEach(l, before), Last(before);
    if CutShort(l.orders[i], before) {
      CutOrders(l, i, before);
    } else {
      UncutOrders(l, i, before);
      OneReport(l, i, r1);
    }
    OneReport(s, i, Last(rs));
  }

  // ----- What the slices of a buy cost -----

  /** How far the order is filled after the reports. */
  function Reached(start: real, rs: seq<Report>): real {
    if rs != [] && Last(rs).filledQuantity > start then Last(rs).filledQuantity else start
  }

  /** Each new quantity at the average price reported with it. */
  function Paid(start: real, rs: seq<Report>): real {
    if rs == [] then 0.0
    else Paid(start, DropLast(rs)) + Worth(Reached(start, rs) - Reached(start, DropLast(rs)), Last(rs).filledPrice)
  }

  /** The row h, after so much has been bought on top of h0. */
  ghost predicate BoughtRow(h0: Option<Holding>, h: Option<Holding>, name: string, quantity: real, cost: real) {
    && Adds(h0, h, quantity, cost)
    && if quantity <= 0.0 then h == h0
       else h.Some? && (h.value.name, h.value.market) == if h0.Some? then (h0.value.name, h0.value.market) else (name, None)
  }

  lemma BuyOnTop(h0: Option<Holding>, h: Option<Holding>, f: Fill, quantity: real, cost: real)
    requires BoughtRow(h0, h, f.name, quantity, cost) && f.side.Buy? && f.quantity > 0.0 && quantity >= 0.0
    ensures BoughtRow(h0, FilledRow(h, f), f.name, quantity + f.quantity, cost + Worth(f.quantity, f.price))
  {
    BuyAdds(h, f);
  }

  lemma BoughtRowsDiffer(h0: Option<Holding>, a: Option<Holding>, b: Option<Holding>, name: string, quantity: real, c: real, d: real)
    requires BoughtRow(h0, a, name, quantity, c) && BoughtRow(h0, b, name, quantity, d)
    ensures a == b <==> c == d
  {
    if quantity > 0.0 {
      CostFixesAverage(a.value.quantity, a.value.avgPrice, b.value.avgPrice);
      assert a.value == b.value.(avgPrice := a.value.avgPrice);
    }
  }

  lemma RowReplaced(hs: Table, f: Fill, h: Option<Holding>)
    ensures Applied(WithRow(hs, f.ticker, h), f) == WithRow(hs, f.ticker, FilledRow(h, f))
    ensures Row(WithRow(hs, f.ticker, h), f.ticker) == h
  {
  }

  /** The order row after an uncut series. */
  lemma UncutRow(l: Ledger, i: nat, rs: seq<Report>)
    requires Concerns(l, i, rs) && Listens(l.orders[i]) && !CutShort(l.orders[i], rs)
    requires !(Last(rs).isFullyFilled && l.orders[i].FilledSoFar() < Last(rs).filledQuantity)
    ensures var each, o := SettleEach(l, rs), l.orders[i];
            && UniqueNumbers(each.orders) && |each.orders| == |l.orders|
            && Listens(each.orders[i]) && HasNumber(each.orders[i], rs[0].orderNo)
            && (each.orders[i].FilledSoFar(), each.orders[i].name) == (Reached(o.FilledSoFar(), rs), o.name)
  {
    UncutOrders(l, i, rs);
    assert |rs| > 1 ==> Successive(rs[0], Last(rs));
    OneReport(l, i, Last(rs));
  }

  ghost predicate BoughtUpTo(l: Ledger, i: nat, rs: seq<Report>, ticker: string, name: string, each: Ledger)
    requires i < |l.orders|
  {
    var start, h := l.orders[i].FilledSoFar(), Row(each.holdings, ticker);
    && each.holdings == WithRow(l.holdings, ticker, h)
    && BoughtRow(Row(l.holdings, ticker), h, name, Reached(start, rs) - start, Paid(start, rs))
  }

  lemma OneMoreSlice(l: Ledger, i: nat, before: seq<Report>, r: Report, s: Ledger, name: string)
    requires i < |l.orders| && i < |s.orders| && UniqueNumbers(s.orders) && r.side.Buy?
    requires Listens(s.orders[i]) && HasNumber(s.orders[i], r.orderNo) && name == FillOf(s.orders[i], r).name
    requires s.orders[i].FilledSoFar() == Reached(l.orders[i].FilledSoFar(), before)
    requires before != [] ==> Successive(Last(before), r)
    requires BoughtUpTo(l, i, before, r.ticker, name, s)
    ensures BoughtUpTo(l, i, before + [r], r.ticker, name, Settle(s, [r]).0)
  {
    var start, h0, h := l.orders[i].FilledSoFar(), Row(l.holdings, r.ticker), Row(s.holdings, r.ticker);
    OneReport(s, i, r);
    assert DropLast(before + [r]) == before;
    var reached := Reached(start, before);
    assert Worth(0.0, r.filledPrice) == 0.0;
    if r.filledQuantity > reached {
      var f := FillOf(s.orders[i], r);
      BuyOnTop(h0, h, f, reached - start, Paid(start, before));
      RowReplaced(l.holdings, f, h);
      RowReplaced(l.holdings, f, FilledRow(h, f));
    }
  }

  /** An uncut series of a buy adds exactly its new quantities at their reported prices to the one row. */
  lemma {:induction false} BuySeries(l: Ledger, i: nat, rs: seq<Report>, name: string)
    requires Concerns(l, i, rs) && AllHeld(l.holdings) && rs[0].side.Buy?
    requires Listens(l.orders[i]) && !CutShort(l.orders[i], rs) && name == FillOf(l.orders[i], rs[0]).name
    ensures BoughtUpTo(l, i, rs, rs[0].ticker, name, SettleEach(l, rs))
  {
    var before, r := DropLast(rs), Last(rs);
    assert rs == before + [r];
    if before == [] {
      assert SettleEach(l, before) == l;
      assert l.holdings == WithRow(l.holdings, r.ticker, Row(l.holdings, r.ticker));
      OneMoreSlice(l, i, before, r, l, name);
    } else {
      Shorter(l, i, rs);
      assert Successive(rs[0], rs[|rs| - 1]);
      BuySeries(l, i, before, name);
      UncutRow(l, i, before);
      OneMoreSlice(l, i, before, r, SettleEach(l, before), name);
    }
  }

  /** Sells: the price plays no part. */
  lemma {:induction false} SellSeries(l: Ledger, i: nat, rs: seq<Report>)
    requires Concerns(l, i, rs) && AllHeld(l.holdings) && rs[0].side.Sell? && !CutShort(l.orders[i], rs)
    ensures SameButLog(SettleEach(l, rs), Settle(l, [Last(rs)]).0)
  {
    var before := DropLast(rs);
    if before == [] {
      assert SettleEach(l, before) == l;
    } else {
      Shorter(l, i, rs);
      SellSeries(l, i, before);
      var r1, r2 := Last(before), Last(rs);
      assert |before| > 1 ==> Successive(rs[0], rs[|rs| - 2]);
      OneReport(l, i, r1);
      SettleIgnoresLog(Settle(l, [r1]).0, SettleEach(l, before), i, r2);
      if Listens(l.orders[i]) && l.orders[i].FilledSoFar() < r1.filledQuantity {
        SliceInTwo(l, i, r1, r2);
      }
    }
  }

  lemma SettleIgnoresLog(a: Ledger, b: Ledger, i: nat, r: Report)
    requires SameButLog(a, b) && UniqueNumbers(a.orders) && i < |a.orders| && HasNumber(a.orders[i], r.orderNo)
    ensures SameButLog(Settle(a, [r]).0, Settle(b, [r]).0)
  {
    OneReport(a, i, r);
    OneReport(b, i, r);
  }

  lemma {:induction false} DeafOrder(l: Ledger, i: nat, rs: seq<Report>)
    requires Concerns(l, i, rs) && !Listens(l.orders[i])
    ensures SettleEach(l, rs) == l && Settle(l, [Last(rs)]).0 == l
  {
    assert |rs| > 1 ==> Successive(rs[0], rs[|rs| - 1]);
    OneReport(l, i, Last(rs));
    if |rs| > 1 {
      Shorter(l, i, rs);
      DeafOrder(l, i, DropLast(rs));
    } else {
      assert DropLast(rs) == [] && SettleEach(l, DropLast(rs)) == l;
    }
  }

  // ----- The results -----

  /** However a fill is sliced, at whatever average prices, the orders end as after the last report alone,
    * if and only if no earlier report that moved the order claimed to be the full fill. */
  lemma SlicedOrders(l: Ledger, i: nat, rs: seq<Report>)
    requires Concerns(l, i, rs)
    ensures SettleEach(l, rs).orders == Settle(l, [Last(rs)]).0.orders <==> !CutShort(l.orders[i], rs)
  {
    if CutShort(l.orders[i], rs) {
      CutOrders(l, i, rs);
      assert Successive(rs[0], rs[|rs| - 1]);
      OneReport(l, i, Last(rs));
      var j :| 0 <= j < |rs| - 1 && rs[j].isFullyFilled && l.orders[i].FilledSoFar() < rs[j].filledQuantity;
      assert Successive(rs[j], rs[|rs| - 1]);
    } else {
      UncutOrders(l, i, rs);
    }
  }

  /** And so do the quantities of all tickers; the holdings as a whole do, for a sell always, and for a buy
    * exactly when the slices cost what the last report alone would have booked. */
  lemma SlicedHoldingsIff(l: Ledger, i: nat, rs: seq<Report>)
    requires Concerns(l, i, rs) && AllHeld(l.holdings) && !CutShort(l.orders[i], rs)
    ensures var each, once, start := SettleEach(l, rs), Settle(l, [Last(rs)]).0, l.orders[i].FilledSoFar();
            && (forall t :: Quantity(Row(each.holdings, t)) == Quantity(Row(once.holdings, t)))
            && (each.holdings == once.holdings <==>
                  rs[0].side.Sell? || !Listens(l.orders[i]) || Paid(start, rs) == Paid(start, [Last(rs)]))
  {
    if !Listens(l.orders[i]) {
      DeafOrder(l, i, rs);
    } else if rs[0].side.Sell? {
      SellSeries(l, i, rs);
    } else {
      var r, ticker, name := Last(rs), rs[0].ticker, FillOf(l.orders[i], rs[0]).name;
      assert |rs| > 1 ==> Successive(rs[0], rs[|rs| - 1]);
      BuySeries(l, i, rs, name);
      assert DropLast([r]) == [] && SettleEach(l, DropLast([r])) == l;
      assert SettleEach(l, [r]) == Settle(l, [r]).0;
      BuySeries(l, i, [r], name);
      SlicedBuy(l, i, rs, r, ticker, name, SettleEach(l, rs), Settle(l, [r]).0);
    }
  }

  lemma SlicedBuy(l: Ledger, i: nat, rs: seq<Report>, r: Report, ticker: string, name: string, each: Ledger, once: Ledger)
    requires i < |l.orders| && rs != [] && r == Last(rs)
    requires BoughtUpTo(l, i, rs, ticker, name, each) && BoughtUpTo(l, i, [r], ticker, name, once)
    ensures forall t :: Quantity(Row(each.holdings, t)) == Quantity(Row(once.holdings, t))
    ensures each.holdings == once.holdings <==> Paid(l.orders[i].FilledSoFar(), rs) == Paid(l.orders[i].FilledSoFar(), [r])
  {
    var start, a, b := l.orders[i].FilledSoFar(), Row(each.holdings, ticker), Row(once.holdings, ticker);
    BoughtRowsDiffer(Row(l.holdings, ticker), a, b, name, Reached(start, rs) - start, Paid(start, rs), Paid(start, [r]));
    RowsDecide(l.holdings, ticker, a, b);
  }

  /** The exact cost of a sliced buy: each new quantity at the average reported with it. */
  lemma SlicedCost(l: Ledger, i: nat, rs: seq<Report>)
    requires Concerns(l, i, rs) && AllHeld(l.holdings) && rs[0].side.Buy? && Listens(l.orders[i]) && !CutShort(l.orders[i], rs)
    ensures var start, t, each := l.orders[i].FilledSoFar(), rs[0].ticker, SettleEach(l, rs);
            && Quantity(Row(each.holdings, t)) == Quantity(Row(l.holdings, t)) + (Reached(start, rs) - start)
            && Cost(Row(each.holdings, t)) == Cost(Row(l.holdings, t)) + Paid(start, rs)
            && forall u | u != t :: Row(each.holdings, u) == Row(l.holdings, u)
  {
    BuySeries(l, i, rs, FillOf(l.orders[i], rs[0]).name);
  }

  lemma SliceAdds(a: real, b: real, price: real)
    ensures Worth(a, price) + Worth(b, price) == Worth(a + b, price)
  {
  }

  lemma {:induction false} PaidAtOnePrice(start: real, rs: seq<Report>, price: real)
    requires Growing(rs) && forall r <- rs :: r.filledPrice == price
    ensures Paid(start, rs) == Worth(Reached(start, rs) - start, price)
  {
    if rs == [] {
      assert Worth(0.0, price) == 0.0;
    } else {
      assert Last(rs) in rs && forall r <- DropLast(rs) :: r in rs;
      PaidAtOnePrice(start, DropLast(rs), price);
      SliceAdds(Reached(start, DropLast(rs)) - start, Reached(start, rs) - Reached(start, DropLast(rs)), price);
    }
  }

  /** At a constant average price, slicing changes nothing at all. */
  lemma SlicingDoesNotMatter(l: Ledger, i: nat, rs: seq<Report>)
    requires Concerns(l, i, rs) && AllHeld(l.holdings) && !CutShort(l.orders[i], rs)
    requires forall r <- rs :: r.filledPrice == rs[0].filledPrice
    ensures SameButLog(SettleEach(l, rs), Settle(l, [Last(rs)]).0)
  {
    var start := l.orders[i].FilledSoFar();
    SlicedOrders(l, i, rs);
    SlicedHoldingsIff(l, i, rs);
    PaidAtOnePrice(start, rs, rs[0].filledPrice);
    assert Last(rs) in rs;
    PaidAtOnePrice(start, [Last(rs)], rs[0].filledPrice);
  }
}
