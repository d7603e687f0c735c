/** What placing an order records (orders.py), and what settling makes of it (order_settlement.py). */
module Placing {
  import opened Prelude
  import opened Holdings
  import opened OrderLedger
  import opened LedgerRuns
  import opened Replays
  import opened Slicing

  /** The row of a request the broker has answered: nothing filled, and open exactly if it was accepted. */
  ghost predicate Records(o: Order, q: Request, orderNo: string, rejected: bool) {
    && o.ticker == q.ticker && o.name == q.name && o.side == q.side && o.quantity == q.quantity
    && o.orderNo == (if orderNo != "" then Some(orderNo) else None)
    && o.filledQuantity == None && o.filledPrice == None
    && o.status == (if rejected then Failed else Pending)
  }

  /** A sell of more than is held, or of something not held at all. */
  ghost predicate Oversells(l: Ledger, q: Request) {
    q.side == Sell && (q.ticker in l.holdings ==> l.holdings[q.ticker].quantity < q.quantity)
  }

  /** Placing changes the ledger unless the broker call raised or the request oversells; and then by one row,
    * behind the others. Transactions and holdings wait for a report. */
  lemma PlacingRecordsOneRow(l: Ledger, q: Request, a: BrokerAnswer)
    ensures var (l', r) := Place(l, q, a);
            && (l' == l <==> a == Raised || Oversells(l, q))
            && (l' != l ==> exists o :: Records(o, q, a.orderNo, a.rejected) && r == Recorded(o) &&
                              l' == Ledger(l.orders + [o], l.transactions, l.holdings))
            && (l' == l ==> r == if Oversells(l, q) then Insufficient else Unreachable)
  {
    var (l', r) := Place(l, q, a);
    if a.Answer? && !Oversells(l, q) {
      assert |l'.orders| == |l.orders| + 1 && Records(Last(l'.orders), q, a.orderNo, a.rejected);
    }
  }

  /** The first report of a newly placed order: an accepted one becomes what the report says and its whole
    * quantity is booked; a rejected one stays as it was, without any transaction. */
  lemma FirstReportSettles(l: Ledger, q: Request, a: BrokerAnswer, rs: seq<Report>, k: nat)
    requires Balanced(l) && NewNumber(l, Event.Placing(q, a)) && Place(l, q, a).0 != l
    requires a.orderNo != "" && IsLastReport(rs, a.orderNo, k) && rs[k].filledQuantity > 0.0
    ensures var n, placed, l' := |l.orders|, Place(l, q, a).0, Settle(Place(l, q, a).0, rs).0;
            && |l'.orders| == n + 1
            && l'.orders[n] == (if a.rejected then placed.orders[n] else
                                  placed.orders[n].(status := if rs[k].isFullyFilled then Filled else Partial,
                                                    filledQuantity := Some(rs[k].filledQuantity), filledPrice := Some(rs[k].filledPrice)))
            && Booked(l'.transactions, a.orderNo) == (if a.rejected then 0.0 else rs[k].filledQuantity)
  {
    var n, placed := |l.orders|, Place(l, q, a).0;
    PlaceBalanced(l, Event.Placing(q, a));
    assert Records(placed.orders[n], q, a.orderNo, a.rejected);
    SettlesEachOrder(placed, rs, n);
    assert !a.rejected ==> Brings(rs, placed.orders[n], k);
    SettledIsBooked(placed, rs, n);
  }

  lemma SettledIsBooked(l: Ledger, rs: seq<Report>, i: nat)
    requires Balanced(l) && i < |l.orders|
    ensures i < |Settle(l, rs).0.orders| && BalancedOrder(Settle(l, rs).0, Settle(l, rs).0.orders[i])
  {
    StepBalanced(l, Settling(rs));
  }

  /** That transaction has the report's ticker, side, quantity and price, and comes last. */
  lemma FirstReportBooks(l: Ledger, q: Request, a: BrokerAnswer, rs: seq<Report>, k: nat)
    requires Place(l, q, a).0 != l && a.orderNo != "" && !a.rejected
    requires IsLastReport(rs, a.orderNo, k) && rs[k].filledQuantity > 0.0
    ensures var ts := Settle(Place(l, q, a).0, rs).0.transactions;
            ts != [] && Last(ts) == Transaction(rs[k].ticker, rs[k].side, rs[k].filledQuantity, rs[k].filledPrice, a.orderNo)
  {
    var n, placed, m := |l.orders|, Place(l, q, a).0, ByNumber(rs);
    EntryIsLast(rs, a.orderNo, k);
    assert Records(placed.orders[n], q, a.orderNo, false);
    RowOutcomes(placed, n, m);
    assert placed.orders[n].Open() && AnyToAsk(placed);
    assert Settle(placed, rs).0 == SettledRow(SettledRows(placed, n, m).0, n, m);
  }

  lemma EntryIsLast(rs: seq<Report>, no: string, k: nat)
    requires IsLastReport(rs, no, k)
    ensures no in ByNumber(rs) && ByNumber(rs)[no] == rs[k]
  {
    ByNumberIsLastReport(rs, no);
    assert rs[k] in rs;
    var j :| IsLastReport(rs, no, j) && ByNumber(rs)[no] == rs[j];
    assert j == k;
  }

  /** A rejected order is never filled, whatever follows: no run gives it a transaction. */
  lemma RejectedNeverFills(l: Ledger, q: Request, a: BrokerAnswer, es: seq<Event>)
    requires Balanced(l) && NewNumber(l, Event.Placing(q, a)) && Place(l, q, a).0 != l && a.rejected
    requires NewNumbers(Place(l, q, a).0, es)
    ensures var n, l' := |l.orders|, Run(Place(l, q, a).0, es);
            && n < |l'.orders| && !l'.orders[n].Open() && l'.orders[n].filledQuantity == None
            && (a.orderNo != "" ==> Booked(l'.transactions, a.orderNo) == 0.0)
  {
    var n, placed := |l.orders|, Place(l, q, a).0;
    PlaceBalanced(l, Event.Placing(q, a));
    EveryRunBalances(placed, es);
    var l' := Run(placed, es);
    assert Records(placed.orders[n], q, a.orderNo, true);
    assert GrowsRow(placed, l', placed.orders[n], l'.orders[n]) && BalancedOrder(l', l'.orders[n]);
  }

  /** The first report of a buy of a ticker that is not held opens the holding, under the order's name, or the
    * ticker where the order has none. */
  lemma FirstBuyOpensHolding(l: Ledger, q: Request, a: BrokerAnswer, r: Report)
    requires Balanced(l) && NewNumber(l, Event.Placing(q, a)) && Place(l, q, a).0 != l && !a.rejected
    requires a.orderNo != "" && r.orderNo == a.orderNo && r.filledQuantity > 0.0 && r.side == Buy && r.ticker !in l.holdings
    ensures Settle(Place(l, q, a).0, [r]).0.holdings ==
              l.holdings[r.ticker := Holding(if q.name.Some? && q.name.value != "" then q.name.value else r.ticker,
                                             r.filledQuantity, r.filledPrice, None)]
  {
    var placed := Place(l, q, a).0;
    PlaceBalanced(l, Event.Placing(q, a));
    assert Records(placed.orders[|l.orders|], q, a.orderNo, false);
    OneReport(placed, |l.orders|, r);
  }

  /** A cancellation touches the status of the orders with its number and nothing else, and no run fills them any
    * further. */
  lemma CancelledFillsNoMore(l: Ledger, no: string, es: seq<Event>, i: nat)
    requires Balanced(l) && NewNumbers(Cancel(l, no), es) && i < |l.orders|
    ensures var o, cancelled := l.orders[i], Cancel(l, no);
            && cancelled.transactions == l.transactions && cancelled.holdings == l.holdings && |cancelled.orders| == |l.orders|
            && cancelled.orders[i] == (if o.orderNo == Some(no) then o.(status := Cancelled) else o)
            && (o.orderNo == Some(no) ==>
                  && i < |Run(cancelled, es).orders| && !Run(cancelled, es).orders[i].Open()
                  && Run(cancelled, es).orders[i].filledQuantity == o.filledQuantity)
  {
    CancelBalanced(l, no);
    EveryRunBalances(Cancel(l, no), es);
    var o, last := Cancel(l, no).orders[i], Run(Cancel(l, no), es);
    assert GrowsRow(Cancel(l, no), last, o, last.orders[i]);
  }
}
