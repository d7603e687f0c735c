/** Orders, brokerage transactions and holdings of one portfolio: placing (orders.py), settling against
  * cumulative broker reports (order_settlement.py) and cancelling.  Each settle call is one atomic
  * transaction; the broker numbers every accepted order differently. */
module OrderLedger {
  import opened Prelude
  import opened Holdings

  datatype Status = Pending | Partial | Filled | Cancelled | Failed

  datatype Order = Order(orderNo: Option<string>, ticker: string, name: Option<string>, side: Side, quantity: real,
                         status: Status, filledQuantity: Option<real>, filledPrice: Option<real>)
  {
    predicate Open() { status.Pending? || status.Partial? }

    predicate Numbered() { orderNo.Some? && orderNo.value != "" }

    function FilledSoFar(): real {
      if filledQuantity.Some? then filledQuantity.value else 0.0
    }
  }

  datatype Transaction = Transaction(ticker: string, side: Side, quantity: real, price: real, orderNo: string)

  /** What the broker says has been filled of an order altogether, at the average price so far. */
  datatype Report = Report(orderNo: string, ticker: string, side: Side, filledQuantity: real, filledPrice: real,
                           isFullyFilled: bool)

  datatype Ledger = Ledger(orders: seq<Order>, transactions: seq<Transaction>, holdings: Table)

  datatype Counts = Counts(settled: nat, partial: nat, untouched: nat)

  type Reports = map<string, Report>

  /** By order number; of several reports for one number the last counts. */
  function ByNumber(rs: seq<Report>): Reports {
    if rs == [] then map[] else ByNumber(DropLast(rs))[Last(rs).orderNo := Last(rs)]
  }

  /** Report k is the last one for the number. */
  ghost predicate IsLastReport(rs: seq<Report>, no: string, k: int) {
    0 <= k < |rs| && rs[k].orderNo == no && forall j | k < j < |rs| :: rs[j].orderNo != no
  }

  /** A number has an entry exactly when some report carries it, and the entry is the last such report. */
  lemma {:induction false} ByNumberIsLastReport(rs: seq<Report>, no: string)
    ensures no in ByNumber(rs) <==> exists r <- rs :: r.orderNo == no
    ensures no in ByNumber(rs) ==> exists k :: IsLastReport(rs, no, k) && ByNumber(rs)[no] == rs[k]
  {
    if rs != [] {
      var before, n := DropLast(rs), |rs| - 1;
      ByNumberIsLastReport(before, no);
      assert rs == before + [rs[n]];
      if rs[n].orderNo == no {
        assert IsLastReport(rs, no, n);
      } else if no in ByNumber(before) {
        var k :| IsLastReport(before, no, k) && ByNumber(before)[no] == before[k];
        assert IsLastReport(rs, no, k);
      }
    }
  }

  predicate Reported(o: Order, m: Reports) {
    o.Numbered() && o.orderNo.value in m
  }

  predicate Advances(o: Order, m: Reports) {
    o.Open() && Reported(o, m) && m[o.orderNo.value].filledQuantity - o.FilledSoFar() > 0.0
  }

  function Posting(o: Order, r: Report): Transaction
    requires o.Numbered()
  {
    Transaction(r.ticker, r.side, r.filledQuantity - o.FilledSoFar(), r.filledPrice, o.orderNo.value)
  }

  function FillOf(o: Order, r: Report): Fill {
    Fill(r.ticker, if o.name.Some? && o.name.value != "" then o.name.value else r.ticker, r.side,
         r.filledQuantity - o.FilledSoFar(), r.filledPrice)
  }

  function Updated(o: Order, r: Report): Order {
    o.(filledQuantity := Some(r.filledQuantity), filledPrice := Some(r.filledPrice),
       status := if r.isFullyFilled then Filled else Partial)
  }

  /** Order row i meets its report. */
  function SettledRow(l: Ledger, i: nat, m: Reports): Ledger
    requires i < |l.orders|
  {
    var o := l.orders[i];
    if !Advances(o, m) then l
    else
      var r := m[o.orderNo.value];
      Ledger(l.orders[i := Updated(o, r)], l.transactions + [Posting(o, r)], Applied(l.holdings, FillOf(o, r)))
  }

  function Counted(c: Counts, o: Order, m: Reports): Counts {
    if !o.Open() then c
    else if !Advances(o, m) then c.(untouched := c.untouched + 1)
    else if m[o.orderNo.value].isFullyFilled then c.(settled := c.settled + 1)
    else c.(partial := c.partial + 1)
  }

  /** The first n order rows settled. */
  function SettledRows(l: Ledger, n: nat, m: Reports): (Ledger, Counts)
    requires n <= |l.orders|
    ensures |SettledRows(l, n, m).0.orders| == |l.orders|
  {
    if n == 0 then (l, Counts(0, 0, 0))
    else
      var (before, c) := SettledRows(l, n - 1, m);
      (SettledRow(before, n - 1, m), Counted(c, before.orders[n - 1], m))
  }

  predicate AnyToAsk(l: Ledger) {
    exists i :: 0 <= i < |l.orders| && l.orders[i].Open() && l.orders[i].Numbered()
  }

  /** settle_pending_orders: nothing happens, and nothing is counted, when there is no number to ask about. */
  function Settle(l: Ledger, rs: seq<Report>): (Ledger, Counts) {
    if !AnyToAsk(l) then (l, Counts(0, 0, 0)) else SettledRows(l, |l.orders|, ByNumber(rs))
  }

  datatype Request = Request(ticker: string, name: Option<string>, side: Side, quantity: real)

  datatype BrokerAnswer = Raised | Answer(orderNo: string, rejected: bool)

  datatype PlaceResult = Insufficient | Unreachable | Recorded(order: Order)

  function NewOrder(q: Request, orderNo: string, rejected: bool): Order {
    Order(if orderNo == "" then None else Some(orderNo), q.ticker, q.name, q.side, q.quantity,
          if rejected then Failed else Pending, None, None)
  }

  function Place(l: Ledger, q: Request, a: BrokerAnswer): (Ledger, PlaceResult) {
    if q.side.Sell? && (q.ticker !in l.holdings || l.holdings[q.ticker].quantity < q.quantity) then (l, Insufficient)
    else if a.Raised? then (l, Unreachable)
    else
      var o := NewOrder(q, a.orderNo, a.rejected);
      (l.(orders := l.orders + [o]), Recorded(o))
  }

  predicate HasNumber(o: Order, no: string) {
    o.orderNo == Some(no)
  }

  /** A cancellation the broker accepted: whatever the order's status was, it is now cancelled. */
  function Cancel(l: Ledger, no: string): Ledger {
    l.(orders := seq(|l.orders|, i requires 0 <= i < |l.orders| =>
      if HasNumber(l.orders[i], no) then l.orders[i].(status := Cancelled) else l.orders[i]))
  }

  class PortfolioLedger {
    var orders: seq<Order>
    var transactions: seq<Transaction>
    var holdings: Table

    ghost function State(): Ledger
      reads this
    {
      Ledger(orders, transactions, holdings)
    }

    constructor (l: Ledger)
      ensures State() == l
    {
      orders, transactions, holdings := l.orders, l.transactions, l.holdings;
    }

    method UpdateHoldingsForFill(f: Fill)
      modifies this`holdings
      ensures holdings == Applied(old(holdings), f)
    {
      match f.side
      case Buy =>
        if f.ticker !in holdings {
          holdings := holdings[f.ticker := Holding(f.name, f.quantity, f.price, None)];
        } else {
          var h := holdings[f.ticker];
          var total := h.quantity + f.quantity;
          var average := f.price;
          if total > 0.0 {
            average := (h.quantity * h.avgPrice + f.quantity * f.price) / total;
          }
          assert average == AverageAfterBuy(h, f.quantity, f.price);
          holdings := holdings[f.ticker := h.(quantity := total, avgPrice := average)];
        }
      case Sell =>
        if f.ticker in holdings {
          var h := holdings[f.ticker];
          var left := h.quantity - f.quantity;
          if left <= 0.0 {
            holdings := holdings - {f.ticker};
          } else {
            holdings := holdings[f.ticker := h.(quantity := left)];
          }
        } else {
          assert holdings == holdings - {f.ticker};
        }
    }

    method MapReports(rs: seq<Report>) returns (m: Reports)
      ensures m == ByNumber(rs)
    {
      m := map[];
      for k := 0 to |rs|
        invariant m == ByNumber(rs[..k])
      {
        assert DropLast(rs[..k + 1]) == rs[..k];
        m := m[rs[k].orderNo := rs[k]];
      }
      assert rs[..|rs|] == rs;
    }

    /** The part of the loop that books new fills of row i. */
    method BookFill(i: nat, info: Report, newFilled: real)
      requires i < |orders| && orders[i].Numbered() && newFilled == info.filledQuantity - orders[i].FilledSoFar()
      modifies this
      ensures State() == Ledger(old(orders)[i := Updated(old(orders)[i], info)],
                                old(transactions) + [Posting(old(orders)[i], info)],
                                Applied(old(holdings), FillOf(old(orders)[i], info)))
    {
      var o := orders[i].(filledQuantity := Some(info.filledQuantity), filledPrice := Some(info.filledPrice));
      if info.isFullyFilled {
        o := o.(status := Filled);
      } else {
        o := o.(status := Partial);
      }
      orders := orders[i := o];
      transactions := transactions + [Transaction(info.ticker, info.side, newFilled, info.filledPrice, o.orderNo.value)];
      var name := if o.name.Some? && o.name.value != "" then o.name.value else info.ticker;
      UpdateHoldingsForFill(Fill(info.ticker, name, info.side, newFilled, info.filledPrice));
    }

    /** The broker's reports are those it returned for the open order numbers. */
    method SettlePendingOrders(rs: seq<Report>) returns (counts: Counts)
      modifies this
      ensures (State(), counts) == Settle(old(State()), rs)
    {
      counts := Counts(0, 0, 0);
      if !exists i :: 0 <= i < |orders| && orders[i].Open() && orders[i].Numbered() {
        return;
      }
      var filled := MapReports(rs);
      for i := 0 to |orders|
        invariant |orders| == |old(orders)|
        invariant (State(), counts) == SettledRows(old(State()), i, filled)
      {
        var o := orders[i];
        if o.Open() {
          if !o.Numbered() || o.orderNo.value !in filled {
            counts := counts.(untouched := counts.untouched + 1);
          } else {
            var info := filled[o.orderNo.value];
            var newFilled := info.filledQuantity - o.FilledSoFar();
            if newFilled <= 0.0 {
              counts := counts.(untouched := counts.untouched + 1);
            } else {
              BookFill(i, info, newFilled);
              if info.isFullyFilled {
                counts := counts.(settled := counts.settled + 1);
              } else {
                counts := counts.(partial := counts.partial + 1);
              }
            }
          }
        }
      }
    }

    method PlaceOrder(q: Request, a: BrokerAnswer) returns (r: PlaceResult)
      modifies this`orders
      ensures (State(), r) == Place(old(State()), q, a)
    {
      if q.side.Sell? {
        if q.ticker !in holdings || holdings[q.ticker].quantity < q.quantity {
          return Insufficient;
        }
      }
      if a.Raised? {
        return Unreachable;
      }
      var o := NewOrder(q, a.orderNo, a.rejected);
      orders := orders + [o];
      r := Recorded(o);
    }

    method CancelOrder(no: string)
      modifies this`orders
      ensures State() == Cancel(old(State()), no)
    {
      var i := 0;
      var before := orders;
      while i < |orders|
        invariant i <= |orders| == |before|
        invariant forall k | 0 <= k < |orders| ::
                    orders[k] == if k < i && HasNumber(before[k], no) then before[k].(status := Cancelled) else before[k]
      {
        if HasNumber(orders[i], no) {
          orders := orders[i := orders[i].(status := Cancelled)];
        }
        i := i + 1;
      }
    }
  }
}
