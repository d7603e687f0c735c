/** What every run of placing, settling, cancelling and reconciling keeps. */
module LedgerRuns {
  import opened Prelude
  import opened Holdings
  import opened OrderLedger
  import R = Reconcile

  datatype Event =
    | Placing(request: Request, answer: BrokerAnswer)
    | Settling(reports: seq<Report>)
    | Cancelling(orderNo: string)
    | Syncing(snapshot: seq<R.KisHolding>)

  function Next(l: Ledger, e: Event): Ledger {
    match e
    case Placing(q, a) => Place(l, q, a).0
    case Settling(rs) => Settle(l, rs).0
    case Cancelling(no) => Cancel(l, no)
    case Syncing(ks) => l.(holdings := R.Reconciled(l.holdings, R.ByTicker(ks)))
  }

  function Run(l: Ledger, es: seq<Event>): Ledger {
    if es == [] then l else Next(Run(l, DropLast(es)), Last(es))
  }

  /** The broker gives a new order a number no row has yet. */
  predicate NewNumber(l: Ledger, e: Event) {
    e.Placing? && e.answer.Answer? ==> forall i | 0 <= i < |l.orders| :: !HasNumber(l.orders[i], e.answer.orderNo)
  }

  ghost predicate NewNumbers(l: Ledger, es: seq<Event>) {
    forall i | 0 <= i < |es| :: NewNumber(Run(l, es[..i]), es[i])
  }

  /** Transaction quantities of one order number, added up. */
  function Booked(ts: seq<Transaction>, no: string): real {
    if ts == [] then 0.0 else Booked(DropLast(ts), no) + if Last(ts).orderNo == no then Last(ts).quantity else 0.0
  }

  ghost predicate UniqueNumbers(orders: seq<Order>) {
    forall i, j | 0 <= i < j < |orders| && orders[i].orderNo.Some? :: orders[i].orderNo != orders[j].orderNo
  }

  /** Order numbers are unique, transaction quantities positive, and each order's add up to what it has
    * filled. */
  ghost predicate Balanced(l: Ledger) {
    && UniqueNumbers(l.orders)
    && (forall t <- l.transactions :: t.quantity > 0.0)
    && (forall i | 0 <= i < |l.orders| :: BalancedOrder(l, l.orders[i]))
    && (forall t <- l.transactions :: exists i :: 0 <= i < |l.orders| && HasNumber(l.orders[i], t.orderNo))
  }

  ghost predicate BalancedOrder(l: Ledger, o: Order) {
    o.FilledSoFar() == if o.orderNo.Some? then Booked(l.transactions, o.orderNo.value) else 0.0
  }

  /** A filled, cancelled or failed order, and one never reported on. */
  predicate Closed(o: Order) {
    !o.Open()
  }

  /** From one ledger to a later one: rows keep their place and identity, fills only grow, closed orders
    * stay closed with their fills, and new transactions belong to orders that were open, or are new. */
  ghost predicate Grows(l: Ledger, l': Ledger) {
    && |l.orders| <= |l'.orders|
    && l.transactions <= l'.transactions
    && forall i | 0 <= i < |l.orders| :: GrowsRow(l, l', l.orders[i], l'.orders[i])
  }

  ghost predicate GrowsRow(l: Ledger, l': Ledger, o: Order, o': Order) {
    && o'.(status := o.status, filledQuantity := o.filledQuantity, filledPrice := o.filledPrice) == o
    && o.FilledSoFar() <= o'.FilledSoFar()
    && (Closed(o) ==>
          Closed(o') && o'.filledQuantity == o.filledQuantity && o'.filledPrice == o.filledPrice &&
          (o.Numbered() ==> forall k | |l.transactions| <= k < |l'.transactions| ::
                              l'.transactions[k].orderNo != o.orderNo.value))
  }

  // ----- Settling one row -----

  lemma BookedSnoc(ts: seq<Transaction>, t: Transaction, no: string)
    ensures Booked(ts + [t], no) == Booked(ts, no) + if t.orderNo == no then t.quantity else 0.0
  {
    assert DropLast(ts + [t]) == ts;
  }

  lemma RowBalanced(l: Ledger, i: nat, m: Reports)
    requires i < |l.orders| && Balanced(l)
    ensures Balanced(SettledRow(l, i, m)) && Grows(l, SettledRow(l, i, m))
  {
    var o, l' := l.orders[i], SettledRow(l, i, m);
    if Advances(o, m) {
      var t := Posting(o, m[o.orderNo.value]);
      assert l'.transactions == l.transactions + [t];
      forall j | 0 <= j < |l'.orders|
        ensures BalancedOrder(l', l'.orders[j]) && GrowsRow(l, l', l.orders[j], l'.orders[j])
      {
        assert BalancedOrder(l, l.orders[j]);
        assert j != i && l.orders[j].orderNo.Some? ==> l.orders[j].orderNo != o.orderNo;
        if l.orders[j].orderNo.Some? {
          BookedSnoc(l.transactions, t, l.orders[j].orderNo.value);
        }
      }
      forall u <- l'.transactions
        ensures u.quantity > 0.0 && exists j :: 0 <= j < |l'.orders| && HasNumber(l'.orders[j], u.orderNo)
      {
        if u == t {
          assert HasNumber(l'.orders[i], u.orderNo);
        } else {
          assert u in l.transactions;
          var j :| 0 <= j < |l.orders| && HasNumber(l.orders[j], u.orderNo);
          assert HasNumber(l'.orders[j], u.orderNo);
        }
      }
    }
  }

  lemma GrowsTransitive(a: Ledger, b: Ledger, c: Ledger)
    requires Grows(a, b) && Grows(b, c)
    ensures Grows(a, c)
  {
    forall i | 0 <= i < |a.orders|
      ensures GrowsRow(a, c, a.orders[i], c.orders[i])
    {
      assert GrowsRow(a, b, a.orders[i], b.orders[i]) && GrowsRow(b, c, b.orders[i], c.orders[i]);
    }
  }

  lemma {:induction false} RowsBalanced(l: Ledger, n: nat, m: Reports, l': Ledger)
    requires n <= |l.orders| && Balanced(l) && l' == SettledRows(l, n, m).0
    ensures Balanced(l') && Grows(l, l')
  {
    if n == 0 {
      GrowsReflexive(l);
    } else {
      var before := SettledRows(l, n - 1, m).0;
      RowsBalanced(l, n - 1, m, before);
      OneMoreRow(l, before, n - 1, m, l');
    }
  }

  lemma OneMoreRow(l: Ledger, before: Ledger, i: nat, m: Reports, l': Ledger)
    requires i < |before.orders| && Balanced(before) && Grows(l, before) && l' == SettledRow(before, i, m)
    ensures Balanced(l') && Grows(l, l')
  {
    RowBalanced(before, i, m);
    GrowsTransitive(l, before, l');
  }

  lemma GrowsReflexive(l: Ledger)
    ensures Grows(l, l)
  {}

  lemma PlaceBalanced(l: Ledger, e: Event)
    requires Balanced(l) && e.Placing? && NewNumber(l, e)
    ensures Balanced(Next(l, e)) && Grows(l, Next(l, e))
  {
    var l' := Next(l, e);
    if l'.orders != l.orders {
      var o := l'.orders[|l.orders|];
      assert o.orderNo.Some? ==> Booked(l.transactions, o.orderNo.value) == 0.0 by {
        if o.orderNo.Some? {
          NothingBooked(l.transactions, o.orderNo.value);
        }
      }
      forall j | 0 <= j < |l'.orders|
        ensures BalancedOrder(l', l'.orders[j])
      {
        if j < |l.orders| {
          assert BalancedOrder(l, l.orders[j]);
        }
      }
      forall u <- l'.transactions
        ensures exists j :: 0 <= j < |l'.orders| && HasNumber(l'.orders[j], u.orderNo)
      {
        var j :| 0 <= j < |l.orders| && HasNumber(l.orders[j], u.orderNo);
        assert HasNumber(l'.orders[j], u.orderNo);
      }
    }
  }

  lemma {:induction ts} NothingBooked(ts: seq<Transaction>, no: string)
    requires forall t <- ts :: t.orderNo != no
    ensures Booked(ts, no) == 0.0
  {}

  lemma CancelBalanced(l: Ledger, no: string)
    requires Balanced(l)
    ensures Balanced(Cancel(l, no)) && Grows(l, Cancel(l, no))
  {
    var l' := Cancel(l, no);
    forall j | 0 <= j < |l'.orders|
      ensures BalancedOrder(l', l'.orders[j]) && GrowsRow(l, l', l.orders[j], l'.orders[j])
      ensures l'.orders[j].orderNo == l.orders[j].orderNo
    {
      assert BalancedOrder(l, l.orders[j]);
    }
    forall u <- l'.transactions
      ensures exists j :: 0 <= j < |l'.orders| && HasNumber(l'.orders[j], u.orderNo)
    {
      var j :| 0 <= j < |l.orders| && HasNumber(l.orders[j], u.orderNo);
      assert HasNumber(l'.orders[j], u.orderNo);
    }
  }

  lemma StepBalanced(l: Ledger, e: Event)
    requires Balanced(l) && NewNumber(l, e)
    ensures Balanced(Next(l, e)) && Grows(l, Next(l, e))
  {
    match e
    case Placing(_, _) => PlaceBalanced(l, e);
    case Settling(rs) => RowsBalanced(l, |l.orders|, ByNumber(rs), SettledRows(l, |l.orders|, ByNumber(rs)).0);
    case Cancelling(no) => CancelBalanced(l, no);
    case Syncing(_) =>
      var l' := Next(l, e);
      assert forall i | 0 <= i < |l.orders| :: BalancedOrder(l, l.orders[i]) ==> BalancedOrder(l', l'.orders[i]);
  }

  /** Over every run, with arbitrary cumulative reports: each order's transactions are positive and add up
    * to its filled quantity, that quantity never falls, and filled, cancelled and failed orders stay so and
    * never get another transaction. */
  lemma {:induction false} EveryRunBalances(l: Ledger, es: seq<Event>)
    requires Balanced(l) && NewNumbers(l, es)
    ensures Balanced(Run(l, es)) && Grows(l, Run(l, es))
  {
    if es != [] {
      var before := DropLast(es);
      assert NewNumbers(l, before) by {
        assert forall i | 0 <= i < |before| :: before[..i] == es[..i];
      }
      EveryRunBalances(l, before);
      assert es[..|es| - 1] == before && NewNumber(Run(l, es[..|es| - 1]), es[|es| - 1]);
      StepBalanced(Run(l, before), Last(es));
      GrowsTransitive(l, Run(l, before), Run(l, es));
    }
  }

  /** The premise of EveryRunBalances where a portfolio begins. */
  lemma EmptyLedgerBalances(holdings: Table)
    ensures Balanced(Ledger([], [], holdings))
  {}
}
