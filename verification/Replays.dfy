/** Settlement against repeated and stale reports, and holdings as a replay of the transactions booked. */
module Replays {
  import opened Prelude
  import opened Holdings
  import opened OrderLedger
  import opened LedgerRuns
  import R = Reconcile

  // ----- What settling does to each row -----

  lemma {:induction false} RowOutcomes(l: Ledger, n: nat, m: Reports)
    requires n <= |l.orders|
    ensures var l' := SettledRows(l, n, m).0;
            forall i | 0 <= i < |l.orders| ::
              l'.orders[i] == if i < n && Advances(l.orders[i], m) then Updated(l.orders[i], m[l.orders[i].orderNo.value])
                              else l.orders[i]
  {
    if n > 0 {
      RowOutcomes(l, n - 1, m);
    }
  }

  /** Report k is the last one for the order's number, the order waits for fills, and the report goes beyond those
    * it has. */
  ghost predicate Brings(rs: seq<Report>, o: Order, k: int) {
    && 0 <= k < |rs| && rs[k].orderNo != "" && o.orderNo == Some(rs[k].orderNo)
    && (forall j | k < j < |rs| :: rs[j].orderNo != rs[k].orderNo)
    && (o.status == Pending || o.status == Partial)
    && rs[k].filledQuantity > (if o.filledQuantity == None then 0.0 else o.filledQuantity.value)
  }

  lemma AdvancesIffBrought(rs: seq<Report>, o: Order)
    ensures Advances(o, ByNumber(rs)) <==> exists k :: Brings(rs, o, k)
    ensures forall k | Brings(rs, o, k) :: ByNumber(rs)[rs[k].orderNo] == rs[k]
  {
    forall k | 0 <= k < |rs| && IsLastReport(rs, rs[k].orderNo, k)
      ensures rs[k].orderNo in ByNumber(rs) && ByNumber(rs)[rs[k].orderNo] == rs[k]
    {
      ByNumberIsLastReport(rs, rs[k].orderNo);
      assert rs[k] in rs;
    }
    if Advances(o, ByNumber(rs)) {
      ByNumberIsLastReport(rs, o.orderNo.value);
      var k :| IsLastReport(rs, o.orderNo.value, k) && ByNumber(rs)[o.orderNo.value] == rs[k];
      assert Brings(rs, o, k);
    }
    forall k | Brings(rs, o, k)
      ensures Advances(o, ByNumber(rs)) && ByNumber(rs)[rs[k].orderNo] == rs[k]
    {
      assert IsLastReport(rs, rs[k].orderNo, k);
    }
  }

  /** What a settle call makes of every order: what the last report for it says, if that brings anything; and else
    * it stays as it was. */
  lemma SettlesEachOrder(l: Ledger, rs: seq<Report>, i: nat)
    requires i < |l.orders|
    ensures var l', o := Settle(l, rs).0, l.orders[i];
            && |l'.orders| == |l.orders|
            && (l'.orders[i] != o <==> exists k :: Brings(rs, o, k))
            && forall k | Brings(rs, o, k) ::
                 l'.orders[i] == o.(status := if rs[k].isFullyFilled then Filled else Partial,
                                    filledQuantity := Some(rs[k].filledQuantity), filledPrice := Some(rs[k].filledPrice))
  {
    RowOutcomes(l, |l.orders|, ByNumber(rs));
    AdvancesIffBrought(rs, l.orders[i]);
  }

  function Count(before: seq<Order>, after: seq<Order>, p: (Order, Order) -> bool): nat
    requires |before| == |after|
  {
    if before == [] then 0
    else Count(DropLast(before), DropLast(after), p) + if p(Last(before), Last(after)) then 1 else 0
  }

  function Turned(status: Status): (Order, Order) -> bool {
    (o: Order, o': Order) => o' != o && o'.status == status
  }

  function Waiting(): (Order, Order) -> bool {
    (o: Order, o': Order) => o' == o && (o.status == Pending || o.status == Partial)
  }

  /** What one row adds to the counts. */
  lemma RowCounted(l: Ledger, i: nat, m: Reports, c: Counts)
    requires i < |l.orders|
    ensures var o, o' := l.orders[i], SettledRow(l, i, m).orders[i];
            Counted(c, o, m) == Counts(c.settled + (if Turned(Filled)(o, o') then 1 else 0),
                                       c.partial + (if Turned(Partial)(o, o') then 1 else 0),
                                       c.untouched + (if Waiting()(o, o') then 1 else 0))
  {
    var o := l.orders[i];
    if Advances(o, m) {
      assert Updated(o, m[o.orderNo.value]).FilledSoFar() > o.FilledSoFar();
    }
  }

  function CountsOf(before: seq<Order>, after: seq<Order>): Counts
    requires |before| == |after|
  {
    Counts(Count(before, after, Turned(Filled)), Count(before, after, Turned(Partial)), Count(before, after, Waiting()))
  }

  lemma {:induction false} RowsCounted(l: Ledger, n: nat, m: Reports)
    requires n <= |l.orders|
    ensures SettledRows(l, n, m).1 == CountsOf(l.orders[..n], SettledRows(l, n, m).0.orders[..n])
  {
    if n > 0 {
      var (was, c) := SettledRows(l, n - 1, m);
      var l' := SettledRow(was, n - 1, m);
      RowsCounted(l, n - 1, m);
      RowOutcomes(l, n - 1, m);
      RowCounted(was, n - 1, m, c);
      assert DropLast(l.orders[..n]) == l.orders[..n - 1];
      assert DropLast(l'.orders[..n]) == was.orders[..n - 1];
    }
  }

  /** The counts of a settle call: the orders it turned filled, those it turned partly filled, and those still
    * waiting as before, which are not counted when none of them has a number to ask about. */
  lemma SettleCounts(l: Ledger, rs: seq<Report>)
    ensures var (l', c) := Settle(l, rs);
            && |l'.orders| == |l.orders|
            && c.settled == Count(l.orders, l'.orders, Turned(Filled))
            && c.partial == Count(l.orders, l'.orders, Turned(Partial))
            && c.untouched == (if exists o <- l.orders :: (o.status == Pending || o.status == Partial) && o.orderNo.Some? && o.orderNo.value != ""
                               then Count(l.orders, l'.orders, Waiting()) else 0)
  {
    var n := |l.orders|;
    RowsCounted(l, n, ByNumber(rs));
    assert l.orders[..n] == l.orders && SettledRows(l, n, ByNumber(rs)).0.orders[..n] == SettledRows(l, n, ByNumber(rs)).0.orders;
    if !AnyToAsk(l) {
      NothingTurned(l.orders, Filled);
      NothingTurned(l.orders, Partial);
    } else {
      var i :| 0 <= i < n && l.orders[i].Open() && l.orders[i].Numbered();
      assert l.orders[i] in l.orders;
    }
  }

  lemma {:induction false} NothingTurned(os: seq<Order>, status: Status)
    ensures Count(os, os, Turned(status)) == 0
  {
    if os != [] {
      NothingTurned(DropLast(os), status);
    }
  }

  lemma {:induction false} QuietRows(l: Ledger, n: nat, m: Reports)
    requires n <= |l.orders| && forall i | 0 <= i < n :: !Advances(l.orders[i], m)
    ensures SettledRows(l, n, m).0 == l
  {
    if n > 0 {
      QuietRows(l, n - 1, m);
    }
  }

  /** A settle call leaves the ledger as it was exactly when no open order's report exceeds what has
    * already been applied to it. */
  lemma SettleIsIdleIffStale(l: Ledger, rs: seq<Report>)
    ensures Settle(l, rs).0 == l <==> forall i | 0 <= i < |l.orders| :: !Advances(l.orders[i], ByNumber(rs))
  {
    var m, n := ByNumber(rs), |l.orders|;
    if forall i | 0 <= i < n :: !Advances(l.orders[i], m) {
      QuietRows(l, n, m);
    } else {
      var i :| 0 <= i < n && Advances(l.orders[i], m);
      assert AnyToAsk(l);
      RowOutcomes(l, n, m);
      assert Settle(l, rs).0.orders[i].FilledSoFar() != l.orders[i].FilledSoFar();
    }
  }

  /** Reports no larger than some already settled, even much later, do nothing to the orders that were
    * there: replays are safe. */
  lemma OldReportsStayStale(l: Ledger, rs: seq<Report>, later: Ledger, stale: seq<Report>, i: nat)
    requires Balanced(l) && Grows(Settle(l, rs).0, later) && i < |l.orders|
    requires forall no | no in ByNumber(stale) ::
               no in ByNumber(rs) && ByNumber(stale)[no].filledQuantity <= ByNumber(rs)[no].filledQuantity
    ensures !Advances(later.orders[i], ByNumber(stale))
  {
    var once := Settle(l, rs).0;
    RowOutcomes(l, |l.orders|, ByNumber(rs));
    assert GrowsRow(once, later, once.orders[i], later.orders[i]);
  }

  /** Settling the same reports again changes nothing. */
  lemma SettlingTwice(l: Ledger, rs: seq<Report>)
    requires Balanced(l)
    ensures Settle(Settle(l, rs).0, rs).0 == Settle(l, rs).0
  {
    var once := Settle(l, rs).0;
    RowOutcomes(l, |l.orders|, ByNumber(rs));
    GrowsReflexive(once);
    forall i | 0 <= i < |once.orders|
      ensures !Advances(once.orders[i], ByNumber(rs))
    {
      OldReportsStayStale(l, rs, once, rs, i);
    }
    SettleIsIdleIffStale(once, rs);
  }

  /** Every open order is counted once, when there was anything to ask about. */
  lemma {:induction false} CountsCoverOpenOrders(l: Ledger, n: nat, m: Reports)
    requires n <= |l.orders|
    ensures var c := SettledRows(l, n, m).1;
            c.settled + c.partial + c.untouched == OpenOrders(l.orders[..n])
  {
    if n > 0 {
      CountsCoverOpenOrders(l, n - 1, m);
      RowOutcomes(l, n - 1, m);
      assert DropLast(l.orders[..n]) == l.orders[..n - 1];
    }
  }

  function OpenOrders(os: seq<Order>): nat {
    if os == [] then 0 else OpenOrders(DropLast(os)) + if Last(os).Open() then 1 else 0
  }

  // ----- Holdings are the replay of the transactions -----

  function FillsOf(ts: seq<Transaction>): seq<Fill> {
    if ts == [] then []
    else FillsOf(DropLast(ts)) + [Fill(Last(ts).ticker, "", Last(ts).side, Last(ts).quantity, Last(ts).price)]
  }

  /** From `base` on, the holdings are what the transactions after the first `from` make of it. */
  ghost predicate ReplaysFrom(base: Table, from: nat, l: Ledger) {
    from <= |l.transactions| && SameBook(l.holdings, AppliedAll(base, FillsOf(l.transactions[from..])))
  }

  lemma RowReplays(base: Table, from: nat, l: Ledger, i: nat, m: Reports)
    requires i < |l.orders| && ReplaysFrom(base, from, l)
    ensures ReplaysFrom(base, from, SettledRow(l, i, m))
  {
    var o, l' := l.orders[i], SettledRow(l, i, m);
    if Advances(o, m) {
      var r := m[o.orderNo.value];
      var since := l.transactions[from..];
      assert l'.transactions[from..] == since + [Posting(o, r)];
      assert DropLast(since + [Posting(o, r)]) == since;
      var g := FillOf(o, r).(name := "");
      assert FillsOf(since + [Posting(o, r)]) == FillsOf(since) + [g];
      assert DropLast(FillsOf(since) + [g]) == FillsOf(since);
      SameBookApplied(l.holdings, AppliedAll(base, FillsOf(since)), FillOf(o, r), g);
    }
  }

  lemma {:induction false} RowsReplay(base: Table, from: nat, l: Ledger, n: nat, m: Reports)
    requires n <= |l.orders| && ReplaysFrom(base, from, l)
    ensures ReplaysFrom(base, from, SettledRows(l, n, m).0)
  {
    if n > 0 {
      RowsReplay(base, from, l, n - 1, m);
      var before := SettledRows(l, n - 1, m).0;
      assert SettledRows(l, n, m).0 == SettledRow(before, n - 1, m);
      RowReplays(base, from, before, n - 1, m);
    }
  }

  /** The holdings to replay on, and the transactions to leave out: those of the last synchronisation, or of
    * the beginning. */
  function Base(l: Ledger, es: seq<Event>): (Table, nat) {
    if es == [] then (l.holdings, |l.transactions|)
    else if Last(es).Syncing? then
      var s := Run(l, DropLast(es));
      (R.Reconciled(s.holdings, R.ByTicker(Last(es).snapshot)), |s.transactions|)
    else Base(l, DropLast(es))
  }

  /** In every run, holdings are the replay of the transactions since the last synchronisation on the table it
    * left, and of nothing else. */
  lemma {:induction false} HoldingsReplayTransactions(l: Ledger, es: seq<Event>)
    ensures ReplaysFrom(Base(l, es).0, Base(l, es).1, Run(l, es))
  {
    if es == [] {
      assert l.transactions[|l.transactions|..] == [];
    } else {
      HoldingsReplayTransactions(l, DropLast(es));
      EventReplays(Base(l, DropLast(es)).0, Base(l, DropLast(es)).1, Run(l, DropLast(es)), Last(es));
      if Last(es).Syncing? {
        var ts := Run(l, es).transactions;
        assert ts[|ts|..] == [];
      }
    }
  }

  lemma EventReplays(base: Table, from: nat, l: Ledger, e: Event)
    requires ReplaysFrom(base, from, l)
    ensures !e.Syncing? ==> ReplaysFrom(base, from, Next(l, e))
  {
    if e.Settling? {
      RowsReplay(base, from, l, |l.orders|, ByNumber(e.reports));
    }
  }

  lemma {:induction false} FillsArePositive(ts: seq<Transaction>)
    requires forall t <- ts :: t.quantity > 0.0
    ensures forall f <- FillsOf(ts) :: f.quantity > 0.0
  {
    if ts != [] {
      assert Last(ts) in ts && forall t <- DropLast(ts) :: t in ts;
      FillsArePositive(DropLast(ts));
    }
  }

  /** The broker lists no empty positions. */
  predicate NoEmptyPositions(ks: seq<R.KisHolding>) {
    forall k <- ks :: k.quantity > 0.0
  }

  lemma {:induction false} SnapshotIsHeld(db: Table, ks: seq<R.KisHolding>)
    requires NoEmptyPositions(ks)
    ensures forall t | t in R.ByTicker(ks) :: R.ByTicker(ks)[t].quantity > 0.0
    ensures AllHeld(R.Reconciled(db, R.ByTicker(ks)))
  {
    if ks != [] {
      assert Last(ks) in ks && forall k <- DropLast(ks) :: k in ks;
      SnapshotIsHeld(db, DropLast(ks));
    }
  }

  lemma {:induction false} BaseIsHeld(l: Ledger, es: seq<Event>)
    requires AllHeld(l.holdings) && forall e <- es :: e.Syncing? ==> NoEmptyPositions(e.snapshot)
    ensures AllHeld(Base(l, es).0)
  {
    if es != [] {
      assert Last(es) in es && forall e <- DropLast(es) :: e in es;
      BaseIsHeld(l, DropLast(es));
      if Last(es).Syncing? {
        SnapshotIsHeld(Run(l, DropLast(es)).holdings, Last(es).snapshot);
      }
    }
  }

  /** Conservation of shares over a run: what is held is what the last synchronisation left, or was held at
    * the beginning, plus what the transactions since then net to, exactly unless more was sold than the
    * table held. */
  lemma SharesAreConserved(l: Ledger, es: seq<Event>, ticker: string)
    requires Balanced(l) && AllHeld(l.holdings) && NewNumbers(l, es)
    requires forall e <- es :: e.Syncing? ==> NoEmptyPositions(e.snapshot)
    ensures var base, from, l' := Base(l, es).0, Base(l, es).1, Run(l, es);
            from <= |l'.transactions| &&
            var fs := FillsOf(l'.transactions[from..]);
            Conserved(base, fs, l'.holdings, ticker)
  {
    var base, from, l' := Base(l, es).0, Base(l, es).1, Run(l, es);
    EveryRunBalances(l, es);
    HoldingsReplayTransactions(l, es);
    BaseIsHeld(l, es);
    var since := l'.transactions[from..];
    assert forall t <- since :: t in l'.transactions;
    FillsArePositive(since);
    QuantityIsNet(base, FillsOf(since), ticker);
  }

  /** The quantity held after the fills is at least what they net to, and exactly that unless some of them
    * oversold. */
  ghost predicate Conserved(base: Table, fs: seq<Fill>, holdings: Table, ticker: string) {
    var q, net := Quantity(Row(holdings, ticker)), Quantity(Row(base, ticker)) + Net(fs, ticker);
    q >= net && (q == net <==> !Oversold(base, fs, ticker))
  }

  // ----- Cancelling a filled order -----

  /** A filled order stays filled, unless its number is cancelled: then it is marked cancelled, and keeps
    * its fills. */
  lemma FilledUnlessCancelled(l: Ledger, e: Event, i: nat)
    requires i < |l.orders| && l.orders[i].status.Filled?
    ensures |l.orders| <= |Next(l, e).orders|
    ensures Next(l, e).orders[i].status.Filled? <==> !(e.Cancelling? && HasNumber(l.orders[i], e.orderNo))
    ensures Next(l, e).orders[i] == l.orders[i].(status := Next(l, e).orders[i].status)
  {
    if e.Settling? {
      RowOutcomes(l, |l.orders|, ByNumber(e.reports));
    }
  }

  lemma NeverFilledAgain(l: Ledger, e: Event, i: nat)
    requires i < |l.orders| && l.orders[i].status.Cancelled?
    ensures |l.orders| <= |Next(l, e).orders|
    ensures Next(l, e).orders[i] == l.orders[i]
  {
    if e.Settling? {
      RowOutcomes(l, |l.orders|, ByNumber(e.reports));
    }
  }

  /** Over a run: a filled order is still filled at the end if and only if its number was never cancelled. */
  lemma {:induction false} FilledIffNeverCancelled(l: Ledger, es: seq<Event>, i: nat)
    requires i < |l.orders| && l.orders[i].status.Filled?
    ensures |l.orders| <= |Run(l, es).orders|
    ensures var o := Run(l, es).orders[i];
            && o == l.orders[i].(status := o.status)
            && (o.status.Filled? <==> forall e <- es :: !(e.Cancelling? && HasNumber(l.orders[i], e.orderNo)))
            && (o.status.Filled? || o.status.Cancelled?)
  {
    if es != [] {
      var before, e := DropLast(es), Last(es);
      FilledIffNeverCancelled(l, before, i);
      assert es == before + [e];
      if Run(l, before).orders[i].status.Filled? {
        FilledUnlessCancelled(Run(l, before), e, i);
      } else {
        NeverFilledAgain(Run(l, before), e, i);
      }
    }
  }
}
