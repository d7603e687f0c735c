/** Settling after the holdings have been synchronised with the broker: a fill that the snapshot already
  * contains, and that has not been settled yet, is booked on top of it. */
module AfterSync {
  import opened Prelude
  import opened Holdings
  import opened OrderLedger
  import opened LedgerRuns
  import opened Replays
  import opened Slicing
  import R = Reconcile

  /** What the broker's list says last of the ticker. */
  ghost function BrokerQuantity(ks: seq<R.KisHolding>, ticker: string): real {
    if ks == [] then 0.0 else if Last(ks).ticker == ticker then Last(ks).quantity else BrokerQuantity(DropLast(ks), ticker)
  }

  lemma {:induction false} BrokerQuantityIsMapped(ks: seq<R.KisHolding>, ticker: string)
    ensures BrokerQuantity(ks, ticker) == if ticker in R.ByTicker(ks) then R.ByTicker(ks)[ticker].quantity else 0.0
  {
    if ks != [] {
      BrokerQuantityIsMapped(DropLast(ks), ticker);
    }
  }

  lemma SyncedQuantity(l: Ledger, ks: seq<R.KisHolding>, ticker: string)
    ensures Quantity(Row(Next(l, Syncing(ks)).holdings, ticker)) == BrokerQuantity(ks, ticker)
    ensures ticker in Next(l, Syncing(ks)).holdings <==> exists k <- ks :: k.ticker == ticker
  {
    BrokerQuantityIsMapped(ks, ticker);
    R.ByTickerIsLastEntry(ks, ticker);
  }

  /** One report of an open order after a synchronisation: a buy's unsettled part comes on top of the broker's
    * quantity, a sell's is taken off it once more. The quantity stays the broker's exactly when the report
    * brings nothing new, or is a sell of a ticker that the broker no longer lists. */
  lemma OneFillAfterSync(l: Ledger, ks: seq<R.KisHolding>, i: nat, r: Report)
    requires UniqueNumbers(l.orders) && NoEmptyPositions(ks) && i < |l.orders| && HasNumber(l.orders[i], r.orderNo)
    ensures var o, broker := l.orders[i], BrokerQuantity(ks, r.ticker);
            var advances, more := Advances(o, map[r.orderNo := r]), r.filledQuantity - o.FilledSoFar();
            var q := Quantity(Row(Settle(Next(l, Syncing(ks)), [r]).0.holdings, r.ticker));
            && q == (if !advances then broker else if r.side.Buy? then broker + more else if more > broker then 0.0 else broker - more)
            && (q == broker <==> !advances || (r.side.Sell? && forall k <- ks :: k.ticker != r.ticker))
  {
    var synced, o := Next(l, Syncing(ks)), l.orders[i];
    SnapshotIsHeld(l.holdings, ks);
    SyncedQuantity(l, ks, r.ticker);
    OneReport(synced, i, r);
    if Advances(o, map[r.orderNo := r]) {
      FilledQuantity(synced.holdings, FillOf(o, r));
    }
  }

  lemma FilledQuantity(hs: Table, f: Fill)
    requires AllHeld(hs) && f.quantity > 0.0
    ensures Quantity(Row(Applied(hs, f), f.ticker)) ==
              if f.side.Buy? then Quantity(Row(hs, f.ticker)) + f.quantity
              else if f.quantity > Quantity(Row(hs, f.ticker)) then 0.0 else Quantity(Row(hs, f.ticker)) - f.quantity
  {
    if f.side.Buy? {
      BuyAdds(Row(hs, f.ticker), f);
    } else {
      SellTakes(Row(hs, f.ticker), f);
    }
  }

  // ----- Any number of orders -----

  /** What settling the first n rows posts. */
  function Postings(l: Ledger, n: nat, m: Reports): seq<Transaction>
    requires n <= |l.orders|
  {
    if n == 0 then []
    else Postings(l, n - 1, m) + if Advances(l.orders[n - 1], m) then [Posting(l.orders[n - 1], m[l.orders[n - 1].orderNo.value])] else []
  }

  lemma {:induction false} RowsPost(l: Ledger, n: nat, m: Reports)
    requires n <= |l.orders|
    ensures SettledRows(l, n, m).0.transactions == l.transactions + Postings(l, n, m)
  {
    if n > 0 {
      RowsPost(l, n - 1, m);
      RowOutcomes(l, n - 1, m);
    }
  }

  lemma {:induction false} NothingPosted(l: Ledger, n: nat, m: Reports)
    requires n <= |l.orders| && forall i | 0 <= i < n :: !Advances(l.orders[i], m)
    ensures Postings(l, n, m) == []
  {
    if n > 0 {
      NothingPosted(l, n - 1, m);
    }
  }

  lemma {:induction false} PostingsArePositive(l: Ledger, n: nat, m: Reports)
    requires n <= |l.orders|
    ensures forall t <- Postings(l, n, m) :: t.quantity > 0.0
  {
    if n > 0 {
      PostingsArePositive(l, n - 1, m);
    }
  }

  lemma RowsApply(l: Ledger, m: Reports, ticker: string)
    ensures Quantity(Row(SettledRows(l, |l.orders|, m).0.holdings, ticker))
         == Quantity(Row(AppliedAll(l.holdings, FillsOf(Postings(l, |l.orders|, m))), ticker))
  {
    var n, from := |l.orders|, |l.transactions|;
    assert l.transactions[from..] == [];
    RowsReplay(l.holdings, from, l, n, m);
    RowsPost(l, n, m);
    assert SettledRows(l, n, m).0.transactions[from..] == Postings(l, n, m);
  }

  /** Settling rows changes the holdings by what they post. */
  lemma RowsConserve(l: Ledger, m: Reports, ticker: string)
    requires AllHeld(l.holdings)
    ensures Conserved(l.holdings, FillsOf(Postings(l, |l.orders|, m)), SettledRows(l, |l.orders|, m).0.holdings, ticker)
  {
    RowsApply(l, m, ticker);
    PostingsArePositive(l, |l.orders|, m);
    FillsArePositive(Postings(l, |l.orders|, m));
    QuantityIsNet(l.holdings, FillsOf(Postings(l, |l.orders|, m)), ticker);
  }

  lemma {:induction false} PostingsIgnoreHoldings(a: Ledger, b: Ledger, n: nat, m: Reports)
    requires a.orders == b.orders && n <= |a.orders|
    ensures Postings(a, n, m) == Postings(b, n, m)
  {
    if n > 0 {
      PostingsIgnoreHoldings(a, b, n - 1, m);
    }
  }

  /** After a synchronisation, whatever the sides: settling moves a ticker away from the broker's quantity by
    * the net of the unsettled fills, unless it oversells. */
  lemma SettlingAfterSyncNets(l: Ledger, ks: seq<R.KisHolding>, rs: seq<Report>, ticker: string)
    requires NoEmptyPositions(ks)
    ensures var synced, fs := Next(l, Syncing(ks)), FillsOf(Postings(l, |l.orders|, ByNumber(rs)));
            var q := Quantity(Row(Settle(synced, rs).0.holdings, ticker));
            && Conserved(synced.holdings, fs, Settle(synced, rs).0.holdings, ticker)
            && (!Oversold(synced.holdings, fs, ticker) ==> (q == BrokerQuantity(ks, ticker) <==> Net(fs, ticker) == 0.0))
  {
    var synced, m := Next(l, Syncing(ks)), ByNumber(rs);
    SnapshotIsHeld(l.holdings, ks);
    SyncedQuantity(l, ks, ticker);
    PostingsIgnoreHoldings(synced, l, |l.orders|, m);
    if AnyToAsk(synced) {
      RowsConserve(synced, m, ticker);
    } else {
      NothingPosted(synced, |l.orders|, m);
      QuantityIsNet(synced.holdings, [], ticker);
    }
  }

  /** And when it does: the quantity is the largest of the broker's plus that net and the nets of what follows
    * each unsettled sell. */
  lemma SettlingAfterSyncExactly(l: Ledger, ks: seq<R.KisHolding>, rs: seq<Report>, ticker: string)
    requires NoEmptyPositions(ks)
    ensures IsLargestNet(BrokerQuantity(ks, ticker), FillsOf(Postings(l, |l.orders|, ByNumber(rs))), ticker,
                         Quantity(Row(Settle(Next(l, Syncing(ks)), rs).0.holdings, ticker)))
  {
    var synced, m := Next(l, Syncing(ks)), ByNumber(rs);
    SnapshotIsHeld(l.holdings, ks);
    SyncedQuantity(l, ks, ticker);
    PostingsIgnoreHoldings(synced, l, |l.orders|, m);
    if AnyToAsk(synced) {
      RowsLargestNet(synced, m, ticker);
    } else {
      NothingPosted(synced, |l.orders|, m);
      QuantityIsLargestNet(synced.holdings, [], ticker);
    }
  }

  lemma RowsLargestNet(l: Ledger, m: Reports, ticker: string)
    requires AllHeld(l.holdings)
    ensures IsLargestNet(Quantity(Row(l.holdings, ticker)), FillsOf(Postings(l, |l.orders|, m)), ticker,
                         Quantity(Row(SettledRows(l, |l.orders|, m).0.holdings, ticker)))
  {
    RowsApply(l, m, ticker);
    PostingsArePositive(l, |l.orders|, m);
    FillsArePositive(Postings(l, |l.orders|, m));
    QuantityIsLargestNet(l.holdings, FillsOf(Postings(l, |l.orders|, m)), ticker);
  }

  /** Some open order has an unsettled fill of the ticker. */
  ghost predicate Unsettled(l: Ledger, m: Reports, ticker: string, i: int) {
    0 <= i < |l.orders| && Advances(l.orders[i], m) && m[l.orders[i].orderNo.value].ticker == ticker
  }

  ghost predicate OnlyBuys(l: Ledger, m: Reports, ticker: string) {
    forall i | Unsettled(l, m, ticker, i) :: m[l.orders[i].orderNo.value].side.Buy?
  }

  /** Fills of which those of the ticker are buys; `some` says whether there are any. */
  ghost predicate NetsToBuys(fs: seq<Fill>, ticker: string, some: bool) {
    && (forall f <- fs :: f.quantity > 0.0 && (f.ticker == ticker ==> f.side.Buy?))
    && Net(fs, ticker) >= 0.0 && (Net(fs, ticker) > 0.0 <==> some)
  }

  lemma OneMoreBuy(fs: seq<Fill>, f: Fill, ticker: string, some: bool)
    requires NetsToBuys(fs, ticker, some) && f.quantity > 0.0 && (f.ticker == ticker ==> f.side.Buy?)
    ensures NetsToBuys(fs + [f], ticker, some || f.ticker == ticker)
  {
    NetSnoc(fs, f, ticker);
  }

  ghost predicate SomeUnsettled(l: Ledger, m: Reports, ticker: string, n: int) {
    exists i :: 0 <= i < n && Unsettled(l, m, ticker, i)
  }

  lemma {:induction false} PostingsNet(l: Ledger, n: nat, m: Reports, ticker: string)
    requires n <= |l.orders| && OnlyBuys(l, m, ticker)
    ensures NetsToBuys(FillsOf(Postings(l, n, m)), ticker, SomeUnsettled(l, m, ticker, n))
  {
    if n > 0 {
      PostingsNet(l, n - 1, m, ticker);
      var o, before := l.orders[n - 1], Postings(l, n - 1, m);
      assert SomeUnsettled(l, m, ticker, n) <==> SomeUnsettled(l, m, ticker, n - 1) || Unsettled(l, m, ticker, n - 1);
      if Advances(o, m) {
        var t := Posting(o, m[o.orderNo.value]);
        assert Unsettled(l, m, ticker, n - 1) <==> t.ticker == ticker;
        assert Postings(l, n, m) == before + [t];
        FillsSnoc(before, t);
        OneMoreBuy(FillsOf(before), Fill(t.ticker, "", t.side, t.quantity, t.price), ticker, SomeUnsettled(l, m, ticker, n - 1));
      } else {
        assert Postings(l, n, m) == before && !Unsettled(l, m, ticker, n - 1);
      }
    }
  }

  lemma FillsSnoc(ts: seq<Transaction>, t: Transaction)
    ensures FillsOf(ts + [t]) == FillsOf(ts) + [Fill(t.ticker, "", t.side, t.quantity, t.price)]
  {
    assert DropLast(ts + [t]) == ts;
  }

  lemma NetSnoc(fs: seq<Fill>, f: Fill, ticker: string)
    ensures Net(fs + [f], ticker) ==
              Net(fs, ticker) + if f.ticker != ticker then 0.0 else if f.side.Buy? then f.quantity else -f.quantity
  {
    assert DropLast(fs + [f]) == fs;
  }

  /** After a synchronisation, settling leaves a ticker at the broker's quantity exactly when no open order has
    * an unsettled fill of it, as long as its unsettled fills are buys; otherwise it shows more than the
    * broker holds, until the next synchronisation. */
  lemma SettlingAfterSync(l: Ledger, ks: seq<R.KisHolding>, rs: seq<Report>, ticker: string)
    requires NoEmptyPositions(ks) && OnlyBuys(l, ByNumber(rs), ticker)
    ensures var q := Quantity(Row(Settle(Next(l, Syncing(ks)), rs).0.holdings, ticker));
            && q >= BrokerQuantity(ks, ticker)
            && (q == BrokerQuantity(ks, ticker) <==> !SomeUnsettled(l, ByNumber(rs), ticker, |l.orders|))
  {
    var synced, m := Next(l, Syncing(ks)), ByNumber(rs);
    SnapshotIsHeld(l.holdings, ks);
    SyncedQuantity(l, ks, ticker);
    assert forall i :: Unsettled(synced, m, ticker, i) <==> Unsettled(l, m, ticker, i);
    assert SomeUnsettled(synced, m, ticker, |l.orders|) <==> SomeUnsettled(l, m, ticker, |l.orders|);
    SettlingBuys(synced, m, ticker);
    if SomeUnsettled(l, m, ticker, |l.orders|) {
      var i :| 0 <= i < |l.orders| && Unsettled(l, m, ticker, i);
      assert synced.orders[i].Open() && synced.orders[i].Numbered();
    }
  }

  lemma SettlingBuys(l: Ledger, m: Reports, ticker: string)
    requires AllHeld(l.holdings) && OnlyBuys(l, m, ticker)
    ensures var q, before := Quantity(Row(SettledRows(l, |l.orders|, m).0.holdings, ticker)), Quantity(Row(l.holdings, ticker));
            q >= before && (q == before <==> !SomeUnsettled(l, m, ticker, |l.orders|))
  {
    var fs := FillsOf(Postings(l, |l.orders|, m));
    RowsConserve(l, m, ticker);
    PostingsNet(l, |l.orders|, m, ticker);
    assert !Oversold(l.holdings, fs, ticker);
  }
}
