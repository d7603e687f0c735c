/** Holdings and the weighted-average cost rule of order_settlement.py.  One row per ticker; quantities,
  * prices and averages are exact. */
module Holdings {
  import opened Prelude

  datatype Holding = Holding(name: string, quantity: real, avgPrice: real, market: Option<string>)

  type Table = map<string, Holding>

  datatype Side = Buy | Sell

  datatype Fill = Fill(ticker: string, name: string, side: Side, quantity: real, price: real)

  function Row(hs: Table, ticker: string): Option<Holding> {
    if ticker in hs then Some(hs[ticker]) else None
  }

  function WithRow(hs: Table, ticker: string, h: Option<Holding>): Table {
    if h.Some? then hs[ticker := h.value] else hs - {ticker}
  }

  function AverageAfterBuy(h: Holding, quantity: real, price: real): real {
    var total := h.quantity + quantity;
    if total > 0.0 then (h.quantity * h.avgPrice + quantity * price) / total else price
  }

  /** The ticker's row after one fill. */
  function FilledRow(h: Option<Holding>, f: Fill): Option<Holding> {
    match f.side
    case Buy =>
      if h.None? then Some(Holding(f.name, f.quantity, f.price, None))
      else Some(h.value.(quantity := h.value.quantity + f.quantity,
                         avgPrice := AverageAfterBuy(h.value, f.quantity, f.price)))
    case Sell =>
      if h.None? then None
      else if h.value.quantity - f.quantity <= 0.0 then None
      else Some(h.value.(quantity := h.value.quantity - f.quantity))
  }

  function Applied(hs: Table, f: Fill): Table {
    WithRow(hs, f.ticker, FilledRow(Row(hs, f.ticker), f))
  }

  function AppliedAll(hs: Table, fs: seq<Fill>): Table {
    if fs == [] then hs else Applied(AppliedAll(hs, DropLast(fs)), Last(fs))
  }

  function Quantity(h: Option<Holding>): real {
    if h.Some? then h.value.quantity else 0.0
  }

  function Cost(h: Option<Holding>): real {
    if h.Some? then Worth(h.value.quantity, h.value.avgPrice) else 0.0
  }

  /** No row, or a row with something in it. */
  predicate Held(h: Option<Holding>) {
    h.Some? ==> h.value.quantity > 0.0
  }

  predicate AllHeld(hs: Table) {
    forall t | t in hs :: hs[t].quantity > 0.0
  }

  // ----- What a fill does to quantity and cost -----

  /** A row after, against before: so much more quantity, so much more cost. */
  ghost predicate Adds(before: Option<Holding>, after: Option<Holding>, quantity: real, cost: real) {
    Held(after) && Quantity(after) == Quantity(before) + quantity && Cost(after) == Cost(before) + cost
  }

  lemma DivideBack(a: real, b: real)
    requires b != 0.0
    ensures b * (a / b) == a
  {}

  /** A buy adds its quantity and its price paid, no more and no less. */
  lemma BuyAdds(h: Option<Holding>, f: Fill)
    requires Held(h) && f.side.Buy? && f.quantity > 0.0
    ensures FilledRow(h, f).Some? && Held(FilledRow(h, f))
    ensures Quantity(FilledRow(h, f)) == Quantity(h) + f.quantity
    ensures Cost(FilledRow(h, f)) == Cost(h) + Worth(f.quantity, f.price)
  {
    if h.Some? {
      DivideBack(Cost(h) + Worth(f.quantity, f.price), h.value.quantity + f.quantity);
    }
  }

  /** A sell takes what is there at most, and leaves the average alone. */
  lemma SellTakes(h: Option<Holding>, f: Fill)
    requires Held(h) && f.side.Sell? && f.quantity > 0.0
    ensures Quantity(FilledRow(h, f)) == if f.quantity > Quantity(h) then 0.0 else Quantity(h) - f.quantity
    ensures FilledRow(h, f).Some? ==> h.Some? && FilledRow(h, f).value.avgPrice == h.value.avgPrice
  {}

  /** A row keeps its name and market through every fill; a new one is named by the fill. */
  lemma FillKeepsName(h: Option<Holding>, f: Fill)
    requires FilledRow(h, f).Some?
    ensures h.Some? ==> FilledRow(h, f) == Some(h.value.(quantity := FilledRow(h, f).value.quantity, avgPrice := FilledRow(h, f).value.avgPrice))
    ensures h.None? ==> FilledRow(h, f) == Some(Holding(f.name, f.quantity, f.price, None)) && f.side == Buy
  {}

  lemma FillKeepsHeld(hs: Table, f: Fill)
    requires AllHeld(hs) && f.quantity > 0.0
    ensures AllHeld(Applied(hs, f))
  {}

  /** Rows with the same quantity and cost are the same row once something is held. */
  lemma CostFixesAverage(q: real, a: real, b: real)
    requires q > 0.0
    ensures Worth(q, a) == Worth(q, b) <==> a == b
  {
    if q * a == q * b {
      assert q * (a - b) == 0.0;
    }
  }

  lemma SellTwice(h: Option<Holding>, f: Fill, first: real)
    requires Held(h) && f.side.Sell? && 0.0 < first < f.quantity
    ensures FilledRow(FilledRow(h, f.(quantity := first)), f.(quantity := f.quantity - first)) == FilledRow(h, f)
  {}

  /** Splitting a fill in two at prices p1 and p2, against booking all of it at p2: the sides meet exactly
    * when the prices agree, or when it is a sell. */
  lemma SplitFill(h: Option<Holding>, f: Fill, first: real, firstPrice: real)
    requires Held(h) && 0.0 < first < f.quantity
    ensures var split := FilledRow(FilledRow(h, f.(quantity := first, price := firstPrice)),
                                   f.(quantity := f.quantity - first));
            && Quantity(split) == Quantity(FilledRow(h, f))
            && (split == FilledRow(h, f) <==> f.side.Sell? || firstPrice == f.price)
  {
    if f.side.Sell? {
      SellTwice(h, f.(price := firstPrice), first);
      SellTwice(h, f, first);
    } else {
      SplitBuy(h, f, f.(quantity := first, price := firstPrice), f.(quantity := f.quantity - first));
    }
  }

  lemma SplitBuy(h: Option<Holding>, f: Fill, f1: Fill, f2: Fill)
    requires Held(h) && f.side.Buy? && 0.0 < f1.quantity < f.quantity
    requires f1 == f.(quantity := f1.quantity, price := f1.price) && f2 == f.(quantity := f.quantity - f1.quantity)
    ensures var split := FilledRow(FilledRow(h, f1), f2);
            Quantity(split) == Quantity(FilledRow(h, f)) && (split == FilledRow(h, f) <==> f1.price == f.price)
  {
    BuyAdds(h, f1);
    BuyAdds(FilledRow(h, f1), f2);
    BuyAdds(h, f);
    var split, whole := FilledRow(FilledRow(h, f1), f2).value, FilledRow(h, f).value;
    SplitCosts(f1.quantity, f.quantity, f1.price, f.price);
    CostFixesAverage(whole.quantity, split.avgPrice, whole.avgPrice);
    assert split == whole.(avgPrice := split.avgPrice);
  }

  lemma SplitCosts(first: real, all: real, firstPrice: real, price: real)
    requires first > 0.0
    ensures Worth(first, firstPrice) + Worth(all - first, price) == Worth(all, price) <==> firstPrice == price
  {
    assert first * firstPrice + (all - first) * price - all * price == first * (firstPrice - price);
  }

  // ----- Holdings as a replay of fills -----

  /** The same quantities at the same averages; names and markets aside. */
  ghost predicate SameBook(a: Table, b: Table) {
    && a.Keys == b.Keys
    && forall t | t in a :: a[t].quantity == b[t].quantity && a[t].avgPrice == b[t].avgPrice
  }

  lemma SameBookApplied(a: Table, b: Table, f: Fill, g: Fill)
    requires SameBook(a, b) && f.(name := g.name) == g
    ensures SameBook(Applied(a, f), Applied(b, g))
  {
    assert f.ticker in a <==> f.ticker in b;
  }

  /** What the fills of one ticker add up to, sells negative. */
  function Net(fs: seq<Fill>, ticker: string): real {
    if fs == [] then 0.0
    else Net(DropLast(fs), ticker) +
         if Last(fs).ticker != ticker then 0.0
         else if Last(fs).side.Buy? then Last(fs).quantity else -Last(fs).quantity
  }

  /** Some sell of the ticker took more than was held at that moment. */
  ghost predicate Oversold(hs: Table, fs: seq<Fill>, ticker: string) {
    exists k :: 0 <= k < |fs| && OversoldAt(hs, fs, ticker, k)
  }

  ghost predicate OversoldAt(hs: Table, fs: seq<Fill>, ticker: string, k: nat)
    requires k < |fs|
  {
    fs[k].ticker == ticker && fs[k].side.Sell? && fs[k].quantity > Quantity(Row(AppliedAll(hs, fs[..k]), ticker))
  }

  /** Conservation: the quantity held is what the fills add up to, exactly when nothing was oversold;
    * otherwise it is more, never less. */
  lemma {:induction false} QuantityIsNet(hs: Table, fs: seq<Fill>, ticker: string)
    requires AllHeld(hs) && forall f <- fs :: f.quantity > 0.0
    ensures AllHeld(AppliedAll(hs, fs))
    ensures var q, net := Quantity(Row(AppliedAll(hs, fs), ticker)), Quantity(Row(hs, ticker)) + Net(fs, ticker);
            q >= net && (q == net <==> !Oversold(hs, fs, ticker))
  {
    if fs != [] {
      var before, f := DropLast(fs), Last(fs);
      assert f in fs && forall g <- before :: g in fs;
      QuantityIsNet(hs, before, ticker);
      var t := AppliedAll(hs, before);
      FillKeepsHeld(t, f);
      if f.ticker == ticker {
        if f.side.Buy? {
          BuyAdds(Row(t, ticker), f);
        } else {
          SellTakes(Row(t, ticker), f);
        }
      }
      OversoldSnoc(hs, fs, ticker);
    }
  }

  lemma OversoldSnoc(hs: Table, fs: seq<Fill>, ticker: string)
    requires fs != []
    ensures Oversold(hs, fs, ticker) <==> Oversold(hs, DropLast(fs), ticker) || OversoldAt(hs, fs, ticker, |fs| - 1)
  {
    var before := DropLast(fs);
    assert forall k | 0 <= k < |before| :: before[..k] == fs[..k];
    assert forall k | 0 <= k < |before| :: OversoldAt(hs, fs, ticker, k) <==> OversoldAt(hs, before, ticker, k);
  }

  /** What is left of the fills after fill k, a sell of the ticker, adds up to q. */
  ghost predicate NetAfterSell(fs: seq<Fill>, ticker: string, k: int, q: real) {
    0 <= k < |fs| && fs[k].ticker == ticker && fs[k].side.Sell? && Net(fs[k + 1..], ticker) == q
  }

  /** q is the largest of the net from the beginning and the nets since each sell. */
  ghost predicate IsLargestNet(start: real, fs: seq<Fill>, ticker: string, q: real) {
    && q >= start + Net(fs, ticker)
    && (forall k, r: real | NetAfterSell(fs, ticker, k, r) :: q >= r)
    && (q == start + Net(fs, ticker) || exists k :: NetAfterSell(fs, ticker, k, q))
  }

  function Signed(f: Fill, ticker: string): real {
    if f.ticker != ticker then 0.0 else if f.side.Buy? then f.quantity else -f.quantity
  }

  lemma NetOfOneMore(fs: seq<Fill>, f: Fill, ticker: string, k: nat)
    requires k <= |fs|
    ensures Net((fs + [f])[k..], ticker) == Net(fs[k..], ticker) + Signed(f, ticker)
  {
    assert DropLast((fs + [f])[k..]) == fs[k..];
  }

  lemma LargestNetMoves(start: real, fs: seq<Fill>, f: Fill, ticker: string, q: real, q': real)
    requires IsLargestNet(start, fs, ticker, q)
    requires q' == if f.ticker == ticker && f.side.Sell? && f.quantity > q then 0.0 else q + Signed(f, ticker)
    ensures IsLargestNet(start, fs + [f], ticker, q')
  {
    var fs' := fs + [f];
    NetOfOneMore(fs, f, ticker, 0);
    assert fs'[0..] == fs' && fs[0..] == fs;
    forall k, r: real | NetAfterSell(fs', ticker, k, r)
      ensures q' >= r
    {
      if k < |fs| {
        NetOfOneMore(fs, f, ticker, k + 1);
        assert NetAfterSell(fs, ticker, k, Net(fs[k + 1..], ticker));
      } else {
        assert fs'[k + 1..] == [];
      }
    }
    if f.ticker == ticker && f.side.Sell? && f.quantity > q {
      assert fs'[|fs| + 1..] == [];
      assert NetAfterSell(fs', ticker, |fs|, 0.0);
    } else if q != start + Net(fs, ticker) {
      var k :| NetAfterSell(fs, ticker, k, q);
      NetOfOneMore(fs, f, ticker, k + 1);
      assert NetAfterSell(fs', ticker, k, q');
    }
  }

  /** The quantity held in every case, overselling included: every sell of more than is held starts afresh at
    * nothing. */
  lemma {:induction false} QuantityIsLargestNet(hs: Table, fs: seq<Fill>, ticker: string)
    requires AllHeld(hs) && forall f <- fs :: f.quantity > 0.0
    ensures AllHeld(AppliedAll(hs, fs))
    ensures IsLargestNet(Quantity(Row(hs, ticker)), fs, ticker, Quantity(Row(AppliedAll(hs, fs), ticker)))
  {
    if fs != [] {
      var before, f := DropLast(fs), Last(fs);
      assert f in fs && forall g <- before :: g in fs;
      QuantityIsLargestNet(hs, before, ticker);
      var t := AppliedAll(hs, before);
      FillKeepsHeld(t, f);
      if f.ticker == ticker && f.side.Buy? {
        BuyAdds(Row(t, ticker), f);
      } else if f.ticker == ticker {
        SellTakes(Row(t, ticker), f);
      }
      assert fs == before + [f];
      LargestNetMoves(Quantity(Row(hs, ticker)), before, f, ticker, Quantity(Row(t, ticker)), Quantity(Row(AppliedAll(hs, fs), ticker)));
    }
  }
}
