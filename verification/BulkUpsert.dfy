/** The merge loop of bulk_add_holdings (portfolio_holdings.py). */
module BulkUpsert {
  import opened Prelude
  import opened Holdings

  datatype Item = Item(ticker: string, name: string, quantity: real, avgPrice: real, market: Option<string>)

  datatype Tally = Tally(created: nat, updated: nat, errors: seq<string>)

  function Weighted(h: Holding, x: Item): real
    requires h.quantity + x.quantity != 0.0
  {
    (h.quantity * h.avgPrice + x.quantity * x.avgPrice) / (h.quantity + x.quantity)
  }

  /** Dividing by a zero total raises: the item is reported and the row stays as it was. */
  function Merged(hs: Table, t: Tally, x: Item): (Table, Tally) {
    if x.ticker in hs then
      var h := hs[x.ticker];
      var total := h.quantity + x.quantity;
      if total == 0.0 then (hs, t.(errors := t.errors + [x.ticker]))
      else (hs[x.ticker := h.(quantity := total, avgPrice := Weighted(h, x))], t.(updated := t.updated + 1))
    else (hs[x.ticker := Holding(x.name, x.quantity, x.avgPrice, x.market)], t.(created := t.created + 1))
  }

  function MergedAll(hs: Table, xs: seq<Item>): (Table, Tally) {
    if xs == [] then (hs, Tally(0, 0, []))
    else
      var (rows, t) := MergedAll(hs, DropLast(xs));
      Merged(rows, t, Last(xs))
  }

  class PortfolioTable {
    var rows: Table

    constructor (rows: Table)
      ensures this.rows == rows
    {
      this.rows := rows;
    }

    method BulkAddHoldings(xs: seq<Item>) returns (t: Tally)
      modifies this
      ensures (rows, t) == MergedAll(old(rows), xs)
    {
      var created, updated, errors := 0, 0, [];
      for i := 0 to |xs|
        invariant (rows, Tally(created, updated, errors)) == MergedAll(old(rows), xs[..i])
      {
        assert DropLast(xs[..i + 1]) == xs[..i];
        var x := xs[i];
        if x.ticker in rows {
          var h := rows[x.ticker];
          var total := h.quantity + x.quantity;
          if total == 0.0 {
            errors := errors + [x.ticker];
          } else {
            var weighted := Weighted(h, x);
            rows := rows[x.ticker := h.(quantity := total, avgPrice := weighted)];
            updated := updated + 1;
          }
        } else {
          rows := rows[x.ticker := Holding(x.name, x.quantity, x.avgPrice, x.market)];
          created := created + 1;
        }
      }
      assert xs[..|xs|] == xs;
      t := Tally(created, updated, errors);
    }
  }

  ghost predicate Positive(xs: seq<Item>) {
    forall x <- xs :: x.quantity > 0.0
  }

  function Amount(x: Item): real { x.quantity }

  function Spent(x: Item): real { x.quantity * x.avgPrice }

  /** The ticker's items, added up by v. */
  function Sum(xs: seq<Item>, ticker: string, v: Item -> real): real {
    if xs == [] then 0.0 else Sum(DropLast(xs), ticker, v) + Share(Last(xs), ticker, v)
  }

  function Share(x: Item, ticker: string, v: Item -> real): real {
    if x.ticker == ticker then v(x) else 0.0
  }

  predicate Mentions(xs: seq<Item>, ticker: string) {
    exists x :: x in xs && x.ticker == ticker
  }

  /** Quantity and average of a row. */
  function Position(h: Option<Holding>): Option<(real, real)> {
    if h.Some? then Some((h.value.quantity, h.value.avgPrice)) else None
  }

  ghost predicate SamePosition(a: Option<Holding>, b: Option<Holding>) {
    Position(a) == Position(b)
  }

  lemma AddsDecide(before: Option<Holding>, a: Option<Holding>, b: Option<Holding>, quantity: real, cost: real)
    requires Adds(before, a, quantity, cost) && Adds(before, b, quantity, cost) && (a.Some? <==> b.Some?)
    ensures SamePosition(a, b)
  {
    if a.Some? {
      CostFixesAverage(a.value.quantity, a.value.avgPrice, b.value.avgPrice);
    }
  }

  /** One item adds its quantity and its cost to its ticker and nothing to any other. */
  lemma ItemAdds(hs: Table, t: Tally, x: Item, ticker: string)
    requires AllHeld(hs) && x.quantity > 0.0
    ensures var (rows, t') := Merged(hs, t, x);
            && AllHeld(rows)
            && t' == t.(created := t.created + (if x.ticker in hs then 0 else 1), updated := t.updated + (if x.ticker in hs then 1 else 0))
            && (ticker in rows <==> ticker in hs || ticker == x.ticker)
            && Adds(Row(hs, ticker), Row(rows, ticker), Share(x, ticker, Amount), Share(x, ticker, Spent))
  {
    if x.ticker in hs {
      var h := hs[x.ticker];
      DivideBack(h.quantity * h.avgPrice + x.quantity * x.avgPrice, h.quantity + x.quantity);
    }
  }

  /** An item fails exactly when it brings a held quantity to zero, and then only its ticker is noted; otherwise it
    * leaves the names and markets of held tickers, and gives a new one its own. */
  lemma ItemFailsIff(hs: Table, t: Tally, x: Item)
    ensures var (rows, t') := Merged(hs, t, x);
            && (t'.errors != t.errors <==> x.ticker in hs && hs[x.ticker].quantity + x.quantity == 0.0)
            && (t'.errors != t.errors ==> rows == hs && t' == t.(errors := t.errors + [x.ticker]))
            && (t'.errors == t.errors ==>
                  && x.ticker in rows
                  && rows[x.ticker].name == (if x.ticker in hs then hs[x.ticker].name else x.name)
                  && rows[x.ticker].market == (if x.ticker in hs then hs[x.ticker].market else x.market))
  {
  }

  /** Quantity and cost of every ticker are the sums of what was there and what came in; no item fails. */
  lemma {:induction false} BulkAddsUp(hs: Table, xs: seq<Item>, ticker: string)
    requires AllHeld(hs) && Positive(xs)
    ensures var (rows, t) := MergedAll(hs, xs);
            && AllHeld(rows)
            && t.errors == [] && |rows| == |hs| + t.created && t.created + t.updated == |xs|
            && (ticker in rows <==> ticker in hs || Mentions(xs, ticker))
            && Adds(Row(hs, ticker), Row(rows, ticker), Sum(xs, ticker, Amount), Sum(xs, ticker, Spent))
  {
    if xs != [] {
      var before, x := DropLast(xs), Last(xs);
      assert x in xs && forall y <- before :: y in xs;
      BulkAddsUp(hs, before, ticker);
      ItemAdds(MergedAll(hs, before).0, MergedAll(hs, before).1, x, ticker);
      MentionsSnoc(xs, ticker);
    }
  }

  lemma MentionsSnoc(xs: seq<Item>, ticker: string)
    requires xs != []
    ensures Mentions(xs, ticker) <==> Mentions(DropLast(xs), ticker) || Last(xs).ticker == ticker
  {
    assert xs == DropLast(xs) + [Last(xs)];
    assert forall x :: x in xs <==> x in DropLast(xs) || x == Last(xs);
  }

  lemma {:induction false} SumIgnoresOrder(xs: seq<Item>, ys: seq<Item>, ticker: string, v: Item -> real)
    requires multiset(xs) == multiset(ys)
    ensures Sum(xs, ticker, v) == Sum(ys, ticker, v)
  {
    if xs == [] {
      assert |multiset(ys)| == 0;
    } else {
      var x := Last(xs);
      WithoutOne(xs, |xs| - 1);
      assert x in multiset(ys);
      var k :| 0 <= k < |ys| && ys[k] == x;
      WithoutOne(ys, k);
      assert xs[..|xs| - 1] + xs[|xs|..] == DropLast(xs);
      SumIgnoresOrder(DropLast(xs), ys[..k] + ys[k + 1..], ticker, v);
      SumWithoutOne(ys, k, ticker, v);
    }
  }

  lemma WithoutOne(ys: seq<Item>, k: nat)
    requires k < |ys|
    ensures multiset(ys[..k] + ys[k + 1..]) == multiset(ys) - multiset{ys[k]}
  {
    assert ys == ys[..k] + [ys[k]] + ys[k + 1..];
  }

  lemma SumWithoutOne(ys: seq<Item>, k: nat, ticker: string, v: Item -> real)
    requires k < |ys|
    ensures Sum(ys, ticker, v) == Sum(ys[..k] + ys[k + 1..], ticker, v) + Share(ys[k], ticker, v)
  {
    assert ys == ys[..k + 1] + ys[k + 1..] && DropLast(ys[..k + 1]) == ys[..k];
    SumOfParts(ys[..k + 1], ys[k + 1..], ticker, v);
    SumOfParts(ys[..k], ys[k + 1..], ticker, v);
  }

  lemma {:induction false} SumOfParts(xs: seq<Item>, ys: seq<Item>, ticker: string, v: Item -> real)
    ensures Sum(xs + ys, ticker, v) == Sum(xs, ticker, v) + Sum(ys, ticker, v)
  {
    if ys == [] {
      assert xs + ys == xs;
    } else {
      assert DropLast(xs + ys) == xs + DropLast(ys);
      SumOfParts(xs, DropLast(ys), ticker, v);
    }
  }

  /** Any permutation of the batch, repeated tickers included, leads to the same quantity and average of
    * every ticker. */
  lemma OrderDoesNotMatter(hs: Table, xs: seq<Item>, ys: seq<Item>, ticker: string)
    requires AllHeld(hs) && Positive(xs) && multiset(xs) == multiset(ys)
    ensures SamePosition(Row(MergedAll(hs, xs).0, ticker), Row(MergedAll(hs, ys).0, ticker))
  {
    assert forall x :: x in xs <==> x in multiset(xs);
    assert forall y :: y in ys <==> y in multiset(ys);
    BulkAddsUp(hs, xs, ticker);
    BulkAddsUp(hs, ys, ticker);
    SumIgnoresOrder(xs, ys, ticker, Amount);
    SumIgnoresOrder(xs, ys, ticker, Spent);
    AddsDecide(Row(hs, ticker), Row(MergedAll(hs, xs).0, ticker), Row(MergedAll(hs, ys).0, ticker),
               Sum(xs, ticker, Amount), Sum(xs, ticker, Spent));
  }

  /** A ticker's items count like one item of their total quantity at their weighted average. */
  lemma LikeOneCombinedItem(hs: Table, xs: seq<Item>, ticker: string, combined: Item, t: Tally)
    requires AllHeld(hs) && Positive(xs) && Mentions(xs, ticker)
    requires combined.ticker == ticker && Amount(combined) == Sum(xs, ticker, Amount) > 0.0
    requires Spent(combined) == Sum(xs, ticker, Spent)
    ensures SamePosition(Row(MergedAll(hs, xs).0, ticker), Row(Merged(hs, t, combined).0, ticker))
  {
    BulkAddsUp(hs, xs, ticker);
    ItemAdds(hs, t, combined, ticker);
    AddsDecide(Row(hs, ticker), Row(MergedAll(hs, xs).0, ticker), Row(Merged(hs, t, combined).0, ticker),
               Sum(xs, ticker, Amount), Sum(xs, ticker, Spent));
  }

  ghost predicate Between(lo: real, hi: real, quantity: real, cost: real) {
    lo * quantity <= cost <= hi * quantity
  }

  lemma AddBetween(lo: real, hi: real, q1: real, c1: real, q2: real, c2: real)
    requires Between(lo, hi, q1, c1) && Between(lo, hi, q2, c2)
    ensures Between(lo, hi, q1 + q2, c1 + c2)
  {}

  lemma PriceBetween(lo: real, hi: real, quantity: real, price: real)
    requires quantity > 0.0 && lo <= price <= hi
    ensures Between(lo, hi, quantity, quantity * price)
  {
    assert quantity * price - lo * quantity == quantity * (price - lo);
    assert hi * quantity - quantity * price == quantity * (hi - price);
  }

  lemma {:induction false} SumBetween(xs: seq<Item>, ticker: string, lo: real, hi: real)
    requires Positive(xs) && forall x <- xs :: x.ticker == ticker ==> lo <= x.avgPrice <= hi
    ensures Between(lo, hi, Sum(xs, ticker, Amount), Sum(xs, ticker, Spent))
  {
    if xs != [] {
      var x, before := Last(xs), DropLast(xs);
      assert x in xs && forall y <- before :: y in xs;
      SumBetween(before, ticker, lo, hi);
      ShareBetween(x, ticker, lo, hi);
      AddBetween(lo, hi, Sum(before, ticker, Amount), Sum(before, ticker, Spent),
                 Share(x, ticker, Amount), Share(x, ticker, Spent));
    }
  }

  lemma ShareBetween(x: Item, ticker: string, lo: real, hi: real)
    requires x.quantity > 0.0 && (x.ticker == ticker ==> lo <= x.avgPrice <= hi)
    ensures Between(lo, hi, Share(x, ticker, Amount), Share(x, ticker, Spent))
  {
    if x.ticker == ticker {
      PriceBetween(lo, hi, x.quantity, x.avgPrice);
    }
  }

  lemma BackBetween(lo: real, hi: real, q: real, a: real)
    requires q > 0.0 && Between(lo, hi, q, q * a)
    ensures lo <= a <= hi
  {
    assert q * (a - lo) >= 0.0 && q * (hi - a) >= 0.0;
  }

  /** The average stays between the smallest and the largest price that went into it. */
  lemma AverageStaysBetween(hs: Table, xs: seq<Item>, ticker: string, lo: real, hi: real)
    requires AllHeld(hs) && Positive(xs) && ticker in MergedAll(hs, xs).0
    requires ticker in hs ==> lo <= hs[ticker].avgPrice <= hi
    requires forall x <- xs :: x.ticker == ticker ==> lo <= x.avgPrice <= hi
    ensures lo <= MergedAll(hs, xs).0[ticker].avgPrice <= hi
  {
    BulkAddsUp(hs, xs, ticker);
    SumBetween(xs, ticker, lo, hi);
    AddsBetween(Row(hs, ticker), MergedAll(hs, xs).0[ticker], Sum(xs, ticker, Amount), Sum(xs, ticker, Spent), lo, hi);
  }

  lemma AddsBetween(before: Option<Holding>, after: Holding, quantity: real, cost: real, lo: real, hi: real)
    requires Held(before) && Adds(before, Some(after), quantity, cost) && Between(lo, hi, quantity, cost)
    requires before.Some? ==> lo <= before.value.avgPrice <= hi
    ensures lo <= after.avgPrice <= hi
  {
    if before.Some? {
      PriceBetween(lo, hi, before.value.quantity, before.value.avgPrice);
    }
    AddBetween(lo, hi, Quantity(before), Cost(before), quantity, cost);
    BackBetween(lo, hi, after.quantity, after.avgPrice);
  }
}
