/** How far the stored average drifts when the database rounds it to four decimals (holding.py keeps
  * avg_price as Numeric(18,4)) while fills are averaged in full precision (order_settlement.py). */
module CostRounding {
  import opened Prelude
  import opened Holdings

  const HALF_UNIT := 0.00005

  /** To the nearest multiple of 0.0001, halves upwards. */
  function Rounded(x: real): real {
    (x * 10000.0 + 0.5).Floor as real / 10000.0
  }

  lemma RoundedIsClose(x: real)
    ensures Abs(Rounded(x) - x) <= HALF_UNIT
  {
    var y := x * 10000.0 + 0.5;
    assert y - 1.0 < y.Floor as real <= y;
  }

  /** A stored average is not changed by storing it again. */
  lemma RoundedTwice(x: real)
    ensures Rounded(Rounded(x)) == Rounded(x)
  {
    var k := (x * 10000.0 + 0.5).Floor;
    assert Rounded(x) * 10000.0 + 0.5 == k as real + 0.5;
    assert (k as real + 0.5).Floor == k;
  }

  /** A fill of the row, or the moment the row is written to the database. */
  datatype Op = Trade(fill: Fill) | Store

  function ExactRun(h: Option<Holding>, ops: seq<Op>): Option<Holding> {
    if ops == [] then h
    else
      var before := ExactRun(h, DropLast(ops));
      if Last(ops).Store? then before else FilledRow(before, Last(ops).fill)
  }

  function StoredRun(h: Option<Holding>, ops: seq<Op>): Option<Holding> {
    if ops == [] then h
    else
      var before := StoredRun(h, DropLast(ops));
      match Last(ops)
      case Trade(f) => FilledRow(before, f)
      case Store =>
        if before.None? then None else Some(before.value.(avgPrice := Rounded(before.value.avgPrice)))
  }

  function Buys(ops: seq<Op>): nat {
    if ops == [] then 0 else Buys(DropLast(ops)) + if IsBuy(Last(ops)) then 1 else 0
  }

  predicate IsBuy(op: Op) {
    op.Trade? && op.fill.side.Buy?
  }

  /** Whether a buy has come since the row was last stored. */
  predicate Unstored(ops: seq<Op>) {
    ops != [] && !Last(ops).Store? && (IsBuy(Last(ops)) || Unstored(DropLast(ops)))
  }

  /** Stores that have something to round: those after a buy. */
  function RoundingStores(ops: seq<Op>): nat {
    if ops == [] then 0
    else RoundingStores(DropLast(ops)) + if Last(ops).Store? && Unstored(DropLast(ops)) then 1 else 0
  }

  lemma {:induction false} RoundingStoresFollowBuys(ops: seq<Op>)
    ensures RoundingStores(ops) + (if Unstored(ops) then 1 else 0) <= Buys(ops)
  {
    if ops != [] {
      RoundingStoresFollowBuys(DropLast(ops));
    }
  }

  ghost predicate Near(a: Option<Holding>, b: Option<Holding>, n: nat) {
    && (a.Some? <==> b.Some?)
    && Held(a)
    && (a.Some? ==> a.value.quantity == b.value.quantity && Abs(a.value.avgPrice - b.value.avgPrice) <= n as real * HALF_UNIT)
  }

  /** Averaging with the same buy brings two averages closer together. */
  lemma AveragingContracts(a: Holding, b: Holding, quantity: real, price: real)
    requires a.quantity == b.quantity > 0.0 && quantity > 0.0
    ensures Abs(AverageAfterBuy(a, quantity, price) - AverageAfterBuy(b, quantity, price)) <= Abs(a.avgPrice - b.avgPrice)
  {
    var q, total := a.quantity, a.quantity + quantity;
    var x, y := AverageAfterBuy(a, quantity, price), AverageAfterBuy(b, quantity, price);
    DivideBack(q * a.avgPrice + quantity * price, total);
    DivideBack(q * b.avgPrice + quantity * price, total);
    Contraction(q, quantity, a.avgPrice - b.avgPrice, x - y);
  }

  lemma Contraction(q: real, more: real, d: real, e: real)
    requires q > 0.0 && more > 0.0 && (q + more) * e == q * d
    ensures Abs(e) <= Abs(d)
  {
    assert q * (d - e) == more * e;
    if e > 0.0 {
      assert more * e > 0.0;
      assert d - e > 0.0 by { SamePositive(q, d - e); }
    } else if e < 0.0 {
      assert more * -e > 0.0;
      assert e - d > 0.0 by { SamePositive(q, e - d); }
    }
  }

  lemma SamePositive(q: real, x: real)
    requires q > 0.0 && q * x > 0.0
    ensures x > 0.0
  {}

  lemma OneOp(a: Option<Holding>, b: Option<Holding>, f: Fill, n: nat)
    requires Near(a, b, n) && f.quantity > 0.0
    ensures Near(FilledRow(a, f), FilledRow(b, f), n)
  {
    if f.side.Buy? && a.Some? {
      AveragingContracts(a.value, b.value, f.quantity, f.price);
    }
  }

  lemma OneStore(a: Holding, b: Holding, n: nat)
    requires Abs(a.avgPrice - b.avgPrice) <= n as real * HALF_UNIT
    ensures Abs(Rounded(a.avgPrice) - b.avgPrice) <= (n + 1) as real * HALF_UNIT
  {
    RoundedIsClose(a.avgPrice);
  }

  /** The average as the database keeps it. */
  predicate IsStored(h: Option<Holding>) {
    h.Some? ==> Rounded(h.value.avgPrice) == h.value.avgPrice
  }

  lemma {:induction false} DriftByStores(h: Option<Holding>, ops: seq<Op>)
    requires Held(h) && IsStored(h) && forall op <- ops :: op.Trade? ==> op.fill.quantity > 0.0
    ensures Near(StoredRun(h, ops), ExactRun(h, ops), RoundingStores(ops))
    ensures !Unstored(ops) ==> IsStored(StoredRun(h, ops))
  {
    if ops != [] {
      var before, op := DropLast(ops), Last(ops);
      assert op in ops && forall x <- before :: x in ops;
      DriftByStores(h, before);
      var a, b := StoredRun(h, before), ExactRun(h, before);
      match op {
        case Trade(f) => OneOp(a, b, f, RoundingStores(before));
        case Store =>
          if a.Some? {
            RoundedTwice(a.value.avgPrice);
            OneStore(a.value, b.value, RoundingStores(before));
          }
      }
    }
  }

  lemma MoreDrift(a: Option<Holding>, b: Option<Holding>, n: nat, m: nat)
    requires Near(a, b, n) && n <= m
    ensures Near(a, b, m)
  {
    assert n as real * HALF_UNIT <= m as real * HALF_UNIT;
  }

  /** After n buys with any sells between, and the row stored at any moments: the same quantity as in the
    * unrounded run, and an average within n * 0.00005 of it. */
  lemma DriftIsBounded(h: Option<Holding>, ops: seq<Op>)
    requires Held(h) && IsStored(h) && forall op <- ops :: op.Trade? ==> op.fill.quantity > 0.0
    ensures Near(StoredRun(h, ops), ExactRun(h, ops), Buys(ops))
  {
    DriftByStores(h, ops);
    RoundingStoresFollowBuys(ops);
    MoreDrift(StoredRun(h, ops), ExactRun(h, ops), RoundingStores(ops), Buys(ops));
  }
}
