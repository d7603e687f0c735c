/** The daily values behind the metrics (analytics_metrics.py): the valuation loop of the history, but summed
  * over one ticker per holding, repeated ones included. */
module MetricsSeries {
  import opened Prelude
  import opened Series
  import opened Valuation
  import opened Drawdown

  /** The metrics sum over one ticker per holding, without removing repeated ones. */
  function TickersAsListed(hs: seq<Holding>): seq<string> {
    if hs == [] then [] else TickersAsListed(DropLast(hs)) + [Last(hs).ticker]
  }

  function MetricsValue(hs: seq<Holding>, closes: Closes): real {
    SumOver(TickersAsListed(hs), Quantities(hs), closes)
  }

  /** No two holdings share a ticker that has a close. */
  predicate PricedOnce(hs: seq<Holding>, closes: Closes) {
    forall i, j | 0 <= i < j < |hs| && hs[i].ticker == hs[j].ticker :: hs[i].ticker !in closes
  }

  /** Worth of the listed tickers at the quantities of qty, less that of the holdings by themselves. */
  lemma {:induction false} Excess(hs: seq<Holding>, n: nat, closes: Closes)
    requires n <= |hs| && (forall h <- hs :: h.quantity > 0.0) && (forall t <- closes :: closes[t] > 0.0)
    ensures SumOver(TickersAsListed(hs[..n]), Quantities(hs), closes) >= Held(hs[..n], All, closes)
    ensures SumOver(TickersAsListed(hs[..n]), Quantities(hs), closes) == Held(hs[..n], All, closes) <==>
              forall i | 0 <= i < n && hs[i].ticker in closes :: Get(Quantities(hs), hs[i].ticker) == hs[i].quantity
  {
    if n > 0 {
      Excess(hs, n - 1, closes);
      assert DropLast(hs[..n]) == hs[..n - 1];
      var h := hs[n - 1];
      QuantityAtLeast(hs, n - 1);
      if h.ticker in closes {
        WorthGrows(h.quantity, Get(Quantities(hs), h.ticker), closes[h.ticker]);
      }
      assert DropLast(TickersAsListed(hs[..n])) == TickersAsListed(hs[..n - 1]);
    }
  }

  lemma WorthGrows(a: real, b: real, close: real)
    requires a <= b && close > 0.0
    ensures Worth(a, close) <= Worth(b, close)
    ensures Worth(a, close) == Worth(b, close) <==> a == b
  {
    assert (b - a) * close >= 0.0;
  }

  lemma {:induction false} QuantityAtLeast(hs: seq<Holding>, k: nat)
    requires k < |hs| && forall h <- hs :: h.quantity > 0.0
    ensures Get(Quantities(hs), hs[k].ticker) >= hs[k].quantity
    ensures Get(Quantities(hs), hs[k].ticker) == hs[k].quantity <==>
              forall i | 0 <= i < |hs| && i != k :: hs[i].ticker != hs[k].ticker
  {
    QuantityRange(hs, hs[k].ticker);
    var rest, n := DropLast(hs), |hs| - 1;
    assert hs[n] in hs;
    assert forall h <- rest :: h in hs;
    if k < n {
      QuantityAtLeast(rest, k);
      assert forall i | 0 <= i < n :: rest[i] == hs[i];
    } else {
      QuantityRange(rest, hs[k].ticker);
    }
  }

  lemma {:induction false} QuantityRange(hs: seq<Holding>, t: string)
    requires forall h <- hs :: h.quantity > 0.0
    ensures Get(Quantities(hs), t) >= 0.0
    ensures Get(Quantities(hs), t) == 0.0 <==> forall i | 0 <= i < |hs| :: hs[i].ticker != t
  {
    if hs != [] {
      assert Last(hs) in hs;
      assert forall h <- DropLast(hs) :: h in hs;
      QuantityRange(DropLast(hs), t);
      assert forall i | 0 <= i < |hs| - 1 :: hs[i] == DropLast(hs)[i];
    }
  }

  /** With positive quantities and closes the metrics value is the history's value exactly when no priced
    * ticker is held twice; otherwise it counts such a ticker's whole quantity once per holding. */
  lemma MetricsAgreeIffPricedOnce(hs: seq<Holding>, closes: Closes)
    requires (forall h <- hs :: h.quantity > 0.0) && (forall t <- closes :: closes[t] > 0.0)
    ensures MetricsValue(hs, closes) >= Held(hs, All, closes)
    ensures MetricsValue(hs, closes) == Held(hs, All, closes) <==> PricedOnce(hs, closes)
  {
    Excess(hs, |hs|, closes);
    assert hs[..|hs|] == hs;
    forall i | 0 <= i < |hs|
      ensures Get(Quantities(hs), hs[i].ticker) == hs[i].quantity <==>
                forall j | 0 <= j < |hs| && j != i :: hs[j].ticker != hs[i].ticker
    {
      QuantityAtLeast(hs, i);
    }
  }

  // ----- The series -----

  function MetricsPointOf(hs: seq<Holding>, snaps: seq<Snapshot>, d: int): seq<Point> {
    Shown(d, MetricsValue(hs, Effective(snaps, d)))
  }

  function MetricsParts(hs: seq<Holding>, snaps: seq<Snapshot>, days: seq<int>): seq<seq<Point>> {
    seq(|days|, k requires 0 <= k < |days| => MetricsPointOf(hs, snaps, days[k]))
  }

  function MetricsHistory(hs: seq<Holding>, snaps: seq<Snapshot>): seq<Point> {
    Joined(MetricsParts(hs, snaps, Days(snaps)))
  }

  /** One pass of the loop. */
  lemma OneMetricsDay(hs: seq<Holding>, snaps: seq<Snapshot>, k: nat, lastClose: Closes)
    requires InOrder(snaps) && k < |Days(snaps)| && lastClose == LastUpTo(snaps, k)
    ensures var d := Days(snaps)[k];
            && lastClose + OnDate(snaps, d) == LastUpTo(snaps, k + 1)
            && FirstCloses(snaps) + LastUpTo(snaps, k + 1) == Effective(snaps, d)
            && Joined(MetricsParts(hs, snaps, Days(snaps))[..k + 1]) ==
                 Joined(MetricsParts(hs, snaps, Days(snaps))[..k]) + Shown(d, MetricsValue(hs, Effective(snaps, d)))
  {
    JoinOneMore(MetricsParts(hs, snaps, Days(snaps)), k);
    NextDay(snaps, k);
  }

  method PortfolioDateValues(hs: seq<Holding>, snaps: seq<Snapshot>) returns (values: seq<Point>)
    requires InOrder(snaps)
    ensures values == MetricsHistory(hs, snaps)
  {
    var tickers := TickersAsListed(hs);
    var holdingQty, _ := QuantityByTicker(hs);
    var byDate, sortedDates := ClosesByDay(snaps);
    var firstClose := FirstCloseByTicker(snaps);
    var lastClose: Closes := map[];
    values := [];
    ghost var parts := MetricsParts(hs, snaps, sortedDates);
    for k := 0 to |sortedDates|
      invariant lastClose == LastUpTo(snaps, k)
      invariant values == Joined(parts[..k])
    {
      OneMetricsDay(hs, snaps, k, lastClose);
      lastClose := lastClose + byDate[sortedDates[k]];
      var effective := firstClose + lastClose;
      var value := SumOver(tickers, holdingQty, effective);
      if value > 0.0 {
        values := values + [Dated(sortedDates[k], value)];
      }
    }
    assert parts[..|sortedDates|] == parts;
  }

  predicate AllPositive(hs: seq<Holding>, snaps: seq<Snapshot>) {
    (forall h <- hs :: h.quantity > 0.0) && forall s <- snaps :: s.close > 0.0
  }

  /** Every ticker with a snapshot is priced on every day, at a positive close. */
  lemma {:induction false} SamePricedEveryDay(snaps: seq<Snapshot>, d: int)
    requires forall s <- snaps :: s.close > 0.0
    ensures LastCloses(snaps, d).Keys <= FirstCloses(snaps).Keys
    ensures forall t <- LastCloses(snaps, d) :: LastCloses(snaps, d)[t] > 0.0
    ensures forall t <- FirstCloses(snaps) :: FirstCloses(snaps)[t] > 0.0
  {
    if snaps != [] {
      assert Last(snaps) in snaps && forall s <- DropLast(snaps) :: s in snaps;
      SamePricedEveryDay(DropLast(snaps), d);
    }
  }

  lemma DayAgreesIff(hs: seq<Holding>, snaps: seq<Snapshot>, d: int)
    requires AllPositive(hs, snaps)
    ensures MetricsPointOf(hs, snaps, d) == PointOf(hs, snaps, d) <==> PricedOnce(hs, FirstCloses(snaps))
  {
    var closes := Effective(snaps, d);
    SamePricedEveryDay(snaps, d);
    assert forall t :: t in closes <==> t in FirstCloses(snaps);
    MetricsAgreeIffPricedOnce(hs, closes);
    HeldIsNotNegative(hs, closes);
    ShownDecides(d, MetricsValue(hs, closes), Held(hs, All, closes));
  }

  lemma ShownDecides(d: int, a: real, b: real)
    requires a >= b >= 0.0
    ensures Shown(d, a) == Shown(d, b) <==> a == b
  {
    if a > 0.0 {
      assert Shown(d, a)[0].value == a;
    }
  }

  lemma {:induction false} HeldIsNotNegative(hs: seq<Holding>, closes: Closes)
    requires (forall h <- hs :: h.quantity > 0.0) && forall t <- closes :: closes[t] > 0.0
    ensures Held(hs, All, closes) >= 0.0
  {
    if hs != [] {
      assert Last(hs) in hs && forall h <- DropLast(hs) :: h in hs;
      HeldIsNotNegative(DropLast(hs), closes);
      if Last(hs).ticker in closes {
        WorthGrows(0.0, Last(hs).quantity, closes[Last(hs).ticker]);
        assert Worth(0.0, closes[Last(hs).ticker]) == 0.0;
      }
    }
  }

  /** With positive quantities and closes the metrics use the series that the history shows if and only if no
    * ticker with a snapshot is held twice. */
  lemma SeriesAgreeIffPricedOnce(hs: seq<Holding>, snaps: seq<Snapshot>)
    requires InOrder(snaps) && AllPositive(hs, snaps)
    ensures MetricsHistory(hs, snaps) == History(hs, snaps) <==> PricedOnce(hs, FirstCloses(snaps))
  {
    var days := Days(snaps);
    forall d {
      DayAgreesIff(hs, snaps, d);
    }
    if PricedOnce(hs, FirstCloses(snaps)) {
      assert MetricsParts(hs, snaps, days) == Parts(hs, snaps, days);
    } else {
      SomeDayDiffers(hs, snaps);
    }
  }

  lemma SomeDayDiffers(hs: seq<Holding>, snaps: seq<Snapshot>)
    requires InOrder(snaps) && AllPositive(hs, snaps) && !PricedOnce(hs, FirstCloses(snaps))
    ensures MetricsHistory(hs, snaps) != History(hs, snaps)
  {
    var days := Days(snaps);
    assert snaps != [];
    SomeDayListed(snaps);
    DaysAreListed(snaps);
    DayAgreesIff(hs, snaps, days[0]);
    JoinedPartsDecide(days, MetricsParts(hs, snaps, days), Parts(hs, snaps, days), 0);
  }

  /** Series whose k-th days differ are different. */
  lemma JoinedPartsDecide(days: seq<int>, a: seq<seq<Point>>, b: seq<seq<Point>>, k: nat)
    requires Rising(days) && Daily(days, a) && Daily(days, b) && k < |days| && a[k] != b[k]
    ensures Joined(a) != Joined(b)
  {
    JoinedMeans(days, a);
    JoinedMeans(days, b);
    assert forall p: Point :: p.date == days[k] ==> (p in Joined(a) <==> p in a[k]) && (p in Joined(b) <==> p in b[k]);
    if a[k] == [] {
      assert b[k][0] in b[k];
    } else {
      assert a[k][0] in a[k];
      if b[k] != [] {
        assert b[k] == [b[k][0]] && a[k] == [a[k][0]];
      }
    }
  }

  // ----- The drawdown reported -----

  function Values(ps: seq<Point>): seq<real> {
    seq(|ps|, i requires 0 <= i < |ps| => ps[i].value)
  }

  /** The drawdown of the series followed by the current value; none without a series. */
  function ReportedDrawdown(ps: seq<Point>, current: real): real {
    if ps == [] then 0.0 else MaxDrawdown(Values(ps) + [current])
  }

  /** What the holdings are worth at current prices, each counted once. */
  function CurrentValue(hs: seq<Holding>, prices: Closes): real
    requires forall h <- hs :: h.ticker in prices
  {
    if hs == [] then 0.0 else CurrentValue(DropLast(hs), prices) + Worth(Last(hs).quantity, prices[Last(hs).ticker])
  }

  /** Closes that never move, of all held tickers, at the current prices. */
  predicate Still(hs: seq<Holding>, snaps: seq<Snapshot>, prices: Closes) {
    && (forall s <- snaps :: s.ticker in prices && s.close == prices[s.ticker])
    && (forall h <- hs :: h.ticker in FirstCloses(snaps) && h.ticker in prices)
  }

  lemma {:induction false} StillCloses(snaps: seq<Snapshot>, prices: Closes, d: int)
    requires forall s <- snaps :: s.ticker in prices && s.close == prices[s.ticker]
    ensures forall t <- FirstCloses(snaps) :: t in prices && FirstCloses(snaps)[t] == prices[t]
    ensures forall t <- LastCloses(snaps, d) :: t in FirstCloses(snaps) && LastCloses(snaps, d)[t] == prices[t]
  {
    if snaps != [] {
      assert Last(snaps) in snaps && forall s <- DropLast(snaps) :: s in snaps;
      StillCloses(DropLast(snaps), prices, d);
    }
  }

  lemma {:induction false} CurrentIsHeld(hs: seq<Holding>, prices: Closes, closes: Closes)
    requires forall h <- hs :: h.ticker in prices && h.ticker in closes && closes[h.ticker] == prices[h.ticker]
    ensures CurrentValue(hs, prices) == Held(hs, All, closes)
  {
    if hs != [] {
      assert Last(hs) in hs && forall h <- DropLast(hs) :: h in hs;
      CurrentIsHeld(DropLast(hs), prices, closes);
    }
  }

  lemma {:induction false} StillPass(values: seq<real>, v: real, n: nat)
    requires 0 < |values| && n <= |values| && v > 0.0 && forall i | 0 <= i < n || i == 0 :: values[i] == v
    ensures Pass(values, n) == Running(v, 0.0)
  {
    if n > 0 {
      StillPass(values, v, n - 1);
      assert Pass(values, n) == Drawdown.Step(Pass(values, n - 1), values[n - 1]);
      assert Below(v, v) == 0.0;
    }
  }

  lemma FallAtTheEnd(values: seq<real>, v: real, current: real)
    requires values != [] && v > 0.0 && 0.0 <= current <= v && forall i | 0 <= i < |values| :: values[i] == v
    ensures MaxDrawdown(values + [current]) == Below(v, current) * 100.0
    ensures Below(v, current) == 0.0 <==> current == v
  {
    var all := values + [current];
    StillPass(all, v, |values|);
    assert Pass(all, |all|) == Drawdown.Step(Pass(all, |values|), current);
    assert Below(v, current) * v == v - current;
    FallNotNegative(v, current);
  }

  lemma FallNotNegative(v: real, current: real)
    requires v > 0.0 && 0.0 <= current <= v
    ensures Below(v, current) >= 0.0
  {
    assert Below(v, current) * v == v - current;
  }

  lemma StillDay(hs: seq<Holding>, snaps: seq<Snapshot>, prices: Closes, d: int)
    requires forall s <- snaps :: s.ticker in prices && s.close == prices[s.ticker]
    ensures MetricsPointOf(hs, snaps, d) == Shown(d, MetricsValue(hs, FirstCloses(snaps)))
  {
    StillCloses(snaps, prices, d);
    assert Effective(snaps, d) == FirstCloses(snaps);
  }

  lemma StillPoints(days: seq<int>, parts: seq<seq<Point>>, v: real)
    requires Rising(days) && |days| == |parts| > 0 && v > 0.0 && forall k | 0 <= k < |days| :: parts[k] == Shown(days[k], v)
    ensures Joined(parts) != [] && forall i | 0 <= i < |Joined(parts)| :: Joined(parts)[i].value == v
  {
    var ps := Joined(parts);
    JoinedMeans(days, parts);
    assert Dated(days[0], v) in parts[0];
    forall i | 0 <= i < |ps|
      ensures ps[i].value == v
    {
      assert ps[i] in ps;
      var k :| 0 <= k < |days| && ps[i] in parts[k];
    }
  }

  lemma StillWorth(hs: seq<Holding>, snaps: seq<Snapshot>, prices: Closes)
    requires AllPositive(hs, snaps) && Still(hs, snaps, prices) && hs != []
    ensures var v := MetricsValue(hs, FirstCloses(snaps));
            v >= CurrentValue(hs, prices) > 0.0 && (v == CurrentValue(hs, prices) <==> PricedOnce(hs, FirstCloses(snaps)))
  {
    var closes := FirstCloses(snaps);
    StillCloses(snaps, prices, 0);
    SamePricedEveryDay(snaps, 0);
    CurrentIsHeld(hs, prices, closes);
    MetricsAgreeIffPricedOnce(hs, closes);
    SomethingHeld(hs, closes);
  }

  lemma StillSeries(hs: seq<Holding>, snaps: seq<Snapshot>, prices: Closes)
    requires InOrder(snaps) && AllPositive(hs, snaps) && Still(hs, snaps, prices) && hs != []
    ensures var ps, v := MetricsHistory(hs, snaps), MetricsValue(hs, FirstCloses(snaps));
            ps != [] && forall i | 0 <= i < |ps| :: ps[i].value == v
  {
    var days, v := Days(snaps), MetricsValue(hs, FirstCloses(snaps));
    var parts := MetricsParts(hs, snaps, days);
    StillWorth(hs, snaps, prices);
    assert hs[0] in hs && snaps != [];
    SomeDayListed(snaps);
    DaysAreListed(snaps);
    forall k | 0 <= k < |days|
      ensures parts[k] == Shown(days[k], v)
    {
      StillDay(hs, snaps, prices, days[k]);
    }
    StillPoints(days, parts, v);
  }

  lemma SomethingHeld(hs: seq<Holding>, closes: Closes)
    requires hs != [] && (forall h <- hs :: h.quantity > 0.0 && h.ticker in closes) && forall t <- closes :: closes[t] > 0.0
    ensures Held(hs, All, closes) > 0.0
  {
    assert Last(hs) in hs && forall h <- DropLast(hs) :: h in hs;
    HeldIsNotNegative(DropLast(hs), closes);
    WorthGrows(0.0, Last(hs).quantity, closes[Last(hs).ticker]);
    assert Worth(0.0, closes[Last(hs).ticker]) == 0.0;
  }

  /** The series counts a repeated ticker more than once, the current value does not. So with prices that never
    * move the drawdown reported is nothing if and only if no ticker is held twice; otherwise it is the share by
    * which the series overstates the holdings. */
  lemma StillDrawdownIffPricedOnce(hs: seq<Holding>, snaps: seq<Snapshot>, prices: Closes)
    requires InOrder(snaps) && AllPositive(hs, snaps) && Still(hs, snaps, prices) && hs != []
    ensures var reported := ReportedDrawdown(MetricsHistory(hs, snaps), CurrentValue(hs, prices));
            && reported == Below(MetricsValue(hs, FirstCloses(snaps)), CurrentValue(hs, prices)) * 100.0
            && (reported == 0.0 <==> PricedOnce(hs, FirstCloses(snaps)))
  {
    var ps, v, current := MetricsHistory(hs, snaps), MetricsValue(hs, FirstCloses(snaps)), CurrentValue(hs, prices);
    StillWorth(hs, snaps, prices);
    StillSeries(hs, snaps, prices);
    FallAtTheEnd(Values(ps), v, current);
  }
}
