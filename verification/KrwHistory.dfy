/** Daily asset value in won: domestic holdings as they are, overseas ones at the day's exchange rate
  * (analytics_history.py), over exact reals. */
module KrwHistory {
  import opened Prelude
  import opened Series
  import opened Tickers
  import opened Valuation
  import Fx = FxRates

  /** The total, and its domestic and overseas parts. */
  datatype KrwValue = KrwValue(total: real, domestic: real, overseas: real)

  type KrwPoint = Dated<KrwValue>

  /** A day's point, shown when the holdings are worth something together. */
  function PointOf(hs: seq<Holding>, closes: Closes, d: int, fx: real): seq<KrwPoint> {
    Shown(d, Held(hs, Domestic, closes), InKrw(Held(hs, Overseas, closes), fx))
  }

  function Shown(d: int, domestic: real, overseas: real): seq<KrwPoint> {
    if domestic + overseas > 0.0 then [Dated(d, KrwValue(domestic + overseas, domestic, overseas))] else []
  }

  /** The point of the k-th day, at the rate carried forward to it. */
  function DayPoint(hs: seq<Holding>, snaps: seq<Snapshot>, days: seq<int>, k: nat, rates: Fx.Rates, fallback: real): seq<KrwPoint>
    requires k < |days|
  {
    PointOf(hs, Effective(snaps, days[k]), days[k], Fx.RateUpTo(rates, days, k + 1, fallback))
  }

  function Parts(hs: seq<Holding>, snaps: seq<Snapshot>, days: seq<int>, rates: Fx.Rates, fallback: real): seq<seq<KrwPoint>> {
    seq(|days|, k requires 0 <= k < |days| => DayPoint(hs, snaps, days, k, rates, fallback))
  }

  function History(hs: seq<Holding>, snaps: seq<Snapshot>, rates: Fx.Rates, fallback: real): seq<KrwPoint> {
    Joined(Parts(hs, snaps, Days(snaps), rates, fallback))
  }

  /** The tickers of one side, still each once. */
  method OfSide(tickers: seq<string>, side: Side) returns (ts: seq<string>)
    requires Distinct(tickers)
    ensures Distinct(ts) && forall t :: t in ts <==> t in tickers && On(side, t)
  {
    ts := [];
    for i := 0 to |tickers|
      invariant Distinct(ts) && forall t :: t in ts <==> t in tickers[..i] && On(side, t)
    {
      if On(side, tickers[i]) {
        ts := ts + [tickers[i]];
      }
      assert tickers[..i + 1] == tickers[..i] + [tickers[i]];
    }
    assert tickers[..|tickers|] == tickers;
  }

  /** The body of the loop: the two sums of a day, and its point. */
  method PointOfDay(hs: seq<Holding>, tickers: seq<string>, qty: Closes, effective: Closes, d: int, fxRate: real)
    returns (points: seq<KrwPoint>)
    requires qty == Quantities(hs) && Distinct(tickers) && forall h <- hs :: h.ticker in tickers
    ensures points == PointOf(hs, effective, d, fxRate)
  {
    var domestic := OfSide(tickers, Domestic);
    var overseas := OfSide(tickers, Overseas);
    AggregationLosesNothing(hs, domestic, Domestic, effective);
    AggregationLosesNothing(hs, overseas, Overseas, effective);
    var domesticValue := SumOver(domestic, qty, effective);
    var overseasValueKrw := InKrw(SumOver(overseas, qty, effective), fxRate);
    var total := domesticValue + overseasValueKrw;
    points := if total > 0.0 then [Dated(d, KrwValue(total, domesticValue, overseasValueKrw))] else [];
  }

  /** One pass of the loop: the closes seen so far are the day's, and so is the filled-in rate. */
  lemma OneDay(hs: seq<Holding>, snaps: seq<Snapshot>, k: nat, rates: Fx.Rates, fallback: real, filled: Fx.Rates, lastClose: Closes)
    requires InOrder(snaps) && k < |Days(snaps)| && filled == Fx.Filled(rates, Days(snaps), |Days(snaps)|, fallback)
    requires lastClose == LastUpTo(snaps, k)
    ensures var d := Days(snaps)[k];
            && lastClose + OnDate(snaps, d) == LastUpTo(snaps, k + 1)
            && FirstCloses(snaps) + LastUpTo(snaps, k + 1) == Effective(snaps, d)
            && d in filled
            && DayPoint(hs, snaps, Days(snaps), k, rates, fallback) == PointOf(hs, Effective(snaps, d), d, filled[d])
  {
    DaysAreListed(snaps);
    NextDay(snaps, k);
    Fx.FilledMeans(rates, Days(snaps), fallback);
    assert Fx.FilledAt(filled, rates, Days(snaps), k, fallback);
  }

  method KrwAssetHistory(hs: seq<Holding>, snaps: seq<Snapshot>, fxSnaps: seq<Fx.FxSnapshot>, fallback: real)
    returns (history: seq<KrwPoint>)
    requires InOrder(snaps)
    ensures history == History(hs, snaps, Fx.RatesByDate(fxSnaps), fallback)
  {
    var qty, tickers := QuantityByTicker(hs);
    var byDate, days := ClosesByDay(snaps);
    var filledFx := Fx.ForwardFillRates(fxSnaps, days, fallback);
    var firstClose := FirstCloseByTicker(snaps);
    var lastClose: Closes := map[];
    history := [];
    ghost var rates := Fx.RatesByDate(fxSnaps);
    ghost var parts := Parts(hs, snaps, days, rates, fallback);
    for k := 0 to |days|
      invariant lastClose == LastUpTo(snaps, k)
      invariant history == Joined(parts[..k])
    {
      OneDay(hs, snaps, k, rates, fallback, filledFx, lastClose);
      JoinOneMore(parts, k);
      lastClose := lastClose + byDate[days[k]];
      var points := PointOfDay(hs, tickers, qty, firstClose + lastClose, days[k], filledFx[days[k]]);
      history := history + points;
    }
    assert parts[..|days|] == parts;
  }

  // ----- What a point says -----

  /** The holdings of one side that have a close, each in won by itself. */
  ghost function HeldKrw(hs: seq<Holding>, side: Side, closes: Closes, fx: real): real {
    if hs == [] then 0.0
    else
      var h := Last(hs);
      HeldKrw(DropLast(hs), side, closes, fx) +
      if On(side, h.ticker) && h.ticker in closes then h.quantity * closes[h.ticker] * (if IsDomestic(h.ticker) then 1.0 else fx) else 0.0
  }

  lemma KrwAdds(a: real, b: real, fx: real)
    ensures InKrw(a + b, fx) == InKrw(a, fx) + InKrw(b, fx)
  {
  }

  /** Splitting the holdings into two sums and converting one of them loses nothing. */
  lemma {:induction false} SidesAddUp(hs: seq<Holding>, closes: Closes, fx: real)
    ensures Held(hs, Domestic, closes) == HeldKrw(hs, Domestic, closes, fx)
    ensures InKrw(Held(hs, Overseas, closes), fx) == HeldKrw(hs, Overseas, closes, fx)
    ensures HeldKrw(hs, Domestic, closes, fx) + HeldKrw(hs, Overseas, closes, fx) == HeldKrw(hs, All, closes, fx)
  {
    if hs == [] {
      assert InKrw(0.0, fx) == 0.0;
    } else {
      SidesAddUp(DropLast(hs), closes, fx);
      KrwAdds(Held(DropLast(hs), Overseas, closes), HoldingWorth(Last(hs), Overseas, closes), fx);
      KrwAdds(0.0, 0.0, fx);
    }
  }

  /** The history has, in date order, a point for each snapshot day, and no other, on which the holdings, each
    * converted by itself at the rate carried forward to that day, are worth more than nothing. */
  lemma HistoryMeans(hs: seq<Holding>, snaps: seq<Snapshot>, rates: Fx.Rates, fallback: real)
    requires InOrder(snaps)
    ensures RisingPoints(History(hs, snaps, rates, fallback))
    ensures forall p :: p in History(hs, snaps, rates, fallback) <==>
              exists k :: 0 <= k < |Days(snaps)| && p.date == Days(snaps)[k] &&
                Says(p, hs, Effective(snaps, p.date), Fx.RateUpTo(rates, Days(snaps), k + 1, fallback))
  {
    var days := Days(snaps);
    var parts := Parts(hs, snaps, days, rates, fallback);
    DaysAreListed(snaps);
    JoinedMeans(days, parts);
    forall p: KrwPoint, k | 0 <= k < |days|
      ensures p in parts[k] <==> p.date == days[k] && Says(p, hs, Effective(snaps, p.date), Fx.RateUpTo(rates, days, k + 1, fallback))
    {
      PointMeans(hs, Effective(snaps, days[k]), days[k], Fx.RateUpTo(rates, days, k + 1, fallback), p);
    }
  }

  ghost predicate Says(p: KrwPoint, hs: seq<Holding>, closes: Closes, fx: real) {
    && p.value.total == HeldKrw(hs, All, closes, fx) > 0.0
    && p.value.domestic == HeldKrw(hs, Domestic, closes, fx)
    && p.value.overseas == HeldKrw(hs, Overseas, closes, fx)
  }

  lemma PointMeans(hs: seq<Holding>, closes: Closes, d: int, fx: real, p: KrwPoint)
    ensures p in PointOf(hs, closes, d, fx) <==> p.date == d && Says(p, hs, closes, fx)
  {
    SidesAddUp(hs, closes, fx);
  }
}
