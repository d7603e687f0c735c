/** Daily portfolio value from price snapshots (analytics_history.py, and the same loops in
  * analytics_metrics.py), over exact reals. Dates are day numbers. */
module Valuation {
  import opened Prelude
  import opened Series
  import opened Tickers

  datatype Holding = Holding(ticker: string, quantity: real)

  datatype Snapshot = Snapshot(ticker: string, date: int, close: real)

  type Closes = map<string, real>

  type Point = Dated<real>

  /** The query orders snapshots by date. */
  predicate InOrder(snaps: seq<Snapshot>) {
    forall i, j | 0 <= i < j < |snaps| :: snaps[i].date <= snaps[j].date
  }

  // ----- Snapshots, as the loops take them in -----

  /** The closes of one day. */
  function OnDate(snaps: seq<Snapshot>, d: int): Closes {
    if snaps == [] then map[]
    else
      var m, s := OnDate(DropLast(snaps), d), Last(snaps);
      if s.date == d then m[s.ticker := s.close] else m
  }

  /** Every ticker's first close. */
  function FirstCloses(snaps: seq<Snapshot>): Closes {
    if snaps == [] then map[]
    else
      var m, s := FirstCloses(DropLast(snaps)), Last(snaps);
      if s.ticker in m then m else m[s.ticker := s.close]
  }

  /** Every ticker's last close up to a day. */
  function LastCloses(snaps: seq<Snapshot>, d: int): Closes {
    if snaps == [] then map[]
    else
      var m, s := LastCloses(DropLast(snaps), d), Last(snaps);
      if s.date <= d then m[s.ticker := s.close] else m
  }

  function Dates(snaps: seq<Snapshot>): seq<int> {
    if snaps == [] then []
    else
      var ds, s := Dates(DropLast(snaps)), Last(snaps);
      if s.date in ds then ds else ds + [s.date]
  }

  function Inserted(d: int, ds: seq<int>): seq<int> {
    if ds == [] || Last(ds) <= d then ds + [d] else Inserted(d, DropLast(ds)) + [Last(ds)]
  }

  function Sorted(ds: seq<int>): seq<int> {
    if ds == [] then [] else Inserted(Last(ds), Sorted(DropLast(ds)))
  }

  method CloseByDate(snaps: seq<Snapshot>) returns (byDate: map<int, Closes>, dates: seq<int>)
    ensures dates == Dates(snaps)
    ensures forall d :: d in byDate <==> d in dates
    ensures forall d <- byDate :: byDate[d] == OnDate(snaps, d)
  {
    byDate, dates := map[], [];
    for i := 0 to |snaps|
      invariant dates == Dates(snaps[..i])
      invariant forall d :: d in byDate <==> d in dates
      invariant forall d :: (if d in byDate then byDate[d] else map[]) == OnDate(snaps[..i], d)
    {
      assert DropLast(snaps[..i + 1]) == snaps[..i] && Last(snaps[..i + 1]) == snaps[i];
      var s := snaps[i];
      if s.date !in byDate {
        byDate := byDate[s.date := map[]];
        dates := dates + [s.date];
      }
      byDate := byDate[s.date := byDate[s.date][s.ticker := s.close]];
    }
    assert snaps[..|snaps|] == snaps;
  }

  method FirstCloseByTicker(snaps: seq<Snapshot>) returns (firstClose: Closes)
    ensures firstClose == FirstCloses(snaps)
  {
    firstClose := map[];
    for i := 0 to |snaps|
      invariant firstClose == FirstCloses(snaps[..i])
    {
      assert DropLast(snaps[..i + 1]) == snaps[..i] && Last(snaps[..i + 1]) == snaps[i];
      if snaps[i].ticker !in firstClose {
        firstClose := firstClose[snaps[i].ticker := snaps[i].close];
      }
    }
    assert snaps[..|snaps|] == snaps;
  }

  // ----- Holdings, added up by ticker -----

  function Get(m: Closes, t: string): real {
    if t in m then m[t] else 0.0
  }

  function Quantities(hs: seq<Holding>): Closes {
    if hs == [] then map[]
    else
      var m, h := Quantities(DropLast(hs)), Last(hs);
      m[h.ticker := Get(m, h.ticker) + h.quantity]
  }

  /** `tickers` lists the held tickers, each once. */
  method QuantityByTicker(hs: seq<Holding>) returns (qty: Closes, tickers: seq<string>)
    ensures qty == Quantities(hs)
    ensures Distinct(tickers) && forall t :: t in tickers <==> t in qty
    ensures forall h <- hs :: h.ticker in qty
  {
    qty, tickers := map[], [];
    for i := 0 to |hs|
      invariant qty == Quantities(hs[..i])
      invariant Distinct(tickers) && forall t :: t in tickers <==> t in qty
      invariant forall k | 0 <= k < i :: hs[k].ticker in qty
    {
      assert DropLast(hs[..i + 1]) == hs[..i] && Last(hs[..i + 1]) == hs[i];
      var t := hs[i].ticker;
      if t !in qty {
        tickers := tickers + [t];
      }
      qty := qty[t := Get(qty, t) + hs[i].quantity];
    }
    assert hs[..|hs|] == hs;
  }

  /** What the tickers are worth together; a ticker without a close is skipped. */
  function SumOver(ts: seq<string>, qty: Closes, closes: Closes): real {
    if ts == [] then 0.0
    else
      var t := Last(ts);
      SumOver(DropLast(ts), qty, closes) + if t in closes then Worth(Get(qty, t), closes[t]) else 0.0
  }

  datatype Side = All | Domestic | Overseas

  predicate On(side: Side, ticker: string) {
    match side
    case All => true
    case Domestic => IsDomestic(ticker)
    case Overseas => !IsDomestic(ticker)
  }

  function HoldingWorth(h: Holding, side: Side, closes: Closes): real {
    if On(side, h.ticker) && h.ticker in closes then Worth(h.quantity, closes[h.ticker]) else 0.0
  }

  /** What the single holdings of one side are worth together. */
  function Held(hs: seq<Holding>, side: Side, closes: Closes): real {
    if hs == [] then 0.0 else Held(DropLast(hs), side, closes) + HoldingWorth(Last(hs), side, closes)
  }

  lemma {:induction false} NothingHeld(ts: seq<string>, closes: Closes)
    ensures SumOver(ts, map[], closes) == 0.0
  {
    if ts != [] {
      NothingHeld(DropLast(ts), closes);
    }
  }

  lemma WorthAdds(a: real, b: real, close: real)
    ensures Worth(a + b, close) == Worth(a, close) + Worth(b, close)
  {
  }

  lemma {:induction false} OneMore(ts: seq<string>, qty: Closes, closes: Closes, t: string, q: real)
    requires Distinct(ts)
    ensures SumOver(ts, qty[t := Get(qty, t) + q], closes)
         == SumOver(ts, qty, closes) + if t in ts && t in closes then Worth(q, closes[t]) else 0.0
  {
    if ts != [] {
      OneMore(DropLast(ts), qty, closes, t, q);
      assert ts == DropLast(ts) + [Last(ts)];
      if t in closes {
        WorthAdds(Get(qty, t), q, closes[t]);
      }
    }
  }

  /** Adding up quantities by ticker loses nothing: the tickers' worth is that of the single holdings. */
  lemma {:induction false} AggregationLosesNothing(hs: seq<Holding>, ts: seq<string>, side: Side, closes: Closes)
    requires Distinct(ts) && forall h <- hs :: h.ticker in ts <==> On(side, h.ticker)
    ensures SumOver(ts, Quantities(hs), closes) == Held(hs, side, closes)
  {
    if hs == [] {
      NothingHeld(ts, closes);
    } else {
      AggregationLosesNothing(DropLast(hs), ts, side, closes);
      OneMore(ts, Quantities(DropLast(hs)), closes, Last(hs).ticker, Last(hs).quantity);
      assert Last(hs) in hs;
    }
  }

  // ----- Closes carried forward and backward -----

  /** The close a ticker is valued at on a day: its last one up to then, else its first one. */
  function Effective(snaps: seq<Snapshot>, d: int): Closes {
    FirstCloses(snaps) + LastCloses(snaps, d)
  }

  /** Snapshot i is the ticker's earliest. */
  ghost predicate IsEarliest(snaps: seq<Snapshot>, t: string, i: int) {
    && 0 <= i < |snaps| && snaps[i].ticker == t
    && forall j | 0 <= j < |snaps| && snaps[j].ticker == t :: snaps[i].date <= snaps[j].date
  }

  /** Snapshot i is the ticker's latest up to day d. */
  ghost predicate IsLatest(snaps: seq<Snapshot>, t: string, d: int, i: int) {
    && 0 <= i < |snaps| && snaps[i].ticker == t && snaps[i].date <= d
    && forall j | 0 <= j < |snaps| && snaps[j].ticker == t && snaps[j].date <= d :: snaps[j].date <= snaps[i].date
  }

  lemma {:induction false} FirstMeans(snaps: seq<Snapshot>, t: string)
    requires InOrder(snaps)
    ensures t !in FirstCloses(snaps) ==> forall j | 0 <= j < |snaps| :: snaps[j].ticker != t
    ensures t in FirstCloses(snaps) ==> exists i :: IsEarliest(snaps, t, i) && snaps[i].close == FirstCloses(snaps)[t]
  {
    if snaps != [] {
      var rest, n := DropLast(snaps), |snaps| - 1;
      FirstMeans(rest, t);
      assert forall j | 0 <= j < n :: snaps[j] == rest[j];
      if t in FirstCloses(rest) {
        var i :| IsEarliest(rest, t, i) && rest[i].close == FirstCloses(rest)[t];
        assert IsEarliest(snaps, t, i);
      } else if snaps[n].ticker == t {
        assert IsEarliest(snaps, t, n);
      }
    }
  }

  lemma {:induction false} LastMeans(snaps: seq<Snapshot>, t: string, d: int)
    requires InOrder(snaps)
    ensures t !in LastCloses(snaps, d) ==> forall j | 0 <= j < |snaps| && snaps[j].ticker == t :: snaps[j].date > d
    ensures t in LastCloses(snaps, d) ==> exists i :: IsLatest(snaps, t, d, i) && snaps[i].close == LastCloses(snaps, d)[t]
  {
    if snaps != [] {
      var rest, n := DropLast(snaps), |snaps| - 1;
      LastMeans(rest, t, d);
      assert forall j | 0 <= j < n :: snaps[j] == rest[j];
      if snaps[n].date <= d && snaps[n].ticker == t {
        assert IsLatest(snaps, t, d, n);
      } else if t in LastCloses(rest, d) {
        var i :| IsLatest(rest, t, d, i) && rest[i].close == LastCloses(rest, d)[t];
        assert IsLatest(snaps, t, d, i);
      }
    }
  }

  /** The value used for a ticker on a day is the close of its latest snapshot up to that day; when there is
    * none, of its earliest; and it is missing exactly when the ticker has no snapshot at all. */
  lemma EffectiveMeans(snaps: seq<Snapshot>, t: string, d: int)
    requires InOrder(snaps)
    ensures t in Effective(snaps, d) <==> exists j :: 0 <= j < |snaps| && snaps[j].ticker == t
    ensures t in Effective(snaps, d) && (exists j :: 0 <= j < |snaps| && snaps[j].ticker == t && snaps[j].date <= d) ==>
              exists i :: IsLatest(snaps, t, d, i) && snaps[i].close == Effective(snaps, d)[t]
    ensures t in Effective(snaps, d) && !(exists j :: 0 <= j < |snaps| && snaps[j].ticker == t && snaps[j].date <= d) ==>
              exists i :: IsEarliest(snaps, t, i) && snaps[i].close == Effective(snaps, d)[t]
  {
    FirstMeans(snaps, t);
    LastMeans(snaps, t, d);
  }

  lemma {:induction false} NothingOn(snaps: seq<Snapshot>, d: int)
    requires forall s <- snaps :: s.date != d
    ensures OnDate(snaps, d) == map[]
  {
    if snaps != [] {
      NothingOn(DropLast(snaps), d);
    }
  }

  /** Taking in one day's closes brings the last closes up to that day. */
  lemma {:induction false} OneDayOn(snaps: seq<Snapshot>, d: int)
    requires InOrder(snaps)
    ensures LastCloses(snaps, d) == LastCloses(snaps, d - 1) + OnDate(snaps, d)
  {
    if snaps != [] {
      OneDayOn(DropLast(snaps), d);
      if Last(snaps).date < d {
        assert forall s <- DropLast(snaps) :: s.date <= Last(snaps).date;
        NothingOn(DropLast(snaps), d);
      }
    }
  }

  lemma {:induction false} NoneBetween(snaps: seq<Snapshot>, a: int, b: int)
    requires a <= b && forall s <- snaps :: s.date <= a || s.date > b
    ensures LastCloses(snaps, a) == LastCloses(snaps, b)
  {
    if snaps != [] {
      assert Last(snaps) in snaps;
      NoneBetween(DropLast(snaps), a, b);
    }
  }

  lemma {:induction false} NoneUpTo(snaps: seq<Snapshot>, d: int)
    requires forall s <- snaps :: s.date > d
    ensures LastCloses(snaps, d) == map[]
  {
    if snaps != [] {
      assert Last(snaps) in snaps;
      NoneUpTo(DropLast(snaps), d);
    }
  }

  lemma {:induction false} InsertedRises(d: int, ds: seq<int>)
    requires Rising(ds) && d !in ds
    ensures Rising(Inserted(d, ds)) && forall x :: x in Inserted(d, ds) <==> x == d || x in ds
  {
    if ds != [] {
      assert ds == DropLast(ds) + [Last(ds)];
      if Last(ds) > d {
        var rest := Inserted(d, DropLast(ds));
        InsertedRises(d, DropLast(ds));
        forall i | 0 <= i < |rest|
          ensures rest[i] < Last(ds)
        {
          assert rest[i] in rest;
        }
      }
    }
  }

  lemma {:induction false} SortedRises(ds: seq<int>)
    requires Distinct(ds)
    ensures Rising(Sorted(ds)) && forall x :: x in Sorted(ds) <==> x in ds
  {
    if ds != [] {
      SortedRises(DropLast(ds));
      assert ds == DropLast(ds) + [Last(ds)];
      InsertedRises(Last(ds), Sorted(DropLast(ds)));
    }
  }

  predicate Snapped(snaps: seq<Snapshot>, d: int) {
    exists i :: 0 <= i < |snaps| && snaps[i].date == d
  }

  lemma SnappedMore(snaps: seq<Snapshot>, d: int)
    requires snaps != []
    ensures Snapped(snaps, d) <==> Snapped(DropLast(snaps), d) || Last(snaps).date == d
  {
    var rest := DropLast(snaps);
    assert forall i | 0 <= i < |rest| :: snaps[i] == rest[i];
    if Snapped(rest, d) {
      var i :| 0 <= i < |rest| && rest[i].date == d;
      assert snaps[i].date == d;
    }
  }

  lemma {:induction false} DatesAreDistinct(snaps: seq<Snapshot>)
    ensures Distinct(Dates(snaps))
    ensures forall d :: d in Dates(snaps) <==> Snapped(snaps, d)
  {
    if snaps != [] {
      var rest := Dates(DropLast(snaps));
      DatesAreDistinct(DropLast(snaps));
      forall d {
        SnappedMore(snaps, d);
      }
    }
  }

  /** The listed days, in order: exactly those of the snapshots. */
  function Days(snaps: seq<Snapshot>): seq<int> {
    Sorted(Dates(snaps))
  }

  lemma DaysAreListed(snaps: seq<Snapshot>)
    ensures Rising(Days(snaps)) && forall d :: d in Days(snaps) <==> Snapped(snaps, d)
  {
    DatesAreDistinct(snaps);
    SortedRises(Dates(snaps));
  }

  lemma SomeDayListed(snaps: seq<Snapshot>)
    requires snaps != []
    ensures Days(snaps) != []
  {
    DaysAreListed(snaps);
    assert Snapped(snaps, snaps[0].date);
  }

  /** The last closes once the first k listed days are taken in. */
  function LastUpTo(snaps: seq<Snapshot>, k: nat): Closes
    requires k <= |Days(snaps)|
  {
    if k == 0 then map[] else LastCloses(snaps, Days(snaps)[k - 1])
  }

  lemma NextDay(snaps: seq<Snapshot>, k: nat)
    requires InOrder(snaps) && k < |Days(snaps)|
    ensures LastUpTo(snaps, k + 1) == LastUpTo(snaps, k) + OnDate(snaps, Days(snaps)[k])
  {
    var days := Days(snaps);
    var d := days[k];
    DaysAreListed(snaps);
    OneDayOn(snaps, d);
    forall s <- snaps
      ensures s.date >= d || (k > 0 && s.date <= days[k - 1])
    {
      var i :| 0 <= i < |snaps| && snaps[i] == s;
      assert Snapped(snaps, s.date) && s.date in days;
    }
    if k == 0 {
      NoneUpTo(snaps, d - 1);
    } else {
      NoneBetween(snaps, days[k - 1], d - 1);
    }
  }

  /** The closes of every snapshot day, and those days in order. */
  method ClosesByDay(snaps: seq<Snapshot>) returns (byDate: map<int, Closes>, sortedDates: seq<int>)
    ensures sortedDates == Days(snaps) && Rising(sortedDates)
    ensures forall k | 0 <= k < |sortedDates| :: sortedDates[k] in byDate && byDate[sortedDates[k]] == OnDate(snaps, sortedDates[k])
  {
    var dates;
    byDate, dates := CloseByDate(snaps);
    sortedDates := Sorted(dates);
    DaysAreListed(snaps);
    DatesAreDistinct(snaps);
    forall k | 0 <= k < |sortedDates|
      ensures sortedDates[k] in dates
    {
      assert sortedDates[k] in sortedDates && Snapped(snaps, sortedDates[k]);
    }
  }

  // ----- The portfolio's history -----

  /** A day's point, shown when the single holdings are worth something together. */
  function PointOf(hs: seq<Holding>, snaps: seq<Snapshot>, d: int): seq<Point> {
    Shown(d, Held(hs, All, Effective(snaps, d)))
  }

  function Shown(d: int, value: real): seq<Point> {
    if value > 0.0 then [Dated(d, value)] else []
  }

  function Parts(hs: seq<Holding>, snaps: seq<Snapshot>, days: seq<int>): seq<seq<Point>> {
    seq(|days|, k requires 0 <= k < |days| => PointOf(hs, snaps, days[k]))
  }

  function History(hs: seq<Holding>, snaps: seq<Snapshot>): seq<Point> {
    Joined(Parts(hs, snaps, Days(snaps)))
  }

  /** One pass of the loop: the closes seen so far give the day's value of the single holdings. */
  lemma OneDay(hs: seq<Holding>, snaps: seq<Snapshot>, tickers: seq<string>, k: nat, lastClose: Closes)
    requires InOrder(snaps) && k < |Days(snaps)|
    requires Distinct(tickers) && forall h <- hs :: h.ticker in tickers
    requires lastClose == LastUpTo(snaps, k)
    ensures var d := Days(snaps)[k];
            && lastClose + OnDate(snaps, d) == LastUpTo(snaps, k + 1)
            && FirstCloses(snaps) + LastUpTo(snaps, k + 1) == Effective(snaps, d)
            && Joined(Parts(hs, snaps, Days(snaps))[..k + 1]) ==
                 Joined(Parts(hs, snaps, Days(snaps))[..k]) + Shown(d, SumOver(tickers, Quantities(hs), Effective(snaps, d)))
  {
    JoinOneMore(Parts(hs, snaps, Days(snaps)), k);
    NextDay(snaps, k);
    AggregationLosesNothing(hs, tickers, All, Effective(snaps, Days(snaps)[k]));
  }

  method PortfolioHistory(hs: seq<Holding>, snaps: seq<Snapshot>) returns (history: seq<Point>)
    requires InOrder(snaps)
    ensures history == History(hs, snaps)
  {
    var qty, tickers := QuantityByTicker(hs);
    var byDate, sortedDates := ClosesByDay(snaps);
    var firstClose := FirstCloseByTicker(snaps);
    var lastClose: Closes := map[];
    history := [];
    ghost var parts := Parts(hs, snaps, sortedDates);
    for k := 0 to |sortedDates|
      invariant lastClose == LastUpTo(snaps, k)
      invariant history == Joined(parts[..k])
    {
      OneDay(hs, snaps, tickers, k, lastClose);
      lastClose := lastClose + byDate[sortedDates[k]];
      var effective := firstClose + lastClose;
      var value := SumOver(tickers, qty, effective);
      if value > 0.0 {
        history := history + [Dated(sortedDates[k], value)];
      }
    }
    assert parts[..|sortedDates|] == parts;
  }

  /** Quantity times close, over the single holdings of one side that have a close. */
  ghost function Value(hs: seq<Holding>, side: Side, closes: Closes): real {
    if hs == [] then 0.0
    else
      var h := Last(hs);
      Value(DropLast(hs), side, closes) + if On(side, h.ticker) && h.ticker in closes then h.quantity * closes[h.ticker] else 0.0
  }

  lemma {:induction false} HeldIsValue(hs: seq<Holding>, side: Side, closes: Closes)
    ensures Held(hs, side, closes) == Value(hs, side, closes)
  {
    if hs != [] {
      HeldIsValue(DropLast(hs), side, closes);
    }
  }

  /** The history has, in date order, one point for each snapshot day on which the single holdings, each at
    * its ticker's effective close, are worth more than nothing. */
  lemma HistoryMeans(hs: seq<Holding>, snaps: seq<Snapshot>)
    requires InOrder(snaps)
    ensures RisingPoints(History(hs, snaps))
    ensures forall p :: p in History(hs, snaps) <==>
              Snapped(snaps, p.date) && p.value == Value(hs, All, Effective(snaps, p.date)) && p.value > 0.0
  {
    var days := Days(snaps);
    var parts := Parts(hs, snaps, days);
    DaysAreListed(snaps);
    JoinedMeans(days, parts);
    forall p: Point
      ensures p in History(hs, snaps) <==> Snapped(snaps, p.date) && p in PointOf(hs, snaps, p.date)
      ensures Held(hs, All, Effective(snaps, p.date)) == Value(hs, All, Effective(snaps, p.date))
    {
      HeldIsValue(hs, All, Effective(snaps, p.date));
      if Snapped(snaps, p.date) {
        var k :| 0 <= k < |days| && days[k] == p.date;
        assert parts[k] == PointOf(hs, snaps, p.date);
      }
    }
  }
}
