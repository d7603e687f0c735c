/** Carrying exchange rates forward over a list of days (fx_utils.py). */
module FxRates {
  import opened Prelude
  import opened Series

  datatype FxSnapshot = FxSnapshot(date: int, rate: real)

  type Rates = map<int, real>

  /** On a repeated date the later snapshot counts. */
  function RatesByDate(snaps: seq<FxSnapshot>): Rates {
    if snaps == [] then map[] else RatesByDate(DropLast(snaps))[Last(snaps).date := Last(snaps).rate]
  }

  /** Snapshot k is the last one of day d. */
  ghost predicate IsLastOf(snaps: seq<FxSnapshot>, d: int, k: int) {
    0 <= k < |snaps| && snaps[k].date == d && forall j | k < j < |snaps| :: snaps[j].date != d
  }

  /** A day has a rate exactly when some snapshot is of that day, and it is the last such snapshot's. */
  lemma {:induction false} RateIsLastOfDay(snaps: seq<FxSnapshot>, d: int)
    ensures d in RatesByDate(snaps) <==> exists s <- snaps :: s.date == d
    ensures d in RatesByDate(snaps) ==> exists k :: IsLastOf(snaps, d, k) && RatesByDate(snaps)[d] == snaps[k].rate
  {
    if snaps != [] {
      var before, n := DropLast(snaps), |snaps| - 1;
      RateIsLastOfDay(before, d);
      assert snaps == before + [snaps[n]];
      if snaps[n].date == d {
        assert IsLastOf(snaps, d, n);
      } else if d in RatesByDate(before) {
        var k :| IsLastOf(before, d, k) && RatesByDate(before)[d] == before[k].rate;
        assert IsLastOf(snaps, d, k);
      }
    }
  }

  /** The latest of the first n listed days that has a snapshot. */
  function LastListed(rates: Rates, days: seq<int>, n: nat): (d: Option<int>)
    requires n <= |days|
    ensures d.Some? ==> d.value in rates
  {
    if n == 0 then None
    else if days[n - 1] in rates then Some(days[n - 1])
    else LastListed(rates, days, n - 1)
  }

  /** Its rate, or the fallback. */
  function RateUpTo(rates: Rates, days: seq<int>, n: nat, fallback: real): real
    requires n <= |days|
  {
    match LastListed(rates, days, n)
    case Some(d) => rates[d]
    case None => fallback
  }

  function Filled(rates: Rates, days: seq<int>, n: nat, fallback: real): Rates
    requires n <= |days|
  {
    if n == 0 then map[]
    else Filled(rates, days, n - 1, fallback)[days[n - 1] := RateUpTo(rates, days, n, fallback)]
  }

  method ForwardFillRates(snaps: seq<FxSnapshot>, days: seq<int>, fallback: real) returns (filled: Rates)
    ensures filled == Filled(RatesByDate(snaps), days, |days|, fallback)
  {
    var fxByDate: Rates := map[];
    for i := 0 to |snaps|
      invariant fxByDate == RatesByDate(snaps[..i])
    {
      assert DropLast(snaps[..i + 1]) == snaps[..i];
      fxByDate := fxByDate[snaps[i].date := snaps[i].rate];
    }
    assert snaps[..|snaps|] == snaps;
    filled := map[];
    var lastKnown := fallback;
    for k := 0 to |days|
      invariant filled == Filled(fxByDate, days, k, fallback)
      invariant lastKnown == RateUpTo(fxByDate, days, k, fallback)
    {
      if days[k] in fxByDate {
        lastKnown := fxByDate[days[k]];
      }
      filled := filled[days[k] := lastKnown];
    }
  }

  ghost predicate FilledAt(filled: Rates, rates: Rates, days: seq<int>, k: nat, fallback: real)
    requires k < |days|
  {
    days[k] in filled && filled[days[k]] == RateUpTo(rates, days, k + 1, fallback)
  }

  lemma FillOneMore(filled: Rates, rates: Rates, days: seq<int>, n: nat, k: nat, rate: real, fallback: real)
    requires Rising(days) && k < n < |days| && FilledAt(filled, rates, days, k, fallback)
    ensures FilledAt(filled[days[n] := rate], rates, days, k, fallback)
  {
  }

  lemma {:induction false} FilledDay(rates: Rates, days: seq<int>, n: nat, k: nat, fallback: real)
    requires Rising(days) && k < n <= |days|
    ensures FilledAt(Filled(rates, days, n, fallback), rates, days, k, fallback)
  {
    var filled := Filled(rates, days, n - 1, fallback);
    if k < n - 1 {
      FilledDay(rates, days, n - 1, k, fallback);
      FillOneMore(filled, rates, days, n - 1, k, RateUpTo(rates, days, n, fallback), fallback);
    }
  }

  lemma {:induction false} FilledDays(rates: Rates, days: seq<int>, n: nat, fallback: real)
    requires n <= |days|
    ensures forall d :: d in Filled(rates, days, n, fallback) <==> d in days[..n]
  {
    if n > 0 {
      FilledDays(rates, days, n - 1, fallback);
      assert days[..n] == days[..n - 1] + [days[n - 1]];
    }
  }

  /** Every listed day, and no other, gets the rate of the latest listed day up to it that has a snapshot,
    * else the fallback. */
  lemma FilledMeans(rates: Rates, days: seq<int>, fallback: real)
    requires Rising(days)
    ensures forall d :: d in Filled(rates, days, |days|, fallback) <==> d in days
    ensures forall k | 0 <= k < |days| :: FilledAt(Filled(rates, days, |days|, fallback), rates, days, k, fallback)
  {
    FilledDays(rates, days, |days|, fallback);
    assert days[..|days|] == days;
    forall k | 0 <= k < |days|
      ensures FilledAt(Filled(rates, days, |days|, fallback), rates, days, k, fallback)
    {
      FilledDay(rates, days, |days|, k, fallback);
    }
  }

  // ----- What the documentation promises -----

  lemma {:induction false} LastListedMeans(rates: Rates, days: seq<int>, n: nat)
    requires Rising(days) && n <= |days|
    ensures var d := LastListed(rates, days, n);
            && (d.Some? ==> d.value in days[..n])
            && forall i | 0 <= i < n && days[i] in rates :: d.Some? && days[i] <= d.value
  {
    if n > 0 {
      LastListedMeans(rates, days, n - 1);
      assert days[..n] == days[..n - 1] + [days[n - 1]];
    }
  }

  /** d0 is the day of the most recent snapshot up to day d, listed or not. */
  ghost predicate IsMostRecent(rates: Rates, d: int, d0: int) {
    d0 in rates && d0 <= d && forall e <- rates | e <= d :: e <= d0
  }

  /** The day whose rate is used is that of the most recent snapshot exactly when that day is listed: a
    * snapshot of a day that is not listed is never carried forward. */
  lemma MostRecentIffListed(rates: Rates, days: seq<int>, k: nat, d0: int)
    requires Rising(days) && k < |days| && IsMostRecent(rates, days[k], d0)
    ensures LastListed(rates, days, k + 1) == Some(d0) <==> d0 in days
  {
    var source := LastListed(rates, days, k + 1);
    LastListedMeans(rates, days, k + 1);
    if source.Some? {
      var j :| 0 <= j <= k && days[j] == source.value;
      assert source.value <= days[k];
    }
    if d0 in days {
      var i :| 0 <= i < |days| && days[i] == d0;
      assert i <= k;
    }
  }

  /** Until some snapshot is known the fallback stands, and no longer than that on listed days. */
  lemma FallbackIffNothingListed(rates: Rates, days: seq<int>, k: nat)
    requires Rising(days) && k < |days|
    ensures LastListed(rates, days, k + 1).None? <==> forall i | 0 <= i <= k :: days[i] !in rates
  {
    LastListedMeans(rates, days, k + 1);
    if LastListed(rates, days, k + 1).Some? {
      var j :| 0 <= j <= k && days[j] == LastListed(rates, days, k + 1).value;
    }
  }

  /** Rates of days 1 and 2 are known, only days 1 and 3 are listed: day 3 gets the rate of day 1. */
  lemma UnlistedRateIsSkipped()
    ensures var rates := RatesByDate([FxSnapshot(1, 1300.0), FxSnapshot(2, 1400.0)]);
            IsMostRecent(rates, 3, 2) && LastListed(rates, [1, 3], 2) == Some(1)
  {
    var a, b := FxSnapshot(1, 1300.0), FxSnapshot(2, 1400.0);
    assert DropLast([a, b]) == [a] && DropLast([a]) == [];
    assert RatesByDate([a]) == map[1 := 1300.0];
    assert LastListed(RatesByDate([a, b]), [1, 3], 1) == Some(1);
  }
}
