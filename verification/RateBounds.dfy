/** How tight the bound on released tokens is, and for which configurations simpler ones hold. */
module RateBounds {
  import opened Prelude
  import opened RateLimiter

  predicate Limits(c: Config) {
    c.Valid() && !c.mockMode
  }

  function CallAt(t: real): Event {
    Acquire(1, t, t, None)
  }

  function Times(n: nat, x: real): real {
    if n == 0 then 0.0 else Times(n - 1, x) + x
  }

  lemma {:induction false} TimesIsProduct(n: nat, x: real)
    ensures Times(n, x) == n as real * x
  {
    if n > 0 {
      TimesIsProduct(n - 1, x);
    }
  }

  lemma {:induction false} TimesGrows(n: nat, m: nat, x: real)
    requires n <= m && x >= 0.0
    ensures 0.0 <= Times(n, x) <= Times(m, x)
    decreases m
  {
    if n < m {
      TimesGrows(n, m - 1, x);
    } else if n > 0 {
      TimesGrows(n - 1, n - 1, x);
    }
  }

  lemma {:induction false} TimesAdds(n: nat, x: real, y: real)
    ensures Times(n, x + y) == Times(n, x) + Times(n, y)
  {
    if n > 0 {
      TimesAdds(n - 1, x, y);
    }
  }

  /** How long one token takes. */
  function TokenTime(c: Config): real
    requires c.Valid()
  {
    1.0 / c.rate
  }

  predicate TakesOneToken(c: Config, u: real) {
    u > 0.0 && c.rate * u == 1.0
  }

  lemma TokenTimeEarns(c: Config)
    requires c.Valid()
    ensures TakesOneToken(c, TokenTime(c))
  {
  }

  predicate OneTokenCalls(es: seq<Event>) {
    forall e <- es :: e.Acquire? ==> e.n == 1
  }

  // ----- One more call -----

  lemma Snoc(c: Config, start: real, es: seq<Event>, e: Event)
    requires c.Valid() && e.Acquire?
    ensures Run(c, start, es + [e]) == Step(c, Run(c, start, es), e)
    ensures Grants(c, start, es + [e]) == Grants(c, start, es) + [GrantOf(c, Run(c, start, es), e)]
    ensures LastTime(start, es + [e]) == e.End()
    ensures InOrder(start, es + [e]) == (InOrder(start, es) && LastTime(start, es) <= e.Begin() <= e.End())
  {
    assert DropLast(es + [e]) == es && Last(es + [e]) == e;
  }

  /** The run stands at time t with that bucket. */
  ghost predicate StandsAt(c: Config, start: real, es: seq<Event>, t: real, tokens: real, next: real)
    requires c.Valid()
  {
    InOrder(start, es) && LastTime(start, es) == t && Run(c, start, es) == Bucket(tokens, t, next)
  }

  ghost predicate IsUnit(g: Grant, release: real) {
    (g.n, g.timedOut, g.release) == (1, false, release)
  }

  /** A call at once takes a token that is there. */
  lemma ServedAtOnce(c: Config, start: real, es: seq<Event>, t: real, tokens: real, next: real) returns (g: Grant)
    requires Limits(c) && StandsAt(c, start, es, t, tokens, next) && 1.0 <= tokens <= c.burst as real
    ensures StandsAt(c, start, es + [CallAt(t)], t, tokens - 1.0, next)
    ensures Grants(c, start, es + [CallAt(t)]) == Grants(c, start, es) + [g] && IsUnit(g, t)
  {
    Snoc(c, start, es, CallAt(t));
    assert Earned(c, t, t) == 0.0;
    g := GrantOf(c, Bucket(tokens, t, next), CallAt(t));
  }

  lemma SharesOfToken(rate: real, h: real, g: real)
    requires rate > 0.0 && h >= 0.0 && rate * (h + g) == 1.0
    ensures h * rate == 1.0 - g * rate && (1.0 - h * rate) / rate == g
    ensures g > 0.0 ==> h * rate < 1.0
    ensures g == 0.0 ==> h * rate == 1.0
    ensures 0.0 <= h * rate
  {
    assert g * rate / rate == g;
    if g > 0.0 {
      assert g * rate > 0.0;
    }
  }

  lemma EarnedOver(c: Config, t: real, h: real, part: real)
    requires h * c.rate == part
    ensures Earned(c, t, t + h) == part
  {
  }

  lemma RefilledPart(c: Config, t: real, next: real, h: real, part: real)
    requires Limits(c) && c.burst >= 1 && h * c.rate == part && 0.0 <= part <= 1.0
    ensures Refilled(c, Bucket(0.0, t, next), t + h) == Bucket(part, t + h, next)
  {
    EarnedOver(c, t, h, part);
  }

  /** One step of a bucket, given what its refill brings and what the rest costs. */
  lemma BookingStep(c: Config, b: Bucket, t: real, part: real, next: real, g: real)
    requires Limits(c) && Refilled(c, b, t) == Bucket(part, t, next)
    requires part < 1.0 && (1.0 - part) / c.rate == g && next >= t
    ensures Step(c, b, CallAt(t)) == Bucket(0.0, t, next + g)
    ensures IsUnit(GrantOf(c, b, CallAt(t)), next + g)
  {
  }

  lemma ServingStep(c: Config, b: Bucket, t: real, tokens: real, next: real)
    requires Limits(c) && Refilled(c, b, t) == Bucket(tokens, t, next) && tokens >= 1.0
    ensures Step(c, b, CallAt(t)) == Bucket(tokens - 1.0, t, next)
    ensures IsUnit(GrantOf(c, b, CallAt(t)), t)
  {
  }

  /** A call h after the bucket was emptied finds part of its token and books the rest, g, behind all others. */
  lemma BookedEarly(c: Config, start: real, es: seq<Event>, t: real, next: real, h: real, g: real) returns (grant: Grant)
    requires Limits(c) && c.burst >= 1 && StandsAt(c, start, es, t, 0.0, next)
    requires h >= 0.0 && g > 0.0 && c.rate * (h + g) == 1.0 && next >= t + h
    ensures StandsAt(c, start, es + [CallAt(t + h)], t + h, 0.0, next + g)
    ensures Grants(c, start, es + [CallAt(t + h)]) == Grants(c, start, es) + [grant] && IsUnit(grant, next + g)
  {
    var part := h * c.rate;
    SharesOfToken(c.rate, h, g);
    RefilledPart(c, t, next, h, part);
    BookingStep(c, Bucket(0.0, t, next), t + h, part, next, g);
    Snoc(c, start, es, CallAt(t + h));
    grant := GrantOf(c, Bucket(0.0, t, next), CallAt(t + h));
  }

  /** A call one token's time after the bucket was emptied is served. */
  lemma ServedInTime(c: Config, start: real, es: seq<Event>, t: real, next: real, h: real) returns (grant: Grant)
    requires Limits(c) && c.burst >= 1 && StandsAt(c, start, es, t, 0.0, next) && h >= 0.0 && c.rate * h == 1.0
    ensures StandsAt(c, start, es + [CallAt(t + h)], t + h, 0.0, next)
    ensures Grants(c, start, es + [CallAt(t + h)]) == Grants(c, start, es) + [grant] && IsUnit(grant, t + h)
  {
    RefilledPart(c, t, next, h, 1.0);
    ServingStep(c, Bucket(0.0, t, next), t + h, 1.0, next);
    Snoc(c, start, es, CallAt(t + h));
    grant := GrantOf(c, Bucket(0.0, t, next), CallAt(t + h));
  }

  /** Single tokens, all released by `due`. */
  ghost predicate UnitsBy(gs: seq<Grant>, due: real) {
    forall i | 0 <= i < |gs| :: gs[i].release <= due && !gs[i].timedOut && gs[i].n == 1
  }

  lemma OneMoreCall(es: seq<Event>, t: real)
    requires OneTokenCalls(es)
    ensures OneTokenCalls(es + [CallAt(t)])
  {
  }

  /** k calls at once, served from the burst. */
  ghost predicate TakesBurst(c: Config, start: real, k: nat, es: seq<Event>) {
    && c.Valid() && k <= c.burst && StandsAt(c, start, es, start, (c.burst - k) as real, start) && OneTokenCalls(es)
    && UnitsBy(Grants(c, start, es), start) && |Grants(c, start, es)| == k
  }

  lemma {:induction false} BurstServed(c: Config, start: real, k: nat)
    requires Limits(c) && k <= c.burst
    ensures exists es :: TakesBurst(c, start, k, es)
  {
    if k == 0 {
      assert TakesBurst(c, start, k, []);
    } else {
      BurstServed(c, start, k - 1);
      var before :| TakesBurst(c, start, k - 1, before);
      var g := ServedAtOnce(c, start, before, start, (c.burst - k + 1) as real, start);
      OneMoreCall(before, start);
      assert TakesBurst(c, start, k, before + [CallAt(start)]);
    }
  }

  /** The burst and k more at once, these booked a token's time apart. */
  ghost predicate Backlogs(c: Config, start: real, k: nat, u: real, es: seq<Event>) {
    c.Valid() && StandsAt(c, start, es, start, 0.0, start + Times(k, u)) && OneTokenCalls(es)
  }

  lemma {:induction false} BacklogBooked(c: Config, start: real, k: nat, u: real)
    requires Limits(c) && c.burst >= 1 && TakesOneToken(c, u)
    ensures exists es :: Backlogs(c, start, k, u, es)
  {
    if k == 0 {
      BurstServed(c, start, c.burst);
      var es :| TakesBurst(c, start, c.burst, es);
      assert Backlogs(c, start, k, u, es);
    } else {
      BacklogBooked(c, start, k - 1, u);
      var before :| Backlogs(c, start, k - 1, u, before);
      TimesGrows(0, k - 1, u);
      assert start + 0.0 == start && c.rate * (0.0 + u) == 1.0;
      var g := BookedEarly(c, start, before, start, start + Times(k - 1, u), 0.0, u);
      OneMoreCall(before, start + 0.0);
      assert Backlogs(c, start, k, u, before + [CallAt(start + 0.0)]);
    }
  }

  // ----- The whole-run bound is reached -----

  lemma UnitsGrow(gs: seq<Grant>, g: Grant, early: real, release: real, due: real)
    requires UnitsBy(gs, early) && early <= due && IsUnit(g, release) && release <= due
    ensures UnitsBy(gs + [g], due)
  {
  }

  /** A run of so many grants, all released by t, that stands at t with an empty bucket and nothing booked later. */
  ghost predicate Doubled(c: Config, start: real, t: real, count: nat, es: seq<Event>) {
    && c.Valid() && StandsAt(c, start, es, t, 0.0, t)
    && UnitsBy(Grants(c, start, es), t) && |Grants(c, start, es)| == count
  }

  ghost predicate CanDouble(c: Config, start: real, t: real, count: nat) {
    exists es :: Doubled(c, start, t, count, es)
  }

  /** At each token's time one caller is served and another books the next. */
  lemma DoublingRound(c: Config, start: real, t: real, u: real, count: nat)
    requires Limits(c) && c.burst >= 1 && TakesOneToken(c, u) && CanDouble(c, start, t, count)
    ensures CanDouble(c, start, t + u, count + 2)
  {
    var es :| Doubled(c, start, t, count, es);
    assert t + 0.0 == t && c.rate * (0.0 + u) == 1.0;
    var g := BookedEarly(c, start, es, t, t, 0.0, u);
    UnitsGrow(Grants(c, start, es), g, t, t + u, t + u);
    var h := ServedInTime(c, start, es + [CallAt(t)], t, t + u, u);
    UnitsGrow(Grants(c, start, es + [CallAt(t)]), h, t + u, t + u, t + u);
    assert Doubled(c, start, t + u, count + 2, es + [CallAt(t)] + [CallAt(t + u)]);
  }

  /** The burst is taken at once; then follow k such rounds. */
  lemma {:induction false} DoublingRun(c: Config, start: real, u: real, k: nat)
    requires Limits(c) && c.burst >= 1 && TakesOneToken(c, u)
    ensures CanDouble(c, start, start + Times(k, u), c.burst + 2 * k)
  {
    if k == 0 {
      BurstServed(c, start, c.burst);
      var es :| TakesBurst(c, start, c.burst, es);
      assert Doubled(c, start, start + Times(0, u), c.burst, es);
    } else {
      DoublingRun(c, start, u, k - 1);
      DoublingRound(c, start, start + Times(k - 1, u), u, c.burst + 2 * (k - 1));
      assert start + Times(k - 1, u) + u == start + Times(k, u);
    }
  }

  lemma {:induction false} AllReleased(gs: seq<Grant>, due: real)
    requires UnitsBy(gs, due)
    ensures Released(gs, due) == |gs| as real
  {
    if gs != [] {
      AllReleased(DropLast(gs), due);
    }
  }

  lemma TimeOfTokens(c: Config, start: real, u: real, k: nat)
    requires c.Valid() && TakesOneToken(c, u)
    ensures Times(k, u) == k as real / c.rate >= 0.0
    ensures Earned(c, start, start + k as real / c.rate) == k as real
  {
    TimesIsProduct(k, u);
    var x := k as real;
    assert x / c.rate * c.rate == x;
    assert x * u == x / c.rate by {
      assert x * u * c.rate == x;
    }
  }

  /** With any burst the factor 2 is tight: by the time that k tokens take, burst + 2 * k are released. */
  lemma BoundIsReached(c: Config, start: real, k: nat, due: real)
    requires Limits(c) && c.burst >= 1 && due == start + k as real / c.rate
    ensures start <= due && Earned(c, start, due) == k as real
    ensures exists es :: InOrder(start, es) && LastTime(start, es) == due && Released(Grants(c, start, es), due) == (c.burst + 2 * k) as real
  {
    var u := TokenTime(c);
    TokenTimeEarns(c);
    TimeOfTokens(c, start, u, k);
    DoublingRun(c, start, u, k);
    var es :| Doubled(c, start, start + Times(k, u), c.burst + 2 * k, es);
    AllReleased(Grants(c, start, es), start + k as real / c.rate);
  }

  // ----- Without the factor 2 -----

  ghost predicate SingleBound(c: Config)
    requires c.Valid()
  {
    forall start: real, es: seq<Event>, due: real | InOrder(start, es) && start <= due ::
      Released(Grants(c, start, es), due) <= c.burst as real + Earned(c, start, due)
  }

  lemma {:induction false} DrawnAtMostBurst(c: Config, start: real, es: seq<Event>)
    requires Limits(c) && InOrder(start, es)
    ensures forall g <- Grants(c, start, es) :: 0.0 <= g.drawn <= c.burst as real
  {
    if es != [] {
      DrawnAtMostBurst(c, start, DropLast(es));
      RunBalanced(c, start, DropLast(es), start);
      var b := Run(c, start, DropLast(es));
      if Last(es).Acquire? {
        EarnedAdds(c, b.lastRefill, b.lastRefill, Last(es).refillAt);
      }
    }
  }

  lemma {:induction false} NothingDrawn(gs: seq<Grant>, due: real)
    requires forall g <- gs :: g.drawn == 0.0
    ensures DrawnBy(gs, due) == 0.0
  {
    if gs != [] {
      assert Last(gs) in gs && forall g <- DropLast(gs) :: g in gs;
      NothingDrawn(DropLast(gs), due);
    }
  }

  /** burst + rate * elapsed bounds the released tokens of all runs if and only if there is no burst. */
  lemma SingleBoundIffNoBurst(c: Config)
    requires Limits(c)
    ensures SingleBound(c) <==> c.burst == 0
  {
    if c.burst == 0 {
      forall start: real, es: seq<Event>, due: real | InOrder(start, es) && start <= due
        ensures Released(Grants(c, start, es), due) <= c.burst as real + Earned(c, start, due)
      {
        RunBalanced(c, start, es, due);
        PartsBelowTotals(Grants(c, start, es), due);
        DrawnAtMostBurst(c, start, es);
        NothingDrawn(Grants(c, start, es), due);
      }
    } else {
      var due := 0.0 + 1.0 / c.rate;
      BoundIsReached(c, 0.0, 1, due);
      var es :| InOrder(0.0, es) && LastTime(0.0, es) == due && Released(Grants(c, 0.0, es), due) == (c.burst + 2) as real;
      assert Released(Grants(c, 0.0, es), due) > c.burst as real + Earned(c, 0.0, due);
    }
  }

  // ----- Sliding windows -----

  /** Every run of one-token calls releases at most so many tokens in every window of that length. */
  ghost predicate WindowBound(c: Config, length: real, bound: real)
    requires c.Valid()
  {
    forall start: real, es: seq<Event>, from: real | InOrder(start, es) && OneTokenCalls(es) ::
      ReleasedWithin(c, start, es, from, length) <= bound
  }

  /** Tokens released in the window of that length that begins at `from`. */
  function ReleasedWithin(c: Config, start: real, es: seq<Event>, from: real, length: real): real
    requires c.Valid()
  {
    ReleasedBetween(Grants(c, start, es), from, from + length)
  }

  lemma {:induction gs} ReleasedNonNegative(gs: seq<Grant>, from: real, to: real)
    ensures ReleasedBetween(gs, from, to) >= 0.0
  {}

  lemma ReleasedSnoc(gs: seq<Grant>, g: Grant, from: real, to: real)
    ensures ReleasedBetween(gs + [g], from, to) ==
              ReleasedBetween(gs, from, to) + if from <= g.release <= to && !g.timedOut then g.n as real else 0.0
  {
    assert DropLast(gs + [g]) == gs && Last(gs + [g]) == g;
  }

  /** A run of one-token calls that stands at t with an empty bucket, the next release booked at `next`, and at least
    * `count` tokens released since `from`. */
  ghost predicate Crowded(c: Config, start: real, t: real, from: real, next: real, count: real, es: seq<Event>) {
    c.Valid() && StandsAt(c, start, es, t, 0.0, next) && OneTokenCalls(es) && ReleasedBetween(Grants(c, start, es), from, next) >= count
  }

  ghost predicate CanCrowd(c: Config, start: real, t: real, from: real, next: real, count: real) {
    exists es :: Crowded(c, start, t, from, next, count, es)
  }

  /** Behind a backlog of k, j calls that come h apart, just too early for their tokens: they are booked g apart, and
    * so released within j * g. */
  lemma {:induction false} Crowd(c: Config, start: real, k: nat, h: real, g: real, j: nat, from: real)
    requires Limits(c) && c.burst >= 1 && h >= 0.0 && g > 0.0 && TakesOneToken(c, h + g) && j <= k
    requires from == start + Times(k, h + g)
    ensures CanCrowd(c, start, start + Times(j, h), from, from + Times(j, g), j as real)
  {
    if j == 0 {
      BacklogBooked(c, start, k, h + g);
      var es :| Backlogs(c, start, k, h + g, es);
      ReleasedNonNegative(Grants(c, start, es), from, from);
      assert Crowded(c, start, start + Times(j, h), from, from + Times(j, g), j as real, es);
    } else {
      Crowd(c, start, k, h, g, j - 1, from);
      EnoughBacklog(k, j, h, g);
      OneMoreInCrowd(c, start, start + Times(j - 1, h), from, from + Times(j - 1, g), h, g, (j - 1) as real);
      assert start + Times(j - 1, h) + h == start + Times(j, h) && from + Times(j - 1, g) + g == from + Times(j, g);
    }
  }

  lemma OneMoreInCrowd(c: Config, start: real, t: real, from: real, next: real, h: real, g: real, count: real)
    requires Limits(c) && c.burst >= 1 && h >= 0.0 && g > 0.0 && TakesOneToken(c, h + g) && next >= t + h && next >= from
    requires CanCrowd(c, start, t, from, next, count)
    ensures CanCrowd(c, start, t + h, from, next + g, count + 1.0)
  {
    var before :| Crowded(c, start, t, from, next, count, before);
    var grant := BookedEarly(c, start, before, t, next, h, g);
    OneMoreReleased(Grants(c, start, before), grant, from, next, g);
    OneMoreCall(before, t + h);
    assert Crowded(c, start, t + h, from, next + g, count + 1.0, before + [CallAt(t + h)]);
  }

  lemma EnoughBacklog(k: nat, j: nat, h: real, g: real)
    requires h >= 0.0 && g >= 0.0 && 0 < j <= k
    ensures Times(k, h + g) + Times(j - 1, g) >= Times(j - 1, h) + h
    ensures Times(k, h + g) >= 0.0 && Times(j - 1, g) >= 0.0
  {
    TimesAdds(k, h, g);
    TimesGrows(j, k, h);
    TimesGrows(0, k, g);
    TimesGrows(0, j - 1, g);
  }

  lemma OneMoreReleased(gs: seq<Grant>, grant: Grant, from: real, next: real, g: real)
    requires IsUnit(grant, next + g) && from <= next && g > 0.0
    ensures ReleasedBetween(gs + [grant], from, next + g) >= ReleasedBetween(gs, from, next) + 1.0
  {
    ReleasedSnoc(gs, grant, from, next + g);
    WiderWindow(gs, from, next, next + g);
  }

  lemma {:induction false} WiderWindow(gs: seq<Grant>, from: real, to: real, later: real)
    requires to <= later
    ensures ReleasedBetween(gs, from, to) <= ReleasedBetween(gs, from, later)
  {
    if gs != [] {
      WiderWindow(DropLast(gs), from, to, later);
    }
  }

  lemma SmallShare(length: real, u: real, j: nat) returns (g: real)
    requires length > 0.0 && u > 0.0 && j > 0
    ensures 0.0 < g <= u && Times(j, g) <= length
  {
    var short := Min(length, u);
    g := short / j as real;
    assert j as real * g == short;
    TimesIsProduct(j, g);
    assert g <= short by {
      assert (j - 1) as real * g >= 0.0;
    }
  }

  /** A run of one-token calls that releases so many tokens in the window of that length. */
  ghost predicate Squeezes(c: Config, start: real, n: nat, length: real, es: seq<Event>, from: real) {
    && c.Valid() && InOrder(start, es) && OneTokenCalls(es)
    && ReleasedWithin(c, start, es, from, length) >= n as real
  }

  /** With any burst, a backlog can be booked as densely as one likes, since a later caller books only the part
    * that the bucket could not give: for every n and every length some run of one-token calls releases n
    * within it. */
  lemma AnyNumberWithin(c: Config, start: real, n: nat, length: real)
    requires Limits(c) && c.burst >= 1 && length > 0.0 && n > 0
    ensures exists es, from :: Squeezes(c, start, n, length, es, from)
  {
    var u := TokenTime(c);
    TokenTimeEarns(c);
    var g := SmallShare(length, u, n);
    CrowdWithin(c, start, n, length, u, u - g, g);
  }

  lemma CrowdWithin(c: Config, start: real, n: nat, length: real, u: real, h: real, g: real)
    requires Limits(c) && c.burst >= 1 && h >= 0.0 && g > 0.0 && h + g == u && TakesOneToken(c, u) && Times(n, g) <= length
    ensures exists es, from :: Squeezes(c, start, n, length, es, from)
  {
    var from := start + Times(n, u);
    Crowd(c, start, n, h, g, n, from);
    var es :| Crowded(c, start, start + Times(n, h), from, from + Times(n, g), n as real, es);
    WiderWindow(Grants(c, start, es), from, from + Times(n, g), from + length);
    assert Squeezes(c, start, n, length, es, from);
  }

  /** Releases that keep a distance. */
  ghost predicate Spaced(gs: seq<Grant>, u: real) {
    && (forall i, j | 0 <= i < j < |gs| :: gs[i].release + u <= gs[j].release)
    && forall i | 0 <= i < |gs| :: gs[i].n == 1
  }

  lemma {:induction false} NoneFrom(gs: seq<Grant>, from: real, to: real)
    requires forall i | 0 <= i < |gs| :: gs[i].release < from
    ensures ReleasedBetween(gs, from, to) == 0.0
  {
    if gs != [] {
      NoneFrom(DropLast(gs), from, to);
    }
  }

  lemma {:induction false} NoneAfter(gs: seq<Grant>, from: real, to: real, later: real)
    requires to <= later && forall i | 0 <= i < |gs| :: gs[i].release <= to
    ensures ReleasedBetween(gs, from, to) == ReleasedBetween(gs, from, later)
  {
    if gs != [] {
      NoneAfter(DropLast(gs), from, to, later);
    }
  }

  function WindowCount(rate: real, length: real): real {
    if length < 0.0 then 0.0 else 1.0 + length * rate
  }

  lemma OneMoreCounted(rate: real, u: real, from: real, last: real, to: real)
    requires rate > 0.0 && u > 0.0 && rate * u == 1.0 && from <= last <= to
    ensures WindowCount(rate, last - u - from) + 1.0 <= WindowCount(rate, to - from)
  {
    assert (last - u - from) * rate == (last - from) * rate - 1.0;
    assert (last - from) * rate >= 0.0;
    assert (to - last) * rate >= 0.0;
    assert (to - from) * rate == (last - from) * rate + (to - last) * rate;
  }

  lemma {:induction false} SpacedWithin(gs: seq<Grant>, rate: real, u: real, from: real, to: real)
    requires rate > 0.0 && u > 0.0 && rate * u == 1.0 && Spaced(gs, u)
    ensures ReleasedBetween(gs, from, to) <= WindowCount(rate, to - from)
  {
    if gs == [] {
      WindowCountPositive(rate, to - from);
    } else {
      var before, g := DropLast(gs), Last(gs);
      assert gs == before + [g];
      if g.release < from {
        NoneFrom(gs, from, to);
        WindowCountPositive(rate, to - from);
      } else if g.release > to {
        SpacedWithin(before, rate, u, from, to);
      } else {
        SpacedWithin(before, rate, u, from, g.release - u);
        NoneAfter(before, from, g.release - u, to);
        OneMoreCounted(rate, u, from, g.release, to);
      }
    }
  }

  lemma WindowCountPositive(rate: real, length: real)
    requires rate > 0.0
    ensures WindowCount(rate, length) >= 0.0
  {
    if length >= 0.0 {
      assert length * rate >= 0.0;
    }
  }

  /** Without a burst every call books its whole token behind the last. */
  lemma {:induction false} NoBurstBooksAll(c: Config, start: real, es: seq<Event>)
    requires Limits(c) && c.burst == 0 && InOrder(start, es) && OneTokenCalls(es)
    ensures forall g <- Grants(c, start, es) :: g.n == 1 && g.deficit == 1.0
  {
    if es != [] {
      assert forall e <- DropLast(es) :: e in es;
      NoBurstBooksAll(c, start, DropLast(es));
      RunBalanced(c, start, DropLast(es), start);
      var b := Run(c, start, DropLast(es));
      if Last(es).Acquire? {
        assert Last(es) in es && Last(es).n == 1;
        EarnedAdds(c, b.lastRefill, b.lastRefill, Last(es).refillAt);
      }
    }
  }

  lemma NoBurstSpaces(c: Config, start: real, es: seq<Event>, u: real) returns (gs: seq<Grant>)
    requires Limits(c) && c.burst == 0 && InOrder(start, es) && OneTokenCalls(es) && TakesOneToken(c, u)
    ensures gs == Grants(c, start, es) && Spaced(gs, u)
  {
    gs := Grants(c, start, es);
    NoBurstBooksAll(c, start, es);
    assert forall i | 0 <= i < |gs| :: gs[i] in gs;
    forall i, j | 0 <= i < j < |gs|
      ensures gs[i].release + u <= gs[j].release
    {
      BookingsAreSpaced(c, start, es, i, j);
      OneTokenTakes(c, u);
    }
  }

  lemma OneTokenTakes(c: Config, u: real)
    requires c.Valid() && TakesOneToken(c, u)
    ensures 1.0 / c.rate == u
  {
  }

  lemma SpacedInWindow(gs: seq<Grant>, rate: real, u: real, from: real, length: real, bound: real)
    requires rate > 0.0 && u > 0.0 && rate * u == 1.0 && Spaced(gs, u) && length >= 0.0 && bound == 1.0 + length * rate
    ensures ReleasedBetween(gs, from, from + length) <= bound
  {
    SpacedWithin(gs, rate, u, from, from + length);
    assert from + length - from == length;
  }

  lemma NoBurstWithin(c: Config, start: real, es: seq<Event>, from: real, length: real, u: real, bound: real)
    requires Limits(c) && c.burst == 0 && length >= 0.0 && TakesOneToken(c, u) && bound == 1.0 + length * c.rate
    requires InOrder(start, es) && OneTokenCalls(es)
    ensures ReleasedWithin(c, start, es, from, length) <= bound
  {
    var gs := NoBurstSpaces(c, start, es, u);
    SpacedInWindow(gs, c.rate, u, from, length, bound);
  }

  lemma NoBurstWindow(c: Config, length: real)
    requires Limits(c) && c.burst == 0 && length >= 0.0
    ensures WindowBound(c, length, 1.0 + length * c.rate)
  {
    forall start: real, es: seq<Event>, from: real | InOrder(start, es) && OneTokenCalls(es)
      ensures ReleasedWithin(c, start, es, from, length) <= 1.0 + length * c.rate
    {
      TokenTimeEarns(c);
      NoBurstWithin(c, start, es, from, length, TokenTime(c), 1.0 + length * c.rate);
    }
  }

  /** For windows of any length: one-token calls have a bound if and only if there is no burst, and then it is
    * 1 + rate * length. */
  lemma WindowBoundIffNoBurst(c: Config, length: real)
    requires Limits(c) && length > 0.0
    ensures (exists bound: real :: WindowBound(c, length, bound)) <==> c.burst == 0
    ensures c.burst == 0 ==> WindowBound(c, length, 1.0 + length * c.rate)
  {
    if c.burst == 0 {
      NoBurstWindow(c, length);
    } else {
      forall bound: real
        ensures !WindowBound(c, length, bound)
      {
        var n: nat := if bound < 0.0 then 1 else bound.Floor + 1;
        AnyNumberWithin(c, 0.0, n, length);
        var es, from :| Squeezes(c, 0.0, n, length, es, from);
        assert ReleasedWithin(c, 0.0, es, from, length) > bound;
      }
    }
  }
}
