/** The token bucket with booked releases of kis_rate_limiter.py.
  *
  * A bucket refills lazily.  A call that finds too few tokens takes what is there and
  * books a future instant for the missing part; booked instants only move forward.
  * Clock readings are parameters: _consume reads the clock once to refill and, when it
  * has to book, a second time, so an Acquire carries both readings.
  */
module RateLimiter {
  import opened Prelude

  datatype Config = Config(rate: real, burst: nat, mockMode: bool) {
    predicate Valid() { rate > 0.0 }
  }

  datatype Bucket = Bucket(tokens: real, lastRefill: real, nextRelease: real)

  function Fresh(c: Config, start: real): Bucket {
    Bucket(c.burst as real, start, start)
  }

  /** Tokens the clock pays for between two instants. */
  function Earned(c: Config, from: real, to: real): real {
    (to - from) * c.rate
  }

  function Refilled(c: Config, b: Bucket, now: real): Bucket {
    b.(tokens := Min(c.burst as real, b.tokens + Earned(c, b.lastRefill, now)), lastRefill := now)
  }

  /** The bucket after a call for n tokens, and how long that call must wait. */
  function Consumed(c: Config, b: Bucket, n: nat, refillAt: real, bookAt: real): (Bucket, real)
    requires c.Valid()
  {
    if c.mockMode then (b, 0.0) else
    var r := Refilled(c, b, refillAt);
    if r.tokens >= n as real then
      (r.(tokens := r.tokens - n as real), 0.0)
    else
      var scheduled := Max(r.nextRelease, bookAt) + (n as real - r.tokens) / c.rate;
      (Bucket(0.0, refillAt, scheduled), scheduled - bookAt)
  }

  predicate GivesUp(wait: real, timeout: Option<real>) {
    wait > 0.0 && timeout.Some? && wait > timeout.value
  }

  datatype Outcome = Granted(wait: real) | TimedOut(wait: real)

  class TimeoutCounter {
    var count: nat
    constructor () ensures count == 0 { count := 0; }
  }

  class KisRateLimiter {
    const config: Config
    var tokens: real
    var lastRefill: real
    var nextRelease: real

    ghost function State(): Bucket
      reads this
    {
      Bucket(tokens, lastRefill, nextRelease)
    }

    constructor (config: Config, now: real)
      ensures this.config == config && State() == Fresh(config, now)
    {
      this.config := config;
      tokens := config.burst as real;
      lastRefill := now;
      nextRelease := now;
    }

    method Refill(now: real)
      modifies this
      ensures State() == Refilled(config, old(State()), now)
    {
      var elapsed := now - lastRefill;
      tokens := Min(config.burst as real, tokens + elapsed * config.rate);
      lastRefill := now;
    }

    method Consume(n: nat, refillAt: real, bookAt: real) returns (wait: real)
      requires config.Valid()
      modifies this
      ensures (State(), wait) == Consumed(config, old(State()), n, refillAt, bookAt)
    {
      if config.mockMode {
        return 0.0;
      }
      Refill(refillAt);
      if tokens >= n as real {
        tokens := tokens - n as real;
        return 0.0;
      }
      var deficit := n as real - tokens;
      tokens := 0.0;
      var scheduled := Max(nextRelease, bookAt) + deficit / config.rate;
      nextRelease := scheduled;
      wait := scheduled - bookAt;
    }

    method AvailableTokens(now: real) returns (r: real)
      modifies this
      ensures State() == Refilled(config, old(State()), now)
      ensures r == Refilled(config, old(State()), now).tokens
    {
      Refill(now);
      r := tokens;
    }

    /** A call that gives up keeps what it consumed or booked. */
    method Acquire(n: nat, timeout: Option<real>, refillAt: real, bookAt: real, timeouts: TimeoutCounter)
      returns (r: Outcome)
      requires config.Valid()
      modifies this, timeouts
      ensures State() == Consumed(config, old(State()), n, refillAt, bookAt).0
      ensures var wait := Consumed(config, old(State()), n, refillAt, bookAt).1;
              if GivesUp(wait, timeout)
              then r == TimedOut(wait) && timeouts.count == old(timeouts.count) + 1
              else r == Granted(wait) && timeouts.count == old(timeouts.count)
    {
      var wait := Consume(n, refillAt, bookAt);
      if wait <= 0.0 {
        return Granted(wait);
      }
      if timeout.Some? && wait > timeout.value {
        timeouts.count := timeouts.count + 1;
        return TimedOut(wait);
      }
      r := Granted(wait);
    }
  }

  // ----- Runs -----

  datatype Event =
    | Acquire(n: nat, refillAt: real, bookAt: real, timeout: Option<real>)
    | Read(at: real)
  {
    function Begin(): real { if Acquire? then refillAt else at }
    function End(): real { if Acquire? then bookAt else at }
  }

  /** What one Acquire obtained: n tokens at `release`, of which `drawn` left the bucket
    * and `deficit` was booked. */
  datatype Grant = Grant(n: nat, drawn: real, deficit: real, release: real, timedOut: bool)

  function GrantOf(c: Config, b: Bucket, e: Event): Grant
    requires c.Valid() && e.Acquire?
  {
    var tokens := Refilled(c, b, e.refillAt).tokens;
    var wait := Consumed(c, b, e.n, e.refillAt, e.bookAt).1;
    if tokens >= e.n as real
    then Grant(e.n, e.n as real, 0.0, e.refillAt, GivesUp(wait, e.timeout))
    else Grant(e.n, tokens, e.n as real - tokens, e.bookAt + wait, GivesUp(wait, e.timeout))
  }

  function Step(c: Config, b: Bucket, e: Event): Bucket
    requires c.Valid()
  {
    match e
    case Acquire(n, refillAt, bookAt, _) => Consumed(c, b, n, refillAt, bookAt).0
    case Read(at) => Refilled(c, b, at)
  }

  function Run(c: Config, start: real, es: seq<Event>): Bucket
    requires c.Valid()
  {
    if es == [] then Fresh(c, start) else Step(c, Run(c, start, DropLast(es)), Last(es))
  }

  function Grants(c: Config, start: real, es: seq<Event>): seq<Grant>
    requires c.Valid()
  {
    if es == [] then []
    else if Last(es).Read? then Grants(c, start, DropLast(es))
    else Grants(c, start, DropLast(es)) + [GrantOf(c, Run(c, start, DropLast(es)), Last(es))]
  }

  function LastTime(start: real, es: seq<Event>): real {
    if es == [] then start else Last(es).End()
  }

  /** The clock never runs backwards. */
  predicate InOrder(start: real, es: seq<Event>) {
    es == [] ||
    (InOrder(start, DropLast(es)) && LastTime(start, DropLast(es)) <= Last(es).Begin() <= Last(es).End())
  }

  function Released(gs: seq<Grant>, due: real): real {
    if gs == [] then 0.0
    else Released(DropLast(gs), due) + if Last(gs).release <= due && !Last(gs).timedOut then Last(gs).n as real else 0.0
  }

  function ReleasedBetween(gs: seq<Grant>, from: real, to: real): real {
    if gs == [] then 0.0
    else ReleasedBetween(DropLast(gs), from, to) +
         if from <= Last(gs).release <= to && !Last(gs).timedOut then Last(gs).n as real else 0.0
  }

  ghost function Drawn(gs: seq<Grant>): real {
    if gs == [] then 0.0 else Drawn(DropLast(gs)) + Last(gs).drawn
  }

  ghost function Booked(gs: seq<Grant>): real {
    if gs == [] then 0.0 else Booked(DropLast(gs)) + Last(gs).deficit
  }

  ghost function DrawnBy(gs: seq<Grant>, due: real): real {
    if gs == [] then 0.0 else DrawnBy(DropLast(gs), due) + if Last(gs).release <= due then Last(gs).drawn else 0.0
  }

  ghost function BookedBy(gs: seq<Grant>, due: real): real {
    if gs == [] then 0.0 else BookedBy(DropLast(gs), due) + if Last(gs).release <= due then Last(gs).deficit else 0.0
  }

  ghost predicate WellFormed(gs: seq<Grant>) {
    forall g <- gs :: g.drawn >= 0.0 && g.deficit >= 0.0 && g.drawn + g.deficit == g.n as real
  }

  lemma {:induction gs} PartsBelowTotals(gs: seq<Grant>, due: real)
    requires WellFormed(gs)
    ensures DrawnBy(gs, due) <= Drawn(gs) && BookedBy(gs, due) <= Booked(gs)
    ensures Released(gs, due) <= DrawnBy(gs, due) + BookedBy(gs, due)
  {
    if gs != [] {
      assert Last(gs) in gs;
      PartsBelowTotals(DropLast(gs), due);
    }
  }

  ghost predicate Balanced(c: Config, start: real, b: Bucket, gs: seq<Grant>) {
    && 0.0 <= b.tokens <= c.burst as real
    && start <= b.lastRefill
    && start <= b.nextRelease
    && WellFormed(gs)
    && Drawn(gs) + b.tokens <= c.burst as real + Earned(c, start, b.lastRefill)
    && Booked(gs) <= Earned(c, start, b.nextRelease)
    && (forall g <- gs :: g.deficit > 0.0 ==> g.release <= b.nextRelease)
  }

  lemma EarnedAdds(c: Config, from: real, mid: real, to: real)
    requires c.Valid() && from <= mid <= to
    ensures Earned(c, from, to) == Earned(c, from, mid) + Earned(c, mid, to)
    ensures Earned(c, from, mid) >= 0.0 && Earned(c, mid, to) >= 0.0
  {}

  lemma RefillBalanced(c: Config, start: real, b: Bucket, gs: seq<Grant>, now: real)
    requires c.Valid() && Balanced(c, start, b, gs) && b.lastRefill <= now
    ensures Balanced(c, start, Refilled(c, b, now), gs)
  {
    EarnedAdds(c, start, b.lastRefill, now);
  }

  lemma BookingAdvances(c: Config, from: real, deficit: real)
    requires c.Valid() && deficit > 0.0
    ensures deficit / c.rate > 0.0 && Earned(c, from, from + deficit / c.rate) == deficit
  {}

  lemma WellFormedSnoc(gs: seq<Grant>, g: Grant)
    requires WellFormed(gs) && WellFormed([g])
    ensures WellFormed(gs + [g]) && DropLast(gs + [g]) == gs
  {
    assert g in [g];
  }

  lemma AcquireBalanced(c: Config, start: real, b: Bucket, gs: seq<Grant>, e: Event)
    requires c.Valid() && !c.mockMode && Balanced(c, start, b, gs)
    requires e.Acquire? && b.lastRefill <= e.refillAt <= e.bookAt
    ensures Balanced(c, start, Step(c, b, e), gs + [GrantOf(c, b, e)])
    ensures GrantOf(c, b, e).release >= e.refillAt
    ensures GrantOf(c, b, e).deficit > 0.0 ==>
              GrantOf(c, b, e).release == Step(c, b, e).nextRelease >= b.nextRelease + GrantOf(c, b, e).deficit / c.rate
  {
    var r := Refilled(c, b, e.refillAt);
    RefillBalanced(c, start, b, gs, e.refillAt);
    var g := GrantOf(c, b, e);
    WellFormedSnoc(gs, g);
    if r.tokens < e.n as real {
      BookedBalanced(c, start, r, gs, e, g);
    }
  }

  lemma BookedBalanced(c: Config, start: real, r: Bucket, gs: seq<Grant>, e: Event, g: Grant)
    requires c.Valid() && Balanced(c, start, r, gs) && WellFormed(gs + [g]) && DropLast(gs + [g]) == gs
    requires g.drawn == r.tokens && g.deficit > 0.0
    requires e.Acquire? && r.lastRefill == e.refillAt <= e.bookAt
    requires g.release == Max(r.nextRelease, e.bookAt) + g.deficit / c.rate
    ensures Balanced(c, start, Bucket(0.0, e.refillAt, g.release), gs + [g])
    ensures g.release >= e.bookAt && g.release >= r.nextRelease + g.deficit / c.rate
  {
    var base := Max(r.nextRelease, e.bookAt);
    BookingAdvances(c, base, g.deficit);
    EarnedAdds(c, start, r.nextRelease, base);
    EarnedAdds(c, start, base, g.release);
  }

  /** Accounting kept over every run: tokens drawn are paid for by the burst and the refill, booked
    * deficits by the advance of nextRelease; and both stay so when only releases due by that time are counted. */
  lemma {:induction false} RunBalanced(c: Config, start: real, es: seq<Event>, due: real)
    requires c.Valid() && !c.mockMode && InOrder(start, es) && start <= due
    ensures Balanced(c, start, Run(c, start, es), Grants(c, start, es))
    ensures Run(c, start, es).lastRefill <= LastTime(start, es)
    ensures DrawnBy(Grants(c, start, es), due) <= c.burst as real + Earned(c, start, due)
    ensures BookedBy(Grants(c, start, es), due) <= Earned(c, start, due)
  {
    if es == [] {
      EarnedAdds(c, start, start, due);
    } else {
      RunBalanced(c, start, DropLast(es), due);
      var b, gs, e := Run(c, start, DropLast(es)), Grants(c, start, DropLast(es)), Last(es);
      match e {
        case Read(at) => RefillBalanced(c, start, b, gs, at);
        case Acquire(_, _, _, _) =>
          AcquireBalanced(c, start, b, gs, e);
          GrantWithinBound(c, start, b, gs, e, due);
      }
    }
  }

  lemma GrantWithinBound(c: Config, start: real, b: Bucket, gs: seq<Grant>, e: Event, due: real)
    requires c.Valid() && !c.mockMode && Balanced(c, start, b, gs) && start <= due
    requires e.Acquire? && b.lastRefill <= e.refillAt <= e.bookAt
    requires DrawnBy(gs, due) <= c.burst as real + Earned(c, start, due)
    requires BookedBy(gs, due) <= Earned(c, start, due)
    ensures DrawnBy(gs + [GrantOf(c, b, e)], due) <= c.burst as real + Earned(c, start, due)
    ensures BookedBy(gs + [GrantOf(c, b, e)], due) <= Earned(c, start, due)
  {
    var g := GrantOf(c, b, e);
    AcquireBalanced(c, start, b, gs, e);
    BalancedWithin(c, start, Step(c, b, e), gs, g, due);
  }

  lemma BalancedWithin(c: Config, start: real, after: Bucket, gs: seq<Grant>, g: Grant, due: real)
    requires c.Valid() && Balanced(c, start, after, gs + [g]) && start <= due
    requires after.lastRefill <= g.release && (g.deficit > 0.0 ==> after.nextRelease == g.release)
    requires DrawnBy(gs, due) <= c.burst as real + Earned(c, start, due)
    requires BookedBy(gs, due) <= Earned(c, start, due)
    ensures DrawnBy(gs + [g], due) <= c.burst as real + Earned(c, start, due)
    ensures BookedBy(gs + [g], due) <= Earned(c, start, due)
  {
    assert DropLast(gs + [g]) == gs && g in gs + [g];
    PartsBelowTotals(gs + [g], due);
    if g.release <= due {
      EarnedAdds(c, start, after.lastRefill, due);
      if g.deficit > 0.0 {
        EarnedAdds(c, start, after.nextRelease, due);
      }
    }
  }

  lemma Doubled(rate: real, span: real)
    ensures 2.0 * rate * span == span * rate + span * rate
  {}

  /** The whole-run bound: by any time, at most burst + 2 * rate * elapsed tokens have been released,
    * immediate grants and due bookings together. */
  lemma CumulativeBound(c: Config, start: real, es: seq<Event>, due: real)
    requires c.Valid() && !c.mockMode && InOrder(start, es) && start <= due
    ensures Released(Grants(c, start, es), due) <= c.burst as real + 2.0 * Earned(c, start, due)
  {
    RunBalanced(c, start, es, due);
    PartsBelowTotals(Grants(c, start, es), due);
    Doubled(c.rate, due - start);
  }

  // ----- Spacing of bookings and the staircase -----

  /** Bookings are released in arrival order, each at least deficit / rate after every earlier one. */
  lemma {:induction false} BookingsAreSpaced(c: Config, start: real, es: seq<Event>, i: nat, j: nat)
    requires c.Valid() && !c.mockMode && InOrder(start, es)
    requires i < j < |Grants(c, start, es)|
    requires Grants(c, start, es)[i].deficit > 0.0 && Grants(c, start, es)[j].deficit > 0.0
    ensures var gs := Grants(c, start, es);
            gs[i].release + gs[j].deficit / c.rate <= gs[j].release && gs[i].release < gs[j].release
  {
    var gs := Grants(c, start, es);
    var before := Grants(c, start, DropLast(es));
    if j < |before| {
      BookingsAreSpaced(c, start, DropLast(es), i, j);
    } else {
      RunBalanced(c, start, DropLast(es), start);
      BookedLast(c, start, Run(c, start, DropLast(es)), before, Last(es), i);
    }
  }

  lemma BookedLast(c: Config, start: real, b: Bucket, gs: seq<Grant>, e: Event, i: nat)
    requires c.Valid() && !c.mockMode && Balanced(c, start, b, gs)
    requires e.Acquire? && b.lastRefill <= e.refillAt <= e.bookAt
    requires i < |gs| && gs[i].deficit > 0.0 && GrantOf(c, b, e).deficit > 0.0
    ensures var g := GrantOf(c, b, e);
            gs[i].release + g.deficit / c.rate <= g.release && gs[i].release < g.release
  {
    AcquireBalanced(c, start, b, gs, e);
    BookingAdvances(c, 0.0, GrantOf(c, b, e).deficit);
    assert gs[i] in gs;
  }

  function Simultaneous(c: Config, b: Bucket, k: nat, now: real): Bucket
    requires c.Valid()
  {
    if k == 0 then b else Consumed(c, Simultaneous(c, b, k - 1, now), 1, now, now).0
  }

  /** The bucket, once refilled, after k of the calls. */
  ghost predicate OnStair(c: Config, s: Bucket, k: nat, now: real)
    requires c.Valid()
  {
    && s.lastRefill <= now
    && Refilled(c, s, now).tokens == Max(0.0, c.burst as real - k as real)
    && if k <= c.burst then s.nextRelease <= now
       else s.nextRelease == now + (k - c.burst) as real / c.rate
  }

  /** From a bucket that is full by now with nothing booked, the k-th of several simultaneous one-token calls
    * waits exactly max(0, k - burst) / rate. */
  lemma {:induction false} StaircaseWait(c: Config, b: Bucket, k: nat, now: real)
    requires c.Valid() && !c.mockMode && k > 0
    requires b.lastRefill <= now && Refilled(c, b, now).tokens == c.burst as real && b.nextRelease <= now
    ensures Consumed(c, Simultaneous(c, b, k - 1, now), 1, now, now).1
              == if k <= c.burst then 0.0 else (k - c.burst) as real / c.rate
    ensures OnStair(c, Simultaneous(c, b, k, now), k, now)
  {
    if k > 1 {
      StaircaseWait(c, b, k - 1, now);
    }
    ClimbStair(c, Simultaneous(c, b, k - 1, now), k, now);
  }

  lemma ClimbStair(c: Config, s: Bucket, k: nat, now: real)
    requires c.Valid() && !c.mockMode && k > 0 && OnStair(c, s, k - 1, now)
    ensures Consumed(c, s, 1, now, now).1 == if k <= c.burst then 0.0 else (k - c.burst) as real / c.rate
    ensures OnStair(c, Consumed(c, s, 1, now, now).0, k, now)
  {
    var s' := Consumed(c, s, 1, now, now).0;
    assert s'.lastRefill == now && Earned(c, now, now) == 0.0;
    if k > c.burst + 1 {
      OneMoreShare((k - c.burst) as real, c.rate);
    }
  }

  lemma OneMoreShare(x: real, rate: real)
    requires rate > 0.0 && x >= 1.0
    ensures (x - 1.0) / rate + 1.0 / rate == x / rate && (x - 1.0) / rate >= 0.0
  {}

  // ----- One call, from the bucket it meets -----

  /** What is in the bucket once it has been refilled. */
  ghost function Available(c: Config, b: Bucket, at: real): real {
    var refilled := b.tokens + (at - b.lastRefill) * c.rate;
    if refilled > c.burst as real then c.burst as real else refilled
  }

  /** In mock mode a call neither waits nor touches the bucket. Else a call that finds enough takes it at once. */
  lemma CallServed(c: Config, b: Bucket, e: Event)
    requires c.Valid() && e.Acquire? && (c.mockMode || Available(c, b, e.refillAt) >= e.n as real)
    ensures var g, b' := GrantOf(c, b, e), Step(c, b, e);
            && !g.timedOut && Consumed(c, b, e.n, e.refillAt, e.bookAt).1 == 0.0
            && b' == (if c.mockMode then b else Bucket(Available(c, b, e.refillAt) - e.n as real, e.refillAt, b.nextRelease))
            && (!c.mockMode ==> g.release == e.refillAt)
  {
  }

  lemma BookingOf(c: Config, b: Bucket, n: nat, refillAt: real, bookAt: real, missing: real)
    requires c.Valid() && !c.mockMode && missing == n as real - Available(c, b, refillAt) > 0.0
    ensures var release := (if b.nextRelease > bookAt then b.nextRelease else bookAt) + missing / c.rate;
            Consumed(c, b, n, refillAt, bookAt) == (Bucket(0.0, refillAt, release), release - bookAt)
  {
  }

  /** Any other call empties the bucket and is released when the missing part has been earned, counted from the last
    * booking if that is still to come; it gives up exactly when it has a timeout shorter than that wait. */
  lemma CallBooked(c: Config, b: Bucket, e: Event, missing: real)
    requires c.Valid() && !c.mockMode && e.Acquire? && missing == e.n as real - Available(c, b, e.refillAt) > 0.0
    ensures var g, booked := GrantOf(c, b, e), if b.nextRelease > e.bookAt then b.nextRelease else e.bookAt;
            && g.release == booked + missing / c.rate && Step(c, b, e) == Bucket(0.0, e.refillAt, g.release)
            && (g.timedOut <==> e.timeout.Some? && e.timeout.value < g.release - e.bookAt)
  {
    BookingAdvances(c, 0.0, missing);
    BookingOf(c, b, e.n, e.refillAt, e.bookAt, missing);
  }

  // ----- Reading the level is harmless -----

  function WithoutReads(es: seq<Event>): seq<Event> {
    if es == [] then []
    else if Last(es).Read? then WithoutReads(DropLast(es))
    else WithoutReads(DropLast(es)) + [Last(es)]
  }

  lemma RefillTwice(c: Config, b: Bucket, t: real, u: real)
    requires c.Valid() && b.lastRefill <= t <= u
    ensures Refilled(c, Refilled(c, b, t), u) == Refilled(c, b, u)
  {
    EarnedAdds(c, b.lastRefill, t, u);
  }

  /** Reading available_tokens anywhere in a run changes no later wait, release or timeout. */
  lemma {:induction false} ReadsChangeNothing(c: Config, start: real, es: seq<Event>)
    requires c.Valid() && !c.mockMode && InOrder(start, es)
    ensures Grants(c, start, WithoutReads(es)) == Grants(c, start, es)
    ensures SameOnceRefilled(c, Run(c, start, WithoutReads(es)), Run(c, start, es))
    ensures Run(c, start, es).lastRefill <= LastTime(start, es)
  {
    if es != [] {
      ReadsChangeNothing(c, start, DropLast(es));
      var e, quietEs := Last(es), WithoutReads(DropLast(es));
      assert DropLast(quietEs + [e]) == quietEs && Last(quietEs + [e]) == e;
      SameAfter(c, Run(c, start, quietEs), Run(c, start, DropLast(es)), e);
    }
  }

  ghost predicate SameOnceRefilled(c: Config, quiet: Bucket, b: Bucket) {
    quiet.lastRefill <= b.lastRefill && quiet.nextRelease == b.nextRelease && b.tokens <= c.burst as real &&
    Refilled(c, quiet, b.lastRefill) == Refilled(c, b, b.lastRefill)
  }

  lemma SameAfter(c: Config, quiet: Bucket, b: Bucket, e: Event)
    requires c.Valid() && !c.mockMode && SameOnceRefilled(c, quiet, b) && b.lastRefill <= e.Begin() <= e.End()
    ensures SameOnceRefilled(c, if e.Read? then quiet else Step(c, quiet, e), Step(c, b, e))
    ensures Step(c, b, e).lastRefill == e.Begin()
    ensures e.Acquire? ==> GrantOf(c, quiet, e) == GrantOf(c, b, e)
  {
    RefillTwice(c, quiet, b.lastRefill, e.Begin());
    RefillTwice(c, b, b.lastRefill, e.Begin());
    assert Refilled(c, quiet, e.Begin()) == Refilled(c, b, e.Begin());
    var r := Refilled(c, b, e.Begin());
    RefillTwice(c, b, e.Begin(), e.Begin());
  }
}
