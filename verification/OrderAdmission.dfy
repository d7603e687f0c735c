/** The order gate of kis_order_place.py: at most five orders a minute for a user, and no second order
  * for the same portfolio and ticker within ten seconds.  Calls are taken one at a time on one live
  * store. */
module OrderAdmission {
  import opened Prelude
  import opened TtlStore

  const RATE_TTL: int := 60
  const RATE_MAX: nat := 5
  const LOCK_TTL: int := 10

  datatype Key = Rate(user: nat) | OrderLock(portfolio: nat, ticker: string)

  type Counters = Store<Key, nat>

  datatype Verdict = RateLimited | Duplicate | Admitted

  /** Zero stands for an absent user or portfolio id, which skips the check. */
  datatype Order = Order(user: nat, portfolio: nat, ticker: string, at: real)

  function Count(s: Counters, user: nat, now: real): nat {
    if Live(s, Rate(user), now) then s[Rate(user)].value else 0
  }

  function CheckedRate(s: Counters, user: nat, now: real): (Counters, bool) {
    var n := Count(s, user, now);
    if n >= RATE_MAX then (s, false) else (Put(s, Rate(user), RATE_TTL, n + 1, now), true)
  }

  function Locked(s: Counters, portfolio: nat, ticker: string, now: real): (Counters, bool) {
    var k := OrderLock(portfolio, ticker);
    if Live(s, k, now) then (s, false) else (Put(s, k, LOCK_TTL, 1, now), true)
  }

  /** The two checks in order; a duplicate has already been counted. */
  function Step(s: Counters, o: Order): (Counters, Verdict) {
    var (s1, allowed) := if o.user == 0 then (s, true) else CheckedRate(s, o.user, o.at);
    if !allowed then (s1, RateLimited)
    else
      var (s2, locked) := if o.portfolio == 0 then (s1, true) else Locked(s1, o.portfolio, o.ticker, o.at);
      (s2, if locked then Admitted else Duplicate)
  }

  /** What one submission meets and leaves, in the numbers of the source: it is refused when five passes of the user
    * are counted, and a duplicate when the position's lock stands; a missing id skips its check. A pass counts for a
    * minute, an admitted order locks its position for ten seconds, and nothing else changes. */
  lemma GateMeans(s: Counters, o: Order)
    ensures var (s', v) := Step(s, o);
            var rate, lock := Rate(o.user), OrderLock(o.portfolio, o.ticker);
            var n := if rate in s && o.at <= s[rate].expiresAt then s[rate].value else 0;
            && (v == RateLimited <==> o.user != 0 && n >= 5)
            && (v == Duplicate <==> v != RateLimited && o.portfolio != 0 && lock in s && o.at <= s[lock].expiresAt)
            && var counted := if v == RateLimited || o.user == 0 then s else s[rate := Entry(n + 1, o.at + 60.0)];
               s' == if v == Admitted && o.portfolio != 0 then counted[lock := Entry(1, o.at + 10.0)] else counted
  {
  }

  class OrderGate {
    var store: Counters

    constructor ()
      ensures store == map[]
    {
      store := map[];
    }

    method CheckRateLimit(user: nat, now: real) returns (ok: bool)
      modifies this
      ensures (store, ok) == CheckedRate(old(store), user, now)
    {
      var count := 0;
      var cached := Lookup(store, Rate(user), now);
      if cached.Some? {
        count := cached.value;
      }
      if count >= RATE_MAX {
        return false;
      }
      store := Put(store, Rate(user), RATE_TTL, count + 1, now);
      ok := true;
    }

    method AcquireOrderLock(portfolio: nat, ticker: string, now: real) returns (ok: bool)
      modifies this
      ensures (store, ok) == Locked(old(store), portfolio, ticker, now)
    {
      var existing := Lookup(store, OrderLock(portfolio, ticker), now);
      if existing.Some? {
        return false;
      }
      store := Put(store, OrderLock(portfolio, ticker), LOCK_TTL, 1, now);
      ok := true;
    }

    method Submit(o: Order) returns (v: Verdict)
      modifies this
      ensures (store, v) == Step(old(store), o)
    {
      if o.user != 0 {
        var allowed := CheckRateLimit(o.user, o.at);
        if !allowed {
          return RateLimited;
        }
      }
      if o.portfolio != 0 {
        var locked := AcquireOrderLock(o.portfolio, o.ticker, o.at);
        if !locked {
          return Duplicate;
        }
      }
      v := Admitted;
    }
  }

  // ----- Runs -----

  function Run(os: seq<Order>): Counters {
    if os == [] then map[] else Step(Run(DropLast(os)), Last(os)).0
  }

  function VerdictAt(os: seq<Order>, k: nat): Verdict
    requires k < |os|
  {
    Step(Run(os[..k]), os[k]).1
  }

  predicate InOrder(os: seq<Order>) {
    forall i, j | 0 <= i < j < |os| :: os[i].at <= os[j].at
  }

  /** The order got past the user's rate limit, whether or not it was then a duplicate. */
  predicate Passed(os: seq<Order>, k: nat, user: nat) {
    k < |os| && os[k].user == user && !VerdictAt(os, k).RateLimited?
  }

  /** When the user's orders passed the rate limit, oldest first. */
  function PassTimes(os: seq<Order>, user: nat): seq<real> {
    if os == [] then []
    else if Passed(os, |os| - 1, user) then PassTimes(DropLast(os), user) + [Last(os).at]
    else PassTimes(DropLast(os), user)
  }

  /** The counter is the length of the last burst, a maximal block of passes no more than 60 seconds apart. */
  ghost predicate CountsLastBurst(s: Counters, user: nat, ts: seq<real>) {
    if ts == [] then Rate(user) !in s
    else
      && Rate(user) in s
      && s[Rate(user)].expiresAt == Last(ts) + RATE_TTL as real
      && 1 <= s[Rate(user)].value <= RATE_MAX
      && s[Rate(user)].value <= |ts|
      && (var start := |ts| - s[Rate(user)].value;
          && (start > 0 ==> Gap(ts, start - 1))
          && forall i | start <= i < |ts| - 1 :: !Gap(ts, i))
  }

  /** More than 60 seconds pass without a pass. */
  ghost predicate Gap(ts: seq<real>, i: nat) {
    i + 1 < |ts| && ts[i + 1] > ts[i] + RATE_TTL as real
  }

  /** Somewhere among the passes from j to j + 5 there is such a gap. */
  ghost predicate Silence(ts: seq<real>, j: nat) {
    exists i: nat :: j <= i < j + RATE_MAX && Gap(ts, i)
  }

  ghost predicate Spread(ts: seq<real>) {
    && (forall i, j | 0 <= i < j < |ts| :: ts[i] <= ts[j])
    && (forall j: nat | j + RATE_MAX < |ts| :: Silence(ts, j))
  }

  lemma OnePass(s: Counters, user: nat, ts: seq<real>, now: real)
    requires CountsLastBurst(s, user, ts) && Spread(ts) && (ts != [] ==> Last(ts) <= now)
    requires CheckedRate(s, user, now).1
    ensures CountsLastBurst(CheckedRate(s, user, now).0, user, ts + [now]) && Spread(ts + [now])
  {
    var s', ts' := CheckedRate(s, user, now).0, ts + [now];
    var n := s'[Rate(user)].value;
    assert n == 1 || n == s[Rate(user)].value + 1;
    assert forall i | 0 <= i < |ts| - 1 :: Gap(ts', i) <==> Gap(ts, i);
    if |ts'| > n {
      assert Gap(ts', |ts'| - n - 1);
    }
    forall j: nat | j + RATE_MAX < |ts'|
      ensures Silence(ts', j)
    {
      if j + RATE_MAX < |ts| {
        assert Silence(ts, j);
        var i: nat :| j <= i < j + RATE_MAX && Gap(ts, i);
        assert Gap(ts', i);
      } else {
        assert j <= |ts'| - n - 1 < j + RATE_MAX;
      }
    }
  }

  ghost predicate SameCounter(s: Counters, s': Counters, user: nat) {
    (Rate(user) in s <==> Rate(user) in s') && (Rate(user) in s ==> s[Rate(user)] == s'[Rate(user)])
  }

  lemma LastOrderCounts(os: seq<Order>, user: nat)
    requires os != [] && user > 0
    ensures var before, o := Run(DropLast(os)), Last(os);
            if Passed(os, |os| - 1, user)
            then CheckedRate(before, user, o.at).1 && SameCounter(CheckedRate(before, user, o.at).0, Run(os), user)
            else SameCounter(before, Run(os), user)
  {
    assert os[..|os| - 1] == DropLast(os);
  }

  lemma SameBurst(s: Counters, s': Counters, user: nat, ts: seq<real>)
    requires SameCounter(s, s', user) && CountsLastBurst(s, user, ts)
    ensures CountsLastBurst(s', user, ts)
  {}

  lemma {:induction false} BurstsAreCounted(os: seq<Order>, user: nat)
    requires user > 0 && InOrder(os)
    ensures CountsLastBurst(Run(os), user, PassTimes(os, user)) && Spread(PassTimes(os, user))
    ensures PassTimes(os, user) != [] ==> os != [] && Last(PassTimes(os, user)) <= Last(os).at
  {
    if os != [] {
      var before, o := DropLast(os), Last(os);
      var s, ts := Run(before), PassTimes(before, user);
      BurstsAreCounted(before, user);
      LastOrderCounts(os, user);
      if Passed(os, |os| - 1, user) {
        OnePass(s, user, ts, o.at);
        SameBurst(CheckedRate(s, user, o.at).0, Run(os), user, ts + [o.at]);
      } else {
        SameBurst(s, Run(os), user, ts);
      }
    }
  }

  /** An order is refused exactly when the user's last five passes followed one another within 60 seconds
    * each, and the last of them is no more than 60 seconds ago. */
  lemma RefusedIffLastFiveChained(os: seq<Order>, j: nat)
    requires InOrder(os) && j < |os| && os[j].user > 0
    ensures var ts := PassTimes(os[..j], os[j].user);
            VerdictAt(os, j).RateLimited? <==>
              && |ts| >= RATE_MAX && os[j].at <= Last(ts) + RATE_TTL as real
              && forall i | |ts| - RATE_MAX <= i < |ts| - 1 :: !Gap(ts, i)
  {
    BurstsAreCounted(os[..j], os[j].user);
  }

  /** One order of the user every 59 seconds. */
  function SlowOrders(user: nat, n: nat): seq<Order> {
    seq(n, i requires 0 <= i < n => Order(user, 0, "", 59.0 * i as real))
  }

  lemma {:induction false} SlowOrdersCounted(user: nat, n: nat)
    requires user > 0 && 0 < n <= RATE_MAX
    ensures Rate(user) in Run(SlowOrders(user, n))
    ensures Run(SlowOrders(user, n))[Rate(user)] == Entry(n, 59.0 * (n - 1) as real + RATE_TTL as real)
  {
    assert DropLast(SlowOrders(user, n)) == SlowOrders(user, n - 1);
    if n > 1 {
      SlowOrdersCounted(user, n - 1);
    }
  }

  /** Five a minute is not what is counted: of orders placed 59 seconds apart the sixth is refused, with a
    * single one in the minute before it. */
  lemma SixthSlowOrderRefused(user: nat)
    requires user > 0
    ensures VerdictAt(SlowOrders(user, RATE_MAX + 1), RATE_MAX).RateLimited?
  {
    assert SlowOrders(user, RATE_MAX + 1)[..RATE_MAX] == SlowOrders(user, RATE_MAX);
    SlowOrdersCounted(user, RATE_MAX);
  }

  /** The k-th order's pass is in the list, after every earlier one. */
  lemma {:induction false} PassIsListed(os: seq<Order>, user: nat, k: nat)
    requires Passed(os, k, user)
    ensures var r := |PassTimes(os[..k], user)|;
            r < |PassTimes(os, user)| && PassTimes(os, user)[r] == os[k].at &&
            PassTimes(os[..k + 1], user) <= PassTimes(os, user)
  {
    if k == |os| - 1 {
      assert os[..k] == DropLast(os) && os[..k + 1] == os;
    } else {
      var before := DropLast(os);
      assert before[..k] == os[..k] && before[..k + 1] == os[..k + 1];
      PassIsListed(before, user, k);
    }
  }

  lemma {:induction false} ListGrows(os: seq<Order>, user: nat, i: nat, j: nat)
    requires i <= j <= |os|
    ensures |PassTimes(os[..i], user)| <= |PassTimes(os[..j], user)|
  {
    if i < j {
      ListGrows(os, user, i, j - 1);
      assert DropLast(os[..j]) == os[..j - 1];
    }
  }

  lemma PassesRankedInOrder(os: seq<Order>, user: nat, i: nat, j: nat)
    requires Passed(os, i, user) && i < j <= |os|
    ensures |PassTimes(os[..i], user)| < |PassTimes(os[..j], user)|
  {
    var upto := os[..i + 1];
    assert DropLast(upto) == os[..i] && Last(upto) == os[i] && upto[..i] == os[..i];
    assert Passed(upto, i, user);
    ListGrows(os, user, i + 1, j);
  }

  lemma {:induction false} RanksSpread(os: seq<Order>, user: nat, ks: seq<nat>, n: nat)
    requires n < |ks| && forall i | 0 <= i < |ks| :: Passed(os, ks[i], user)
    requires forall i, j | 0 <= i < j < |ks| :: ks[i] < ks[j]
    ensures ks[0] < |os| && ks[n] < |os|
    ensures |PassTimes(os[..ks[0]], user)| + n <= |PassTimes(os[..ks[n]], user)|
  {
    assert Passed(os, ks[0], user) && Passed(os, ks[n], user);
    if n > 0 {
      RanksSpread(os, user, ks, n - 1);
      PassesRankedInOrder(os, user, ks[n - 1], ks[n]);
    }
  }

  /** Any six orders of a user that get past the rate limit span more than 60 seconds, although the
    * counter's time to live restarts with each of them. */
  lemma SixOrdersSpanAMinute(os: seq<Order>, user: nat, ks: seq<nat>)
    requires user > 0 && InOrder(os) && |ks| == 6
    requires forall i | 0 <= i < |ks| :: ks[i] < |os| && Passed(os, ks[i], user)
    requires forall i, j | 0 <= i < j < |ks| :: ks[i] < ks[j]
    ensures os[Last(ks)].at - os[ks[0]].at > 60.0
  {
    BurstsAreCounted(os, user);
    RanksSpread(os, user, ks, 5);
    PassIsListed(os, user, ks[0]);
    PassIsListed(os, user, Last(ks));
    var ts := PassTimes(os, user);
    var first, last := |PassTimes(os[..ks[0]], user)|, |PassTimes(os[..Last(ks)], user)|;
    SixPassesSpan(ts, first, last);
  }

  lemma SixPassesSpan(ts: seq<real>, first: nat, last: nat)
    requires Spread(ts) && first + RATE_MAX <= last < |ts|
    ensures ts[last] - ts[first] > RATE_TTL as real
  {
    assert Silence(ts, first);
    var i: nat :| first <= i < first + RATE_MAX && Gap(ts, i);
    assert first == i || ts[first] <= ts[i];
    assert i + 1 == last || ts[i + 1] <= ts[last];
  }

  lemma {:induction false} LockOutlivesOrder(os: seq<Order>, i: nat)
    requires InOrder(os) && i < |os| && os[i].portfolio > 0 && VerdictAt(os, i).Admitted?
    ensures var k := OrderLock(os[i].portfolio, os[i].ticker);
            k in Run(os) && Run(os)[k].expiresAt >= os[i].at + LOCK_TTL as real
  {
    var before := DropLast(os);
    assert os[..|os| - 1] == before;
    if i < |os| - 1 {
      assert before[..i] == os[..i];
      LockOutlivesOrder(before, i);
    }
  }

  ghost predicate SamePosition(a: Order, b: Order) {
    a.portfolio == b.portfolio && a.ticker == b.ticker
  }

  lemma {:induction false} LockComesFromOrder(os: seq<Order>, portfolio: nat, ticker: string)
    requires portfolio > 0 && OrderLock(portfolio, ticker) in Run(os)
    ensures exists i :: 0 <= i < |os| && os[i].portfolio == portfolio && os[i].ticker == ticker && VerdictAt(os, i).Admitted? &&
              Run(os)[OrderLock(portfolio, ticker)].expiresAt == os[i].at + LOCK_TTL as real
  {
    var before, n, k := DropLast(os), |os| - 1, OrderLock(portfolio, ticker);
    assert os[..n] == before;
    if VerdictAt(os, n).Admitted? && os[n].portfolio == portfolio && os[n].ticker == ticker {
      assert Run(os)[k].expiresAt == os[n].at + LOCK_TTL as real;
    } else {
      LockComesFromOrder(before, portfolio, ticker);
      var i :| 0 <= i < |before| && before[i].portfolio == portfolio && before[i].ticker == ticker &&
               VerdictAt(before, i).Admitted? && Run(before)[k].expiresAt == before[i].at + LOCK_TTL as real;
      assert before[..i] == os[..i] && os[i] == before[i];
    }
  }

  /** An order within the limit is called a duplicate exactly when one for the same portfolio and ticker was
    * admitted no more than ten seconds before. */
  lemma DuplicateIffAdmittedJustBefore(os: seq<Order>, j: nat)
    requires InOrder(os) && j < |os| && os[j].portfolio > 0 && !VerdictAt(os, j).RateLimited?
    ensures VerdictAt(os, j).Duplicate? <==>
              exists i :: 0 <= i < j && SamePosition(os[i], os[j]) && VerdictAt(os, i).Admitted? && os[j].at <= os[i].at + 10.0
  {
    var before, k := os[..j], OrderLock(os[j].portfolio, os[j].ticker);
    if VerdictAt(os, j).Duplicate? {
      LockComesFromOrder(before, os[j].portfolio, os[j].ticker);
      var i :| 0 <= i < j && before[i].portfolio == os[j].portfolio && before[i].ticker == os[j].ticker &&
               VerdictAt(before, i).Admitted? && Run(before)[k].expiresAt == before[i].at + LOCK_TTL as real;
      assert before[..i] == os[..i] && SamePosition(os[i], os[j]);
    } else if i :| 0 <= i < j && SamePosition(os[i], os[j]) && VerdictAt(os, i).Admitted? && os[j].at <= os[i].at + 10.0 {
      SamePositionTenSecondsApart(os, i, j);
    }
  }

  /** Two admitted orders for one portfolio and ticker are more than ten seconds apart. */
  lemma SamePositionTenSecondsApart(os: seq<Order>, i: nat, j: nat)
    requires InOrder(os) && i < j < |os|
    requires os[i].portfolio == os[j].portfolio > 0 && os[i].ticker == os[j].ticker
    requires VerdictAt(os, i).Admitted? && VerdictAt(os, j).Admitted?
    ensures os[j].at - os[i].at > 10.0
  {
    assert os[..j][..i] == os[..i];
    LockOutlivesOrder(os[..j], i);
  }

  // ----- Calls that interleave -----

  /** How far a submission has come: each check is a read of the store and then a write. */
  datatype Progress = Begun | RateRead(n: nat) | RatePassed | LockRead | Ended(verdict: Verdict)

  /** Two submissions of the same order, at one moment. */
  datatype Pair = Pair(store: Counters, first: Progress, second: Progress)

  function Advanced(s: Counters, p: Progress, o: Order): (Counters, Progress) {
    match p
    case Begun => (s, if Count(s, o.user, o.at) >= RATE_MAX then Ended(RateLimited) else RateRead(Count(s, o.user, o.at)))
    case RateRead(n) => (Put(s, Rate(o.user), RATE_TTL, n + 1, o.at), RatePassed)
    case RatePassed => (s, if Live(s, OrderLock(o.portfolio, o.ticker), o.at) then Ended(Duplicate) else LockRead)
    case LockRead => (Put(s, OrderLock(o.portfolio, o.ticker), LOCK_TTL, 1, o.at), Ended(Admitted))
    case Ended(_) => (s, p)
  }

  /** A turn of each, the first submission before the second. */
  function BothAdvanced(pair: Pair, o: Order): Pair {
    var (s1, p1) := Advanced(pair.store, pair.first, o);
    var (s2, p2) := Advanced(s1, pair.second, o);
    Pair(s2, p1, p2)
  }

  function TurnByTurn(s: Counters, o: Order, turns: nat): Pair {
    if turns == 0 then Pair(s, Begun, Begun) else BothAdvanced(TurnByTurn(s, o, turns - 1), o)
  }

  /** Taken to the end without interruption, the four steps are a whole submission. */
  lemma UninterruptedIsStep(s: Counters, o: Order)
    requires o.user > 0 && o.portfolio > 0
    ensures var (s1, p1) := Advanced(s, Begun, o);
            var (s2, p2) := Advanced(s1, p1, o);
            var (s3, p3) := Advanced(s2, p2, o);
            var (s4, p4) := Advanced(s3, p3, o);
            p4.Ended? && (s4, p4.verdict) == Step(s, o)
  {
  }

  lemma BothCounted(s: Counters, o: Order)
    requires o.user > 0 && o.portfolio > 0 && Step(s, o).1.Admitted?
    ensures var n := Count(s, o.user, o.at);
            var counted := BothAdvanced(BothAdvanced(Pair(s, Begun, Begun), o), o);
            && counted.first == counted.second == RatePassed
            && Count(counted.store, o.user, o.at) == n + 1
            && !Live(counted.store, OrderLock(o.portfolio, o.ticker), o.at)
  {
    var n := Count(s, o.user, o.at);
    assert BothAdvanced(Pair(s, Begun, Begun), o) == Pair(s, RateRead(n), RateRead(n));
  }

  lemma BothLocked(s: Counters, o: Order)
    requires !Live(s, OrderLock(o.portfolio, o.ticker), o.at)
    ensures var locked := BothAdvanced(BothAdvanced(Pair(s, RatePassed, RatePassed), o), o);
            && locked.first == locked.second == Ended(Admitted)
            && Count(locked.store, o.user, o.at) == Count(s, o.user, o.at)
  {
    assert BothAdvanced(Pair(s, RatePassed, RatePassed), o) == Pair(s, LockRead, LockRead);
  }

  lemma OneTurnMore(s: Counters, o: Order, turns: nat)
    ensures TurnByTurn(s, o, turns + 1) == BothAdvanced(TurnByTurn(s, o, turns), o)
  {
  }

  /** Turn by turn, two submissions of one order are both admitted, whenever the first alone would be, and the
    * counter goes up by one only: each read comes before the other's write. */
  lemma BothAdmittedTogether(s: Counters, o: Order, turns: nat)
    requires o.user > 0 && o.portfolio > 0 && Step(s, o).1.Admitted? && turns == 4
    ensures var both := TurnByTurn(s, o, turns);
            && both.first == both.second == Ended(Admitted)
            && Count(both.store, o.user, o.at) == Count(s, o.user, o.at) + 1
  {
    OneTurnMore(s, o, turns - 4);
    OneTurnMore(s, o, turns - 3);
    OneTurnMore(s, o, turns - 2);
    OneTurnMore(s, o, turns - 1);
    BothCounted(s, o);
    BothLocked(TurnByTurn(s, o, turns - 2).store, o);
  }
}
