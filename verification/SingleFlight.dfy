/** Request coalescing of price details (kis_price.py): one caller takes a lock with a time to live and
  * fetches; those that find the lock taken poll the cache, and fetch for themselves only when they have
  * polled in vain.  A caller that missed the cache before the leader wrote, and tries the lock only after
  * the leader has released it, fetches too.
  *
  * Callers interleave at every await.  Store and clock are shared; a fetch returns anything, nothing,
  * or raises. */
module SingleFlight {
  import opened Prelude
  import opened TtlStore

  const LOCK_TTL: int := 5
  const POLL_INTERVAL_MS: int := 80
  const POLL_TIMEOUT_MS: int := 3000
  const MAX_POLLS: nat := 38

  datatype Detail = Detail(current: real, prevClose: Option<real>, dayChangeRate: Option<real>,
                           w52High: Option<real>, w52Low: Option<real>)

  datatype Reply = Answer(detail: Option<Detail>) | Raised

  datatype Pc =
    | Start
    | Missed                                            // the cache had nothing; set_nx comes next
    | Polling(polls: nat, joined: real, wokeAt: real)
    | Fetching(leader: bool, since: real, missed: nat)
    | Writing(leader: bool, since: real, d: Detail)     // the fetch succeeded; setex comes next
    | Leaving(leader: bool, since: real, reply: Reply)  // the finally block
    | Done(reply: Reply)

  datatype Proc = Proc(ticker: string, pc: Pc)

  type Pid = nat

  /** `fetched` remembers every usable detail a completed fetch has delivered. */
  datatype State = State(now: real, locks: Store<string, string>, cache: Store<string, Detail>,
                         procs: map<Pid, Proc>, fetched: set<(string, Detail)>)

  datatype FetchOutcome = Got(d: Detail) | Nothing | Failed

  datatype Action =
    | Tick(dt: real)
    | ReadCache(p: Pid)
    | TryLock(p: Pid)
    | Poll(p: Pid)
    | Fetch(p: Pid, outcome: FetchOutcome)
    | Write(p: Pid, ttl: int)
    | Leave(p: Pid)

  predicate InSection(pc: Pc) {
    pc.Fetching? || pc.Writing? || pc.Leaving?
  }

  predicate Leads(s: State, p: Pid) {
    p in s.procs && InSection(s.procs[p].pc) && s.procs[p].pc.leader
  }

  function AfterRead(s: State, t: string): Pc {
    match Lookup(s.cache, t, s.now)
    case Some(d) => Done(Answer(Some(d)))
    case None => Missed
  }

  function AfterTryLock(s: State, t: string): Pc {
    if Live(s.locks, t, s.now) then Polling(0, s.now, s.now) else Fetching(true, s.now, 0)
  }

  /** One turn of the polling loop: it has slept at least the interval, and now reads the cache. */
  function AfterPoll(s: State, t: string, pc: Pc): Pc
    requires pc.Polling?
  {
    match Lookup(s.cache, t, s.now)
    case Some(d) => Done(Answer(Some(d)))
    case None =>
      if (pc.polls + 1) * POLL_INTERVAL_MS < POLL_TIMEOUT_MS
      then Polling(pc.polls + 1, pc.joined, s.now)
      else Fetching(false, pc.joined, pc.polls + 1)
  }

  predicate Usable(outcome: FetchOutcome) {
    outcome.Got? && outcome.d.current > 0.0
  }

  function AfterFetch(pc: Pc, outcome: FetchOutcome): Pc
    requires pc.Fetching?
  {
    if Usable(outcome) then Writing(pc.leader, pc.since, outcome.d)
    else Leaving(pc.leader, pc.since, if outcome.Failed? then Raised else Answer(None))
  }

  function NextPc(s: State, a: Action): Pc
    requires !a.Tick? && Enabled(s, a)
  {
    var Proc(t, pc) := s.procs[a.p];
    match a
    case ReadCache(_) => AfterRead(s, t)
    case TryLock(_) => AfterTryLock(s, t)
    case Poll(_) => AfterPoll(s, t, pc)
    case Fetch(_, outcome) => AfterFetch(pc, outcome)
    case Write(_, _) => Leaving(pc.leader, pc.since, Answer(Some(pc.d)))
    case Leave(_) => Done(pc.reply)
  }

  /** set_nx by the winner; the leader's finally block deletes the lock without asking whose it is by now. */
  function NextLocks(s: State, a: Action): Store<string, string>
    requires !a.Tick? && Enabled(s, a)
  {
    var Proc(t, pc) := s.procs[a.p];
    if a.TryLock? && !Live(s.locks, t, s.now) then Put(s.locks, t, LOCK_TTL, "1", s.now)
    else if a.Leave? && pc.leader then s.locks - {t}
    else s.locks
  }

  function NextCache(s: State, a: Action): Store<string, Detail>
    requires !a.Tick? && Enabled(s, a)
  {
    var Proc(t, pc) := s.procs[a.p];
    if a.Write? then Put(s.cache, t, a.ttl, pc.d, s.now) else s.cache
  }

  function NextFetched(s: State, a: Action): set<(string, Detail)>
    requires !a.Tick? && Enabled(s, a)
  {
    if a.Fetch? && Usable(a.outcome) then s.fetched + {(s.procs[a.p].ticker, a.outcome.d)} else s.fetched
  }

  predicate Enabled(s: State, a: Action) {
    match a
    case Tick(dt) => dt >= 0.0
    case ReadCache(p) => p in s.procs && s.procs[p].pc.Start?
    case TryLock(p) => p in s.procs && s.procs[p].pc.Missed?
    case Poll(p) => p in s.procs && s.procs[p].pc.Polling? && s.procs[p].pc.wokeAt + 0.08 <= s.now
    case Fetch(p, _) => p in s.procs && s.procs[p].pc.Fetching?
    case Write(p, _) => p in s.procs && s.procs[p].pc.Writing?
    case Leave(p) => p in s.procs && s.procs[p].pc.Leaving?
  }

  function Next(s: State, a: Action): State
    requires Enabled(s, a)
  {
    if a.Tick? then s.(now := s.now + a.dt)
    else
      var moved := s.procs[a.p].(pc := NextPc(s, a));
      State(s.now, NextLocks(s, a), NextCache(s, a), s.procs[a.p := moved], NextFetched(s, a))
  }

  /** Every caller is about to start and both stores are empty. */
  predicate Initial(s: State) {
    s.locks == map[] && s.cache == map[] && s.fetched == {} && forall p | p in s.procs :: s.procs[p].pc.Start?
  }

  /** A run visits the states in order, each the Next of the one before under the action between them. */
  ghost predicate IsRun(states: seq<State>, actions: seq<Action>) {
    && |states| == |actions| + 1
    && Initial(states[0])
    && forall i | 0 <= i < |actions| :: Enabled(states[i], actions[i]) && states[i + 1] == Next(states[i], actions[i])
  }

  /** No leader is still in its section after its lock has expired. */
  predicate Prompt(s: State) {
    forall p | p in s.procs :: Leads(s, p) ==> s.now <= s.procs[p].pc.since + LOCK_TTL as real
  }

  // ----- Mutual exclusion of leaders -----

  ghost predicate LockHeld(s: State) {
    && (forall p | Leads(s, p) ::
          && s.procs[p].ticker in s.locks
          && s.locks[s.procs[p].ticker].expiresAt == s.procs[p].pc.since + LOCK_TTL as real)
    && (forall p, q | Leads(s, p) && Leads(s, q) && s.procs[p].ticker == s.procs[q].ticker :: p == q)
  }

  /** Apart from set_nx, a step makes no new leader and touches no other leader's lock. */
  lemma LeadersOnlyShrink(s: State, a: Action, p: Pid)
    requires LockHeld(s) && Enabled(s, a) && !a.TryLock? && Leads(Next(s, a), p)
    ensures var s' := Next(s, a);
            && Leads(s, p) && s'.procs[p].ticker == s.procs[p].ticker
            && s'.procs[p].pc.since == s.procs[p].pc.since
            && s'.procs[p].ticker in s'.locks
            && s'.locks[s'.procs[p].ticker] == s.locks[s.procs[p].ticker]
  {
    if a.Leave? && Leads(s, a.p) {
      assert a.p != p;
    }
  }

  lemma LockHeldKept(s: State, a: Action)
    requires LockHeld(s) && Enabled(s, a) && (a.TryLock? ==> Prompt(s))
    ensures LockHeld(Next(s, a))
  {
    if a.TryLock? {
      TryLockKeeps(s, a.p);
    } else {
      forall p | Leads(Next(s, a), p)
        ensures Leads(s, p) && Next(s, a).procs[p].ticker == s.procs[p].ticker
        ensures Next(s, a).procs[p].ticker in Next(s, a).locks
        ensures Next(s, a).locks[s.procs[p].ticker].expiresAt == Next(s, a).procs[p].pc.since + LOCK_TTL as real
      {
        LeadersOnlyShrink(s, a, p);
      }
    }
  }

  lemma TryLockKeeps(s: State, p: Pid)
    requires LockHeld(s) && Enabled(s, TryLock(p)) && Prompt(s)
    ensures LockHeld(Next(s, TryLock(p)))
  {
    var s' := Next(s, TryLock(p));
    forall q | q != p
      ensures Leads(s', q) <==> Leads(s, q)
      ensures q in s.procs ==> s'.procs[q] == s.procs[q]
    {}
    assert forall q | Leads(s, q) && s.procs[q].ticker == s.procs[p].ticker :: Live(s.locks, s.procs[p].ticker, s.now);
  }

  /** When every leader has finished by the expiry of its lock, no two callers for one ticker are ever
    * leaders at the same time. */
  lemma {:induction false} AtMostOneLeader(states: seq<State>, actions: seq<Action>)
    requires IsRun(states, actions)
    requires forall i | 0 <= i < |actions| :: Prompt(states[i])
    ensures forall i | 0 <= i < |states| :: LockHeld(states[i])
  {
    if actions != [] {
      var n := |actions|;
      var fewer := DropLast(actions);
      assert IsRun(states[..n], fewer) by {
        assert forall i | 0 <= i < n - 1 :: fewer[i] == actions[i];
      }
      AtMostOneLeader(states[..n], fewer);
      assert LockHeld(states[..n][n - 1]);
      LockHeldKept(states[n - 1], actions[n - 1]);
    }
  }

  /** Exactly when exclusion breaks: while p leads, another caller's set_nx makes a second leader for the
    * same ticker if and only if p has outlived its lock. */
  lemma SecondLeaderIffLockExpired(s: State, p: Pid, q: Pid)
    requires LockHeld(s) && Leads(s, p) && Enabled(s, TryLock(q)) && s.procs[q].ticker == s.procs[p].ticker
    ensures Leads(Next(s, TryLock(q)), p)
    ensures Leads(Next(s, TryLock(q)), q) <==> s.now > s.procs[p].pc.since + 5.0
  {}

  // ----- Where answers come from -----

  ghost predicate PcSourced(fetched: set<(string, Detail)>, t: string, pc: Pc) {
    && (pc.Writing? ==> (t, pc.d) in fetched)
    && ((pc.Leaving? || pc.Done?) && pc.reply.Answer? && pc.reply.detail.Some? ==> (t, pc.reply.detail.value) in fetched)
  }

  ghost predicate Sourced(s: State) {
    && (forall f <- s.fetched :: f.1.current > 0.0)
    && (forall t | t in s.cache :: (t, s.cache[t].value) in s.fetched)
    && (forall p | p in s.procs :: PcSourced(s.fetched, s.procs[p].ticker, s.procs[p].pc))
  }

  /** A caller that lost the lock fetches only after 38 polls, all empty, over at least 38 intervals. */
  ghost predicate PcPatient(now: real, pc: Pc) {
    && (pc.Polling? ==> pc.polls < MAX_POLLS && pc.joined + 0.08 * pc.polls as real <= pc.wokeAt <= now)
    && (pc.Fetching? && !pc.leader ==> pc.missed == MAX_POLLS && pc.since + 0.08 * MAX_POLLS as real <= now)
  }

  ghost predicate Patient(s: State) {
    forall p | p in s.procs :: PcPatient(s.now, s.procs[p].pc)
  }

  predicate Acts(a: Action, p: Pid) {
    !a.Tick? && a.p == p
  }

  lemma OthersUntouched(s: State, a: Action)
    requires Enabled(s, a)
    ensures Next(s, a).procs.Keys == s.procs.Keys
    ensures s.now <= Next(s, a).now && s.fetched <= Next(s, a).fetched
    ensures forall p | p in s.procs && !Acts(a, p) :: Next(s, a).procs[p] == s.procs[p]
    ensures forall p | p in s.procs :: Next(s, a).procs[p].ticker == s.procs[p].ticker
  {}

  lemma ActorKeeps(s: State, a: Action)
    requires Sourced(s) && Patient(s) && Enabled(s, a) && !a.Tick?
    ensures var s' := Next(s, a);
            PcSourced(s'.fetched, s'.procs[a.p].ticker, s'.procs[a.p].pc) && PcPatient(s'.now, s'.procs[a.p].pc)
  {
    assert PcSourced(s.fetched, s.procs[a.p].ticker, s.procs[a.p].pc) && PcPatient(s.now, s.procs[a.p].pc);
    if a.Poll? {
      var n := s.procs[a.p].pc.polls + 1;
      assert n * POLL_INTERVAL_MS < POLL_TIMEOUT_MS <==> n < MAX_POLLS;
    }
  }

  lemma AnswersAndPatienceKept(s: State, a: Action)
    requires Sourced(s) && Patient(s) && Enabled(s, a)
    ensures Sourced(Next(s, a)) && Patient(Next(s, a))
  {
    var s' := Next(s, a);
    OthersUntouched(s, a);
    forall p | p in s'.procs
      ensures PcSourced(s'.fetched, s'.procs[p].ticker, s'.procs[p].pc) && PcPatient(s'.now, s'.procs[p].pc)
    {
      if Acts(a, p) {
        ActorKeeps(s, a);
      } else {
        assert PcSourced(s.fetched, s.procs[p].ticker, s.procs[p].pc) && PcPatient(s.now, s.procs[p].pc);
      }
    }
  }

  /** In every run, with slow leaders too: an answered detail was delivered for that ticker by a completed
    * fetch and has a positive price, and no loser of the lock fetches before its 38th empty poll. */
  lemma {:induction false} AnswersAndPatience(states: seq<State>, actions: seq<Action>)
    requires IsRun(states, actions)
    ensures forall i | 0 <= i < |states| :: Sourced(states[i]) && Patient(states[i])
    ensures forall i, p | 0 <= i < |states| && p in states[i].procs && states[i].procs[p].pc.Done? ::
              var Proc(t, pc) := states[i].procs[p];
              pc.reply.Answer? && pc.reply.detail.Some? ==>
                (t, pc.reply.detail.value) in states[i].fetched && pc.reply.detail.value.current > 0.0
  {
    SourcedAlways(states, actions);
    forall i, p | 0 <= i < |states| && p in states[i].procs && states[i].procs[p].pc.Done?
      ensures var Proc(t, pc) := states[i].procs[p];
              pc.reply.Answer? && pc.reply.detail.Some? ==>
                (t, pc.reply.detail.value) in states[i].fetched && pc.reply.detail.value.current > 0.0
    {
      assert Sourced(states[i]);
      assert PcSourced(states[i].fetched, states[i].procs[p].ticker, states[i].procs[p].pc);
    }
  }

  lemma {:induction false} SourcedAlways(states: seq<State>, actions: seq<Action>)
    requires IsRun(states, actions)
    ensures forall i | 0 <= i < |states| :: Sourced(states[i]) && Patient(states[i])
  {
    if actions != [] {
      var n := |actions|;
      var fewer := DropLast(actions);
      assert IsRun(states[..n], fewer) by {
        assert forall i | 0 <= i < n - 1 :: fewer[i] == actions[i];
      }
      SourcedAlways(states[..n], fewer);
      assert Sourced(states[..n][n - 1]) && Patient(states[..n][n - 1]);
      AnswersAndPatienceKept(states[n - 1], actions[n - 1]);
    }
  }

  // ----- Coalescing over a run -----

  lemma CacheAfterWrite(states: seq<State>, actions: seq<Action>, i: nat, j: nat, t: string, ttl: int)
    requires IsRun(states, actions) && i < j < |states|
    requires forall k | 0 <= k < |actions| && actions[k].Write? :: actions[k].ttl >= ttl
    requires actions[i].Write? && states[i].procs[actions[i].p].ticker == t
    ensures states[i].now <= states[j].now
    ensures t in states[j].cache && states[j].cache[t].expiresAt >= states[i].now + ttl as real
    decreases j
  {
    if j > i + 1 {
      CacheAfterWrite(states, actions, i, j - 1, t, ttl);
      assert states[j] == Next(states[j - 1], actions[j - 1]);
    } else {
      assert states[j] == Next(states[i], actions[i]);
    }
  }

  /** For as long as a written detail lives, every caller of that ticker that reads the cache, at its start
    * or in a poll, is answered on the spot: only callers already past their last read can still fetch. */
  lemma AnsweredWhileDetailLives(states: seq<State>, actions: seq<Action>, i: nat, j: nat, ttl: int)
    requires IsRun(states, actions) && i < j < |actions|
    requires forall k | 0 <= k < |actions| && actions[k].Write? :: actions[k].ttl >= ttl
    requires actions[i].Write? && (actions[j].ReadCache? || actions[j].Poll?)
    requires states[j].procs[actions[j].p].ticker == states[i].procs[actions[i].p].ticker
    requires states[j].now <= states[i].now + ttl as real
    ensures var p := actions[j].p;
            var Proc(t, pc) := states[j + 1].procs[p];
            pc.Done? && pc.reply.Answer? && pc.reply.detail.Some? && (t, pc.reply.detail.value) in states[j + 1].fetched
  {
    CacheAfterWrite(states, actions, i, j, states[j].procs[actions[j].p].ticker, ttl);
    SourcedAlways(states, actions);
    assert states[j + 1] == Next(states[j], actions[j]);
    assert Sourced(states[j]);
  }

  // ----- The follower's polling loop -----

  /** The first view, among the first n, in which the cache held a detail. */
  ghost function FirstSeen(views: nat -> Option<Detail>, n: nat): Option<Detail> {
    if n == 0 then None
    else if FirstSeen(views, n - 1).Some? then FirstSeen(views, n - 1)
    else views(n)
  }

  /** views(k) is what the cache shows at the k-th poll. */
  method WaitForDetail(views: nat -> Option<Detail>) returns (r: Option<Detail>, polls: nat)
    ensures 1 <= polls <= MAX_POLLS
    ensures r == FirstSeen(views, MAX_POLLS)
    ensures r.Some? <==> exists k: nat :: 1 <= k <= MAX_POLLS && views(k).Some?
    ensures r.Some? ==> r == views(polls) && forall k: nat | 1 <= k < polls :: views(k).None?
    ensures r.None? ==> polls == MAX_POLLS
  {
    var elapsedMs := 0;
    polls := 0;
    while elapsedMs < POLL_TIMEOUT_MS
      invariant elapsedMs == polls * POLL_INTERVAL_MS && polls <= MAX_POLLS
      invariant FirstSeen(views, polls) == None
      invariant forall k: nat | 1 <= k <= polls :: views(k).None?
    {
      elapsedMs := elapsedMs + POLL_INTERVAL_MS;
      polls := polls + 1;
      var cached := views(polls);
      if cached.Some? {
        SeenStays(views, polls, MAX_POLLS);
        return cached, polls;
      }
    }
    r := None;
  }

  lemma {:induction false} SeenStays(views: nat -> Option<Detail>, k: nat, n: nat)
    requires k <= n && FirstSeen(views, k).Some?
    ensures FirstSeen(views, n) == FirstSeen(views, k)
  {
    if k < n {
      SeenStays(views, k, n - 1);
    }
  }

  /** In the interleaved protocol: a polling caller that finds the leader's detail live returns it and
    * never enters its own fetch. */
  lemma PollReturnsLeadersDetail(s: State, p: Pid)
    requires Enabled(s, Poll(p))
    ensures var t, s' := s.procs[p].ticker, Next(s, Poll(p));
            if Live(s.cache, t, s.now)
            then s'.procs[p].pc == Done(Answer(Some(s.cache[t].value))) && s'.fetched == s.fetched
            else !s'.procs[p].pc.Done? && (InSection(s'.procs[p].pc) <==> s.procs[p].pc.polls + 1 >= MAX_POLLS)
  {
    var n := s.procs[p].pc.polls + 1;
    assert n * POLL_INTERVAL_MS < POLL_TIMEOUT_MS <==> n < MAX_POLLS;
  }

  /** How a caller ends that fetches: with the detail, if the fetch got one with a positive price, by way of the
    * cache; with the exception, if the fetch raised; and with nothing otherwise. A leader
    * gives its lock back in every case, a follower touches none. */
  lemma FetchDecidesReply(s: State, p: Pid, outcome: FetchOutcome, ttl: int)
    requires Enabled(s, Fetch(p, outcome))
    ensures var s1 := Next(s, Fetch(p, outcome));
            if outcome.Got? && outcome.d.current > 0.0 then
              && Enabled(s1, Write(p, ttl))
              && var s2 := Next(s1, Write(p, ttl));
                 && s2.cache == s.cache[s.procs[p].ticker := Entry(outcome.d, s.now + ttl as real)]
                 && Enabled(s2, Leave(p)) && Next(s2, Leave(p)).procs[p].pc == Done(Answer(Some(outcome.d)))
                 && Next(s2, Leave(p)).locks == (if s.procs[p].pc.leader then s.locks - {s.procs[p].ticker} else s.locks)
            else
              && Enabled(s1, Leave(p)) && s1.cache == s.cache
              && Next(s1, Leave(p)).procs[p].pc == Done(if outcome == Failed then Raised else Answer(None))
              && Next(s1, Leave(p)).locks == (if s.procs[p].pc.leader then s.locks - {s.procs[p].ticker} else s.locks)
  {
  }
}
