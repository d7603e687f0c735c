/** How often a ticker is fetched under the single-flight protocol (kis_price.py): bounds for every run, and the
  * ways in which a second fetch comes about. */
module Coalescing {
  import opened Prelude
  import opened TtlStore
  import opened SingleFlight

  // ----- How many fetch -----

  /** Past its last cache read, and yet to fetch: about to try the lock, or in the fetch section. */
  predicate BeforeFetch(pc: Pc) {
    pc.Missed? || pc.Fetching?
  }

  /** Where a caller for the ticker stands. */
  function PcFor(s: State, t: string, p: Pid): Option<Pc> {
    if p in s.procs && s.procs[p].ticker == t then Some(s.procs[p].pc) else None
  }

  predicate Pending(s: State, t: string, p: Pid) {
    PcFor(s, t, p).Some? && BeforeFetch(PcFor(s, t, p).value)
  }

  function PendingSet(s: State, t: string): set<Pid> {
    set p | p in s.procs && Pending(s, t, p)
  }

  predicate Fetches(s: State, a: Action, t: string) {
    a.Fetch? && a.p in s.procs && s.procs[a.p].ticker == t
  }

  /** While a detail lives in the cache, nobody comes to stand before a fetch who did not already; and whoever
    * fetches stands there no more. */
  lemma PendingOnlyShrinks(s: State, a: Action, t: string)
    requires Enabled(s, a) && Live(s.cache, t, s.now)
    ensures forall p | Pending(Next(s, a), t, p) :: Pending(s, t, p)
    ensures Fetches(s, a, t) ==> Pending(s, t, a.p) && !Pending(Next(s, a), t, a.p)
  {
    forall p | Pending(Next(s, a), t, p)
      ensures Pending(s, t, p)
    {
      if !Acts(a, p) {
        OthersUntouched(s, a);
      }
    }
  }

  /** From a state on, each state the Next of the one before, and a detail alive whenever an action is taken. */
  ghost predicate LivePath(states: seq<State>, actions: seq<Action>, t: string) {
    && |states| == |actions| + 1
    && forall i | 0 <= i < |actions| ::
         Enabled(states[i], actions[i]) && states[i + 1] == Next(states[i], actions[i]) && Live(states[i].cache, t, states[i].now)
  }

  function FetchCount(states: seq<State>, actions: seq<Action>, t: string): nat
    requires |states| == |actions| + 1
  {
    if actions == [] then 0
    else FetchCount(DropLast(states), DropLast(actions), t) + if Fetches(states[|actions| - 1], Last(actions), t) then 1 else 0
  }

  lemma PathPrefix(states: seq<State>, actions: seq<Action>, t: string)
    requires LivePath(states, actions, t) && actions != []
    ensures LivePath(DropLast(states), DropLast(actions), t)
  {
    var n, fewer := |actions| - 1, DropLast(actions);
    assert forall i | 0 <= i < n :: fewer[i] == actions[i];
  }

  lemma CountedOut(s: State, a: Action, t: string)
    requires Enabled(s, a) && Live(s.cache, t, s.now)
    ensures |PendingSet(Next(s, a), t)| + (if Fetches(s, a, t) then 1 else 0) <= |PendingSet(s, t)|
  {
    PendingOnlyShrinks(s, a, t);
    var left, before := PendingSet(Next(s, a), t), PendingSet(s, t);
    assert left <= before;
    if Fetches(s, a, t) {
      assert left <= before - {a.p} && a.p in before;
      Smaller(left, before - {a.p});
    } else {
      Smaller(left, before);
    }
  }

  lemma {:induction false} Smaller(a: set<Pid>, b: set<Pid>)
    requires a <= b
    ensures |a| <= |b|
  {
    if a != {} {
      var x :| x in a;
      Smaller(a - {x}, b - {x});
    }
  }

  /** Coalescing, counted: from any moment on, while a detail lives, a ticker is fetched at most once by each
    * caller that already stood between its last cache read and its fetch, and by nobody else. */
  lemma {:induction false} FetchesWhileDetailLives(states: seq<State>, actions: seq<Action>, t: string)
    requires LivePath(states, actions, t)
    ensures FetchCount(states, actions, t) + |PendingSet(Last(states), t)| <= |PendingSet(states[0], t)|
    ensures forall p | Pending(Last(states), t, p) :: Pending(states[0], t, p)
  {
    if actions != [] {
      var n := |actions| - 1;
      PathPrefix(states, actions, t);
      FetchesWhileDetailLives(DropLast(states), DropLast(actions), t);
      CountedOut(states[n], actions[n], t);
      PendingOnlyShrinks(states[n], actions[n], t);
    }
  }

  /** In every run: a fetch while the detail of an earlier write lives is by a caller whose last cache read
    * came before that write. */
  lemma LateFetchersReadBefore(states: seq<State>, actions: seq<Action>, i: nat, j: nat, ttl: int, t: string)
    requires IsRun(states, actions) && i < j < |actions|
    requires forall k | 0 <= k < |actions| && actions[k].Write? :: actions[k].ttl >= ttl
    requires actions[i].Write? && states[i].procs[actions[i].p].ticker == t
    requires Fetches(states[j], actions[j], t) && states[j].now <= states[i].now + ttl as real
    ensures Pending(states[i], t, actions[j].p)
    ensures forall r | i < r < j && (actions[r].ReadCache? || actions[r].Poll?) :: actions[r].p != actions[j].p
  {
    var p := actions[j].p;
    var k := j;
    while k > i + 1
      invariant i < k <= j && Pending(states[k], t, p)
      invariant forall r | k <= r < j && (actions[r].ReadCache? || actions[r].Poll?) :: actions[r].p != p
    {
      k := k - 1;
      CacheAfterWrite(states, actions, i, k, t, ttl);
      ClockRises(states, actions, k, j);
      PendingOnlyShrinks(states[k], actions[k], t);
    }
    assert states[i + 1] == Next(states[i], actions[i]);
    OthersUntouched(states[i], actions[i]);
  }

  lemma {:induction false} ClockRises(states: seq<State>, actions: seq<Action>, i: nat, j: nat)
    requires IsRun(states, actions) && i <= j < |states|
    ensures states[i].now <= states[j].now
  {
    if i < j {
      ClockRises(states, actions, i, j - 1);
      assert states[j] == Next(states[j - 1], actions[j - 1]);
    }
  }

  /** Whether the ticker can be fetched again before the detail is gone. */
  ghost predicate CanFetchAgain(s: State, t: string) {
    exists states: seq<State>, actions: seq<Action> ::
      && LivePath(states, actions, t) && states[0] == s && actions != []
      && Fetches(states[|actions| - 1], Last(actions), t)
  }

  /** Fetching right now, or about to try the lock. */
  predicate InFetch(s: State, t: string, p: Pid) {
    PcFor(s, t, p).Some? && PcFor(s, t, p).value.Fetching?
  }

  predicate AboutToTry(s: State, t: string, p: Pid) {
    PcFor(s, t, p) == Some(Missed)
  }

  /** A caller whose next steps write the detail again, or release the lock. */
  predicate Finishes(s: State, t: string, p: Pid) {
    p in s.procs && s.procs[p].ticker == t && (s.procs[p].pc.Writing? || (s.procs[p].pc.Leaving? && s.procs[p].pc.leader))
  }

  /** The lock can be found free while a detail lives: it is free, it expires first, or somebody is about to
    * release it or to prolong the detail. */
  ghost predicate LockMayBeFree(s: State, t: string)
    requires t in s.cache
  {
    !Live(s.locks, t, s.now) || s.locks[t].expiresAt < s.cache[t].expiresAt || exists p :: Finishes(s, t, p)
  }

  lemma PrependPath(s: State, a: Action, t: string, states: seq<State>, actions: seq<Action>)
    requires Enabled(s, a) && Live(s.cache, t, s.now)
    requires LivePath(states, actions, t) && states[0] == Next(s, a)
    ensures LivePath([s] + states, [a] + actions, t)
  {
    var states', actions' := [s] + states, [a] + actions;
    forall i | 0 <= i < |actions'|
      ensures Enabled(states'[i], actions'[i]) && states'[i + 1] == Next(states'[i], actions'[i])
      ensures Live(states'[i].cache, t, states'[i].now)
    {
      if i > 0 {
        assert states'[i] == states[i - 1] && actions'[i] == actions[i - 1];
      }
    }
  }

  lemma Prepend(s: State, a: Action, t: string)
    requires Enabled(s, a) && Live(s.cache, t, s.now) && CanFetchAgain(Next(s, a), t)
    ensures CanFetchAgain(s, t)
  {
    var states: seq<State>, actions: seq<Action> :|
      && LivePath(states, actions, t) && states[0] == Next(s, a) && actions != []
      && Fetches(states[|actions| - 1], Last(actions), t);
    PrependPath(s, a, t, states, actions);
    var states', actions' := [s] + states, [a] + actions;
    assert states'[|actions'| - 1] == states[|actions| - 1] && Last(actions') == Last(actions);
  }

  lemma FetcherFetches(s: State, t: string, p: Pid)
    requires Live(s.cache, t, s.now) && InFetch(s, t, p)
    ensures CanFetchAgain(s, t)
  {
    var fetch := Fetch(p, Nothing);
    var states, actions := [s, Next(s, fetch)], [fetch];
    assert LivePath(states, actions, t) && Fetches(states[0], actions[0], t);
  }

  lemma TriesAndFetches(s: State, t: string, q: Pid)
    requires Live(s.cache, t, s.now) && !Live(s.locks, t, s.now) && AboutToTry(s, t, q)
    ensures CanFetchAgain(s, t)
  {
    FetcherFetches(Next(s, TryLock(q)), t, q);
    Prepend(s, TryLock(q), t);
  }

  lemma OutlastsLock(s: State, t: string, q: Pid)
    requires Live(s.cache, t, s.now) && Live(s.locks, t, s.now) && AboutToTry(s, t, q)
    requires s.locks[t].expiresAt < s.cache[t].expiresAt
    ensures CanFetchAgain(s, t)
  {
    var wait := Tick(s.cache[t].expiresAt - s.now);
    TriesAndFetches(Next(s, wait), t, q);
    Prepend(s, wait, t);
  }

  lemma WriterProlongs(s: State, t: string, p: Pid, q: Pid)
    requires Live(s.cache, t, s.now) && Live(s.locks, t, s.now) && AboutToTry(s, t, q) && Finishes(s, t, p) && s.procs[p].pc.Writing?
    ensures CanFetchAgain(s, t)
  {
    var ttl := (s.locks[t].expiresAt - s.now).Floor + 1;
    assert ttl as real > s.locks[t].expiresAt - s.now;
    OutlastsLock(Next(s, Write(p, ttl)), t, q);
    Prepend(s, Write(p, ttl), t);
  }

  /** Nobody fetches or finishes, and the lock stands for as long as the detail lives. */
  ghost predicate LockedOut(s: State, t: string) {
    && t in s.cache && Live(s.locks, t, s.cache[t].expiresAt)
    && forall p :: !InFetch(s, t, p) && !Finishes(s, t, p)
  }

  lemma LockedOutKept(s: State, a: Action, t: string)
    requires LockedOut(s, t) && Enabled(s, a) && Live(s.cache, t, s.now)
    ensures LockedOut(Next(s, a), t) && !Fetches(s, a, t)
  {
    if !a.Tick? {
      assert !InFetch(s, t, a.p) && !Finishes(s, t, a.p);
    }
    forall q
      ensures !InFetch(Next(s, a), t, q) && !Finishes(Next(s, a), t, q)
    {
      assert !InFetch(s, t, q) && !Finishes(s, t, q);
      OthersUntouched(s, a);
    }
  }

  lemma {:induction false} LockedOutThroughout(states: seq<State>, actions: seq<Action>, t: string)
    requires LivePath(states, actions, t) && LockedOut(states[0], t)
    ensures LockedOut(Last(states), t)
  {
    if actions != [] {
      var n := |actions| - 1;
      PathPrefix(states, actions, t);
      LockedOutThroughout(DropLast(states), DropLast(actions), t);
      LockedOutKept(states[n], actions[n], t);
    }
  }

  lemma FetchersWerePending(s: State, t: string)
    requires CanFetchAgain(s, t)
    ensures !LockedOut(s, t) && exists p :: Pending(s, t, p)
  {
    var states: seq<State>, actions: seq<Action> :|
      && LivePath(states, actions, t) && states[0] == s && actions != []
      && Fetches(states[|actions| - 1], Last(actions), t);
    var n := |actions| - 1;
    PathPrefix(states, actions, t);
    FetchesWhileDetailLives(DropLast(states), DropLast(actions), t);
    PendingOnlyShrinks(states[n], actions[n], t);
    assert Pending(s, t, actions[n].p);
    if LockedOut(s, t) {
      LockedOutThroughout(DropLast(states), DropLast(actions), t);
      LockedOutKept(states[n], actions[n], t);
    }
  }

  /** Exactly when a ticker can be fetched again although a detail lives: a caller is in its fetch section
    * already, or one is about to try the lock and may find it free. */
  lemma FetchedAgainIff(s: State, t: string)
    requires Live(s.cache, t, s.now)
    ensures CanFetchAgain(s, t) <==>
              (exists p :: InFetch(s, t, p)) || ((exists q :: AboutToTry(s, t, q)) && LockMayBeFree(s, t))
  {
    if CanFetchAgain(s, t) {
      FetchersWerePending(s, t);
      var p :| Pending(s, t, p);
      assert InFetch(s, t, p) || AboutToTry(s, t, p);
    }
    if p :| InFetch(s, t, p) {
      FetcherFetches(s, t, p);
    } else if q :| AboutToTry(s, t, q) {
      if LockMayBeFree(s, t) {
        LockFreed(s, t, q);
      }
    }
  }

  lemma LockFreed(s: State, t: string, q: Pid)
    requires Live(s.cache, t, s.now) && AboutToTry(s, t, q) && LockMayBeFree(s, t)
    ensures CanFetchAgain(s, t)
  {
    if !Live(s.locks, t, s.now) {
      TriesAndFetches(s, t, q);
    } else if s.locks[t].expiresAt < s.cache[t].expiresAt {
      OutlastsLock(s, t, q);
    } else {
      var p :| Finishes(s, t, p);
      if s.procs[p].pc.Leaving? {
        TriesAndFetches(Next(s, Leave(p)), t, q);
        Prepend(s, Leave(p), t);
      } else {
        WriterProlongs(s, t, p, q);
      }
    }
  }

  /** The leader's last step leaves the lock free, so the condition is met as soon as one caller that missed
    * the cache has been slower to try the lock than the leader was to finish, or fetches already. */
  lemma LeaderLeavesLockFree(s: State, p: Pid)
    requires Enabled(s, Leave(p)) && Leads(s, p) && Live(s.cache, s.procs[p].ticker, s.now)
    ensures var s', t := Next(s, Leave(p)), s.procs[p].ticker;
            Live(s'.cache, t, s'.now) && !Live(s'.locks, t, s'.now) &&
            (CanFetchAgain(s', t) <==> exists q :: q != p && Pending(s, t, q))
  {
    var s', t := Next(s, Leave(p)), s.procs[p].ticker;
    FetchedAgainIff(s', t);
    OthersUntouched(s, Leave(p));
    forall q
      ensures InFetch(s', t, q) || AboutToTry(s', t, q) <==> q != p && Pending(s, t, q)
    {
    }
  }

  // ----- One fetch -----

  const PATIENCE := 0.08 * MAX_POLLS as real

  /** Nobody has tried the ticker's lock yet. */
  ghost predicate Untried(s: State, t: string) {
    && t !in s.locks
    && forall p | p in s.procs && s.procs[p].ticker == t :: s.procs[p].pc.Start? || s.procs[p].pc.Missed? || s.procs[p].pc.Done?
  }

  /** Since when p has led the ticker, if it does and nobody else does, and whoever polls began no earlier. */
  ghost function LeadSince(s: State, t: string, p: Pid): Option<real> {
    if Leads(s, p) && s.procs[p].ticker == t && IsLeadOf(s, t, p, s.procs[p].pc.since) then Some(s.procs[p].pc.since) else None
  }

  ghost predicate IsLeadOf(s: State, t: string, p: Pid, since: real) {
    && t in s.locks && s.locks[t].expiresAt == since + LOCK_TTL as real
    && forall q | q in s.procs && q != p && s.procs[q].ticker == t :: Joined(s.procs[q].pc, since)
  }

  /** p has led the ticker alone since that time, and is yet to write or leave. */
  ghost predicate LeadsAlone(s: State, t: string, p: Pid, since: real) {
    LeadSince(s, t, p) == Some(since)
  }

  predicate Joined(pc: Pc, since: real) {
    (pc.Polling? ==> pc.joined >= since) && (InSection(pc) ==> !pc.leader && pc.since >= since)
  }

  predicate TriesFor(s: State, a: Action, t: string) {
    a.TryLock? && a.p in s.procs && s.procs[a.p].ticker == t
  }

  lemma UntriedKept(s: State, a: Action, t: string)
    requires Untried(s, t) && Enabled(s, a) && !TriesFor(s, a, t)
    ensures Untried(Next(s, a), t) && !Fetches(s, a, t)
  {
  }

  lemma FirstTryLeads(s: State, p: Pid, t: string)
    requires Untried(s, t) && Enabled(s, TryLock(p)) && s.procs[p].ticker == t
    ensures LeadsAlone(Next(s, TryLock(p)), t, p, s.now) && Next(s, TryLock(p)).procs[p].pc.Fetching?
  {
  }

  predicate Concludes(a: Action, p: Pid) {
    (a.Write? || a.Leave?) && a.p == p
  }

  lemma LeadsAloneKept(s: State, a: Action, t: string, p: Pid, since: real)
    requires LeadsAlone(s, t, p, since) && Enabled(s, a) && !Concludes(a, p)
    requires s.now <= since + LOCK_TTL as real && since <= s.now
    ensures LeadsAlone(Next(s, a), t, p, since)
  {
    var s' := Next(s, a);
    OthersUntouched(s, a);
    forall q | q in s'.procs && q != p && s'.procs[q].ticker == t
      ensures Joined(s'.procs[q].pc, since)
    {
      assert Joined(s.procs[q].pc, since);
    }
  }

  /** In its first 3.04 seconds, nobody but the leader stands in the fetch section. */
  lemma OnlyLeaderFetches(s: State, t: string, p: Pid, since: real)
    requires LeadsAlone(s, t, p, since) && Patient(s) && s.now < since + PATIENCE
    ensures forall q | q != p :: !InFetch(s, t, q)
  {
    forall q | q in s.procs && q != p && s.procs[q].ticker == t
      ensures !s.procs[q].pc.Fetching?
    {
      assert Joined(s.procs[q].pc, since) && PcPatient(s.now, s.procs[q].pc);
    }
  }

  function Fetched(s: State, p: Pid): nat
    requires p in s.procs
  {
    if s.procs[p].pc.Fetching? then 0 else 1
  }

  /** A step in that time: the leader goes on leading, and a fetch of the ticker is its own, once. */
  lemma LeaderStep(s: State, a: Action, t: string, p: Pid, since: real)
    requires LeadsAlone(s, t, p, since) && Patient(s) && Enabled(s, a) && !Concludes(a, p)
    requires since <= s.now < since + PATIENCE
    ensures LeadsAlone(Next(s, a), t, p, since)
    ensures Fetched(Next(s, a), p) == Fetched(s, p) + if Fetches(s, a, t) then 1 else 0
    ensures Fetches(s, a, t) ==> a.p == p
  {
    OnlyLeaderFetches(s, t, p, since);
    LeadsAloneKept(s, a, t, p, since);
    OthersUntouched(s, a);
    if Fetches(s, a, t) {
      assert InFetch(s, t, a.p);
    }
  }

  lemma CountSnoc(states: seq<State>, actions: seq<Action>, n: nat, t: string)
    requires |states| == |actions| + 1 && n < |actions|
    ensures FetchCount(states[..n + 2], actions[..n + 1], t)
         == FetchCount(states[..n + 1], actions[..n], t) + if Fetches(states[n], actions[n], t) then 1 else 0
  {
    assert DropLast(states[..n + 2]) == states[..n + 1] && DropLast(actions[..n + 1]) == actions[..n];
  }

  /** Before the first try for the lock nobody fetches. */
  lemma {:induction false} NoFetchBeforeTry(states: seq<State>, actions: seq<Action>, n: nat, t: string)
    requires IsRun(states, actions) && n <= |actions| && forall k | 0 <= k < n :: !TriesFor(states[k], actions[k], t)
    ensures Untried(states[n], t) && FetchCount(states[..n + 1], actions[..n], t) == 0
  {
    if n > 0 {
      NoFetchBeforeTry(states, actions, n - 1, t);
      assert states[n] == Next(states[n - 1], actions[n - 1]);
      UntriedKept(states[n - 1], actions[n - 1], t);
      CountSnoc(states, actions, n - 1, t);
    }
  }

  /** Step i is the first try for the lock, by p at time `since`; and up to step n p has neither written nor
    * left, nor have 3.04 seconds gone by. */
  ghost predicate FirstLeads(states: seq<State>, actions: seq<Action>, i: nat, n: nat, t: string, p: Pid, since: real) {
    && IsRun(states, actions) && i < n <= |actions|
    && actions[i] == TryLock(p) && states[i].procs[p].ticker == t && states[i].now == since
    && (forall k | 0 <= k < i :: !TriesFor(states[k], actions[k], t))
    && (forall k | i < k < n :: !Concludes(actions[k], p) && states[k].now < since + PATIENCE)
  }

  ghost predicate CountedAt(states: seq<State>, actions: seq<Action>, n: nat, t: string, p: Pid, since: real)
    requires |states| == |actions| + 1 && n <= |actions|
  {
    && LeadsAlone(states[n], t, p, since) && since <= states[n].now
    && FetchCount(states[..n + 1], actions[..n], t) == Fetched(states[n], p)
  }

  lemma CountedStep(states: seq<State>, actions: seq<Action>, n: nat, s: State, a: Action, t: string, p: Pid, since: real)
    requires |states| == |actions| + 1 && n < |actions| && s == states[n] && a == actions[n]
    requires CountedAt(states, actions, n, t, p, since) && Patient(s) && Enabled(s, a) && states[n + 1] == Next(s, a)
    requires !Concludes(a, p) && s.now < since + PATIENCE
    ensures CountedAt(states, actions, n + 1, t, p, since)
  {
    CountSnoc(states, actions, n, t);
    LeaderStep(s, a, t, p, since);
    OthersUntouched(s, a);
  }

  lemma CountedFirst(states: seq<State>, actions: seq<Action>, i: nat, t: string, p: Pid)
    requires IsRun(states, actions) && i < |actions| && actions[i] == TryLock(p) && states[i].procs[p].ticker == t
    requires forall k | 0 <= k < i :: !TriesFor(states[k], actions[k], t)
    ensures CountedAt(states, actions, i + 1, t, p, states[i].now)
  {
    CountSnoc(states, actions, i, t);
    NoFetchBeforeTry(states, actions, i, t);
    FirstTryLeads(states[i], p, t);
    assert states[i + 1] == Next(states[i], actions[i]);
  }

  lemma CountedNext(states: seq<State>, actions: seq<Action>, i: nat, n: nat, t: string, p: Pid, since: real)
    requires FirstLeads(states, actions, i, n, t, p, since) && i + 1 < n && CountedAt(states, actions, n - 1, t, p, since)
    ensures CountedAt(states, actions, n, t, p, since)
  {
    PatientAt(states, actions, n - 1);
    CountedStep(states, actions, n - 1, states[n - 1], actions[n - 1], t, p, since);
  }

  lemma {:induction false} CountedUpTo(states: seq<State>, actions: seq<Action>, i: nat, n: nat, t: string, p: Pid, since: real)
    requires FirstLeads(states, actions, i, n, t, p, since)
    ensures CountedAt(states, actions, n, t, p, since)
    decreases n
  {
    if n == i + 1 {
      CountedFirst(states, actions, i, t, p);
    } else {
      CountedUpTo(states, actions, i, n - 1, t, p, since);
      CountedNext(states, actions, i, n, t, p, since);
    }
  }

  /** From the first try on: until the leader writes or leaves, and for 3.04 seconds, the ticker is fetched
    * once at most. */
  lemma OneFetchByLeader(states: seq<State>, actions: seq<Action>, i: nat, n: nat, t: string, p: Pid, since: real)
    requires FirstLeads(states, actions, i, n, t, p, since)
    ensures LeadsAlone(states[n], t, p, since) && since <= states[n].now
    ensures FetchCount(states[..n + 1], actions[..n], t) == Fetched(states[n], p) <= 1
  {
    CountedUpTo(states, actions, i, n, t, p, since);
  }

  lemma PatientAt(states: seq<State>, actions: seq<Action>, n: nat)
    requires IsRun(states, actions) && n <= |actions|
    ensures Patient(states[n])
  {
    SourcedAlways(states, actions);
  }

  /** And it is the leader who fetches it. */
  lemma FetchIsLeaders(states: seq<State>, actions: seq<Action>, i: nat, n: nat, t: string, p: Pid, since: real, k: nat)
    requires FirstLeads(states, actions, i, n, t, p, since) && k < n && Fetches(states[k], actions[k], t)
    ensures i < k && actions[k].p == p
  {
    if k <= i {
      NoFetchBeforeTry(states, actions, k, t);
      if k < i {
        UntriedKept(states[k], actions[k], t);
      }
    } else {
      OneFetchByLeader(states, actions, i, k, t, p, since);
      PatientAt(states, actions, k);
      LeaderStep(states[k], actions[k], t, p, since);
    }
  }

  function LosersAt(s: State, t: string): set<Pid> {
    set p | p in s.procs && AboutToTry(s, t, p)
  }

  lemma {:induction false} CountsAdd(states: seq<State>, actions: seq<Action>, m: nat, t: string)
    requires |states| == |actions| + 1 && m <= |actions|
    ensures FetchCount(states, actions, t) == FetchCount(states[..m + 1], actions[..m], t) + FetchCount(states[m..], actions[m..], t)
  {
    var n := |actions|;
    if m == n {
      assert states[..m + 1] == states && actions[..m] == actions;
    } else {
      var before, fewer := DropLast(states), DropLast(actions);
      CountsAdd(before, fewer, m, t);
      assert before[..m + 1] == states[..m + 1] && fewer[..m] == actions[..m];
      assert DropLast(states[m..]) == before[m..] && DropLast(actions[m..]) == fewer[m..];
    }
  }

  lemma CountSplit(states: seq<State>, actions: seq<Action>, w: nat, t: string)
    requires |states| == |actions| + 1 && w < |actions| && !Fetches(states[w], actions[w], t)
    ensures FetchCount(states, actions, t) == FetchCount(states[..w + 1], actions[..w], t) + FetchCount(states[w + 1..], actions[w + 1..], t)
  {
    CountSnoc(states, actions, w, t);
    CountsAdd(states, actions, w + 1, t);
  }

  lemma FetchesAfterWrite(states: seq<State>, actions: seq<Action>, w: nat, t: string)
    requires IsRun(states, actions) && w < |actions| && forall k | w < k < |actions| :: Live(states[k].cache, t, states[k].now)
    ensures FetchCount(states[w + 1..], actions[w + 1..], t) <= |PendingSet(states[w + 1], t)|
  {
    var after, rest := states[w + 1..], actions[w + 1..];
    assert LivePath(after, rest, t);
    FetchesWhileDetailLives(after, rest, t);
  }

  lemma PendingAreLosers(s: State, p: Pid, ttl: int, t: string, since: real)
    requires LeadsAlone(s, t, p, since) && Patient(s) && Enabled(s, Write(p, ttl)) && s.now < since + PATIENCE
    ensures |PendingSet(Next(s, Write(p, ttl)), t)| <= |LosersAt(s, t)|
  {
    var s' := Next(s, Write(p, ttl));
    OnlyLeaderFetches(s, t, p, since);
    OthersUntouched(s, Write(p, ttl));
    forall q | q in PendingSet(s', t)
      ensures AboutToTry(s, t, q)
    {
      assert Pending(s, t, q) && !InFetch(s, t, q);
    }
    Smaller(PendingSet(s', t), LosersAt(s, t));
  }

  /** What coalescing comes to, from the beginning of a run until the detail of the first leader is gone: if that
    * leader writes within 3.04 seconds, the ticker is fetched once, and once more at most for each caller that
    * at the write has missed the cache and is yet to try the lock. */
  lemma OneFetchPlusLosers(states: seq<State>, actions: seq<Action>, i: nat, w: nat, t: string, p: Pid, since: real)
    requires FirstLeads(states, actions, i, w, t, p, since) && w < |actions|
    requires actions[w].Write? && actions[w].p == p && states[w].now < since + PATIENCE
    requires forall k | w < k < |actions| :: Live(states[k].cache, t, states[k].now)
    ensures 1 <= FetchCount(states, actions, t) <= 1 + |LosersAt(states[w], t)|
  {
    OneFetchByLeader(states, actions, i, w, t, p, since);
    PatientAt(states, actions, w);
    CountSplit(states, actions, w, t);
    FetchesAfterWrite(states, actions, w, t);
    PendingAreLosers(states[w], p, actions[w].ttl, t, since);
    assert actions[w] == Write(p, actions[w].ttl) && states[w + 1] == Next(states[w], actions[w]);
  }

  // ----- More than one -----

  /** Some run leads here in which every leader is prompt, and, unless `leaving` is set, nobody leaves. */
  ghost predicate Reached(s: State, leaving: bool) {
    exists states: seq<State>, actions: seq<Action> :: PromptRun(states, actions, leaving) && Last(states) == s
  }

  ghost predicate PromptRun(states: seq<State>, actions: seq<Action>, leaving: bool) {
    && IsRun(states, actions)
    && (forall s <- states :: Prompt(s))
    && forall a <- actions :: leaving || !a.Leave?
  }

  lemma Extend(states: seq<State>, actions: seq<Action>, a: Action, leaving: bool)
    returns (states': seq<State>, actions': seq<Action>)
    requires PromptRun(states, actions, leaving) && Enabled(Last(states), a) && Prompt(Next(Last(states), a))
    requires leaving || !a.Leave?
    ensures states' == states + [Next(Last(states), a)] && actions' == actions + [a]
    ensures PromptRun(states', actions', leaving)
  {
    states', actions' := states + [Next(Last(states), a)], actions + [a];
    forall i | 0 <= i < |actions'|
      ensures Enabled(states'[i], actions'[i]) && states'[i + 1] == Next(states'[i], actions'[i])
    {
      if i == |actions| {
        assert states'[i] == Last(states);
      }
    }
  }

  lemma NextReached(s: State, a: Action, leaving: bool) returns (s': State)
    requires Reached(s, leaving) && Enabled(s, a) && Prompt(Next(s, a)) && (leaving || !a.Leave?)
    ensures s' == Next(s, a) && Reached(s', leaving)
  {
    var states: seq<State>, actions: seq<Action> :| PromptRun(states, actions, leaving) && Last(states) == s;
    states, actions := Extend(states, actions, a, leaving);
    s' := Last(states);
  }

  /** Both callers have missed the cache. */
  function BothMissed(t: string, now: real): State {
    State(now, map[], map[], map[0 := Proc(t, Missed), 1 := Proc(t, Missed)], {})
  }

  lemma BothMiss(t: string, now: real, leaving: bool)
    ensures Reached(BothMissed(t, now), leaving)
  {
    var s := State(now, map[], map[], map[0 := Proc(t, Start), 1 := Proc(t, Start)], {});
    assert PromptRun([s], [], leaving) && Last([s]) == s;
    s := NextReached(s, ReadCache(0), leaving);
    s := NextReached(s, ReadCache(1), leaving);
    assert s.procs == BothMissed(t, now).procs;
  }

  /** Caller 0 leads and has fetched. */
  function LeaderWrites(t: string, d: Detail, now: real): State {
    State(now, map[t := Entry("1", now + LOCK_TTL as real)], map[], map[0 := Proc(t, Writing(true, now, d)), 1 := Proc(t, Missed)], {(t, d)})
  }

  lemma LeadAndFetch(t: string, d: Detail, now: real)
    requires d.current > 0.0
    ensures Reached(LeaderWrites(t, d, now), true)
  {
    BothMiss(t, now, true);
    var s := NextReached(BothMissed(t, now), TryLock(0), true);
    s := NextReached(s, Fetch(0, Got(d)), true);
    assert s.procs == LeaderWrites(t, d, now).procs;
  }

  /** Caller 0 has led, written and left. */
  function LeaderLeft(t: string, d: Detail, ttl: int, now: real): State {
    State(now, map[], map[t := Entry(d, now + ttl as real)], map[0 := Proc(t, Done(Answer(Some(d)))), 1 := Proc(t, Missed)], {(t, d)})
  }

  lemma LeaderDone(t: string, d: Detail, ttl: int, now: real)
    requires d.current > 0.0
    ensures Reached(LeaderLeft(t, d, ttl, now), true)
  {
    LeadAndFetch(t, d, now);
    var s := NextReached(LeaderWrites(t, d, now), Write(0, ttl), true);
    s := NextReached(s, Leave(0), true);
    assert s.procs == LeaderLeft(t, d, ttl, now).procs && s.locks == map[];
  }

  /** A run of prompt leaders, in which nobody leaves unless `leaving` is set, ends with a fetch by p of the ticker
    * while a detail of it lives. */
  ghost predicate FetchesAgain(t: string, p: Pid, leaving: bool) {
    exists states: seq<State>, actions: seq<Action> ::
      && PromptRun(states, actions, leaving) && actions != []
      && var s, a := states[|actions| - 1], Last(actions);
         Live(s.cache, t, s.now) && Fetches(s, a, t) && a.p == p
  }

  lemma LastFetch(s: State, t: string, p: Pid, leaving: bool)
    requires Reached(s, leaving) && InFetch(s, t, p) && Live(s.cache, t, s.now) && Prompt(Next(s, Fetch(p, Nothing)))
    ensures FetchesAgain(t, p, leaving)
  {
    var states: seq<State>, actions: seq<Action> :| PromptRun(states, actions, leaving) && Last(states) == s;
    states, actions := Extend(states, actions, Fetch(p, Nothing), leaving);
  }

  /** Prompt leaders alone do not make for a single fetch: caller 1 missed the cache before the write, finds the lock
    * free after it, and fetches while the detail lives. */
  lemma LateLoserFetchesAgain(t: string, d: Detail, ttl: int, now: real)
    requires d.current > 0.0 && ttl > 0
    ensures FetchesAgain(t, 1, true)
  {
    LeaderDone(t, d, ttl, now);
    var s := NextReached(LeaderLeft(t, d, ttl, now), TryLock(1), true);
    LastFetch(s, t, 1, true);
  }

  function Waits(t: string, since: real, now: real, pc: Pc): State {
    State(now, map[t := Entry("1", since + LOCK_TTL as real)], map[], map[0 := Proc(t, Fetching(true, since, 0)), 1 := Proc(t, pc)], {})
  }

  lemma OneMorePoll(t: string, now: real, k: nat, at: real)
    requires k + 1 < MAX_POLLS && now <= at <= now + 4.0 && Reached(Waits(t, now, at, Polling(k, now, at)), false)
    ensures Reached(Waits(t, now, at + 0.08, Polling(k + 1, now, at + 0.08)), false)
  {
    var s := NextReached(Waits(t, now, at, Polling(k, now, at)), Tick(0.08), false);
    s := NextReached(s, Poll(1), false);
    assert s.procs == Waits(t, now, at + 0.08, Polling(k + 1, now, at + 0.08)).procs;
  }

  /** Caller 1 has found the lock taken and polled k times in vain; caller 0 is still fetching. */
  lemma {:induction false} PollsInVain(t: string, now: real, k: nat)
    requires k < MAX_POLLS
    ensures Reached(Waits(t, now, now + 0.08 * k as real, Polling(k, now, now + 0.08 * k as real)), false)
  {
    if k == 0 {
      BothMiss(t, now, false);
      var s := NextReached(BothMissed(t, now), TryLock(0), false);
      s := NextReached(s, TryLock(1), false);
      assert s.procs == Waits(t, now, now, Polling(0, now, now)).procs;
    } else {
      PollsInVain(t, now, k - 1);
      OneMorePoll(t, now, k - 1, now + 0.08 * (k - 1) as real);
    }
  }

  lemma GivenUp(t: string, now: real)
    ensures Reached(Waits(t, now, now + PATIENCE, Fetching(false, now, MAX_POLLS)), false)
  {
    var k, at := MAX_POLLS - 1, now + 0.08 * (MAX_POLLS - 1) as real;
    PollsInVain(t, now, k);
    var s := NextReached(Waits(t, now, at, Polling(k, now, at)), Tick(0.08), false);
    s := NextReached(s, Poll(1), false);
    assert s.procs == Waits(t, now, now + PATIENCE, Fetching(false, now, MAX_POLLS)).procs;
  }

  /** The other way to a second fetch, again with prompt leaders only, and without anybody having left: caller 1
    * finds the lock taken and polls 38 times in vain, within the lock's life; then caller 0 fetches and writes,
    * and caller 1 fetches while that detail lives. */
  lemma PatienceRunsOut(t: string, d: Detail, ttl: int, now: real)
    requires d.current > 0.0 && ttl > 0
    ensures FetchesAgain(t, 1, false)
  {
    GivenUp(t, now);
    var s := NextReached(Waits(t, now, now + PATIENCE, Fetching(false, now, MAX_POLLS)), Fetch(0, Got(d)), false);
    s := NextReached(s, Write(0, ttl), false);
    assert s.procs[1].pc == Fetching(false, now, MAX_POLLS);
    LastFetch(s, t, 1, false);
  }
}
