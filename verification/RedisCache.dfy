/** The Redis wrapper of redis_cache.py and the in-memory dictionary it falls back to. */
module RedisCache {
  import opened Prelude
  import opened TtlStore

  datatype Op =
    | Get(key: string)
    | Setex(key: string, ttl: int, value: string)
    | SetNx(key: string, ttl: int, value: string)
    | Delete(key: string)

  datatype Reply = Value(v: Option<string>) | Flag(b: bool) | Ack

  type Dict = Store<string, string>

  /** One operation on a dictionary that evicts only the key it touches. */
  function Apply(s: Dict, op: Op, now: real): (Dict, Reply) {
    match op
    case Get(k) => (Evict(s, k, now), Value(Lookup(s, k, now)))
    case Setex(k, ttl, v) => (Put(s, k, ttl, v, now), Ack)
    case SetNx(k, ttl, v) => if Live(s, k, now) then (s, Flag(false)) else (Put(s, k, ttl, v, now), Flag(true))
    case Delete(k) => (s - {k}, Ack)
  }

  class InMemoryFallback {
    var store: Dict

    constructor ()
      ensures store == map[]
    {
      store := map[];
    }

    method EvictExpired(key: string, now: real)
      modifies this
      ensures store == Evict(old(store), key, now) == if key in old(store) && old(store)[key].expiresAt < now then old(store) - {key} else old(store)
    {
      if key in store && now > store[key].expiresAt {
        store := store - {key};
      }
    }

    method Get(key: string, now: real) returns (r: Option<string>)
      modifies this
      ensures (store, Value(r)) == Apply(old(store), Op.Get(key), now)
    {
      EvictExpired(key, now);
      r := if key in store then Some(store[key].value) else None;
    }

    method Setex(key: string, ttl: int, value: string, now: real)
      modifies this
      ensures store == Apply(old(store), Op.Setex(key, ttl, value), now).0
    {
      store := store[key := Entry(value, now + ttl as real)];
    }

    method SetNx(key: string, ttl: int, value: string, now: real) returns (acquired: bool)
      modifies this
      ensures (store, Flag(acquired)) == Apply(old(store), Op.SetNx(key, ttl, value), now)
    {
      EvictExpired(key, now);
      if key in store {
        return false;
      }
      store := store[key := Entry(value, now + ttl as real)];
      assert store == Put(old(store), key, ttl, value, now);
      acquired := true;
    }

    method Delete(key: string)
      modifies this
      ensures forall now :: store == Apply(old(store), Op.Delete(key), now).0
    {
      store := store - {key};
    }
  }

  // ----- Lazy eviction refines an eagerly expiring map -----

  /** The specification: a plain map from which expired keys vanish by themselves. */
  function Eager(m: Dict, op: Op, now: real): (Dict, Reply) {
    var live := Purge(m, now);
    match op
    case Get(k) => (live, Value(if k in live then Some(live[k].value) else None))
    case Setex(k, ttl, v) => (live[k := Entry(v, now + ttl as real)], Ack)
    case SetNx(k, ttl, v) =>
      if k in live then (live, Flag(false)) else (live[k := Entry(v, now + ttl as real)], Flag(true))
    case Delete(k) => (live - {k}, Ack)
  }

  datatype Timed = Timed(op: Op, at: real)

  predicate InOrder(from: real, ops: seq<Timed>)
    decreases |ops|
  {
    ops != [] ==> from <= ops[0].at && InOrder(ops[0].at, ops[1..])
  }

  function LazyReplies(s: Dict, ops: seq<Timed>): seq<Reply>
    decreases |ops|
  {
    if ops == [] then []
    else
      var (s', r) := Apply(s, ops[0].op, ops[0].at);
      [r] + LazyReplies(s', ops[1..])
  }

  function EagerReplies(m: Dict, ops: seq<Timed>): seq<Reply>
    decreases |ops|
  {
    if ops == [] then []
    else
      var (m', r) := Eager(m, ops[0].op, ops[0].at);
      [r] + EagerReplies(m', ops[1..])
  }

  /** The two dictionaries hold the same live entries. */
  ghost predicate Agree(s: Dict, m: Dict, now: real) {
    forall k :: (Live(s, k, now) <==> Live(m, k, now)) && (Live(s, k, now) ==> s[k] == m[k])
  }

  lemma StepRefines(s: Dict, m: Dict, op: Op, now: real)
    requires Agree(s, m, now)
    ensures Apply(s, op, now).1 == Eager(m, op, now).1
    ensures Agree(Apply(s, op, now).0, Eager(m, op, now).0, now)
  {
    var s', m' := Apply(s, op, now).0, Eager(m, op, now).0;
    assert Live(s, op.key, now) <==> op.key in Purge(m, now);
    forall k
      ensures (Live(s', k, now) <==> Live(m', k, now)) && (Live(s', k, now) ==> s'[k] == m'[k])
    {
      assert Live(s, k, now) <==> Live(m, k, now);
      assert Live(Purge(m, now), k, now) <==> Live(m, k, now);
    }
  }

  lemma AgreeLater(s: Dict, m: Dict, now: real, later: real)
    requires Agree(s, m, now) && now <= later
    ensures Agree(s, m, later)
  {
    forall k
      ensures (Live(s, k, later) <==> Live(m, k, later)) && (Live(s, k, later) ==> s[k] == m[k])
    {
      assert Live(s, k, now) <==> Live(m, k, now);
    }
  }

  /** Whatever the sequence of operations, the lazily evicting dictionary answers exactly as the
    * eagerly expiring map does. */
  lemma {:induction false} LazyRefinesEager(s: Dict, m: Dict, from: real, ops: seq<Timed>)
    requires InOrder(from, ops) && Agree(s, m, from)
    ensures LazyReplies(s, ops) == EagerReplies(m, ops)
    decreases |ops|
  {
    if ops != [] {
      var op, at := ops[0].op, ops[0].at;
      AgreeLater(s, m, from, at);
      StepRefines(s, m, op, at);
      LazyRefinesEager(Apply(s, op, at).0, Eager(m, op, at).0, at, ops[1..]);
    }
  }

  // ----- Failover -----

  /** How the call to the Redis server went: it answered, it failed before the server acted, or the
    * server acted but the answer was lost. */
  datatype Link = Up | DownBefore | DownAfter

  datatype State = State(server: Dict, fallback: Dict, healthy: bool)

  /** The server rejects a non-positive time to live without acting. */
  predicate ServerRejects(op: Op) {
    (op.Setex? || op.SetNx?) && op.ttl <= 0
  }

  predicate ServerActs(op: Op, link: Link) {
    !link.DownBefore? && !ServerRejects(op)
  }

  predicate Answered(op: Op, link: Link) {
    link.Up? && !ServerRejects(op)
  }

  function Step(s: State, op: Op, now: real, link: Link): (State, Reply) {
    var server' := if ServerActs(op, link) then Apply(s.server, op, now).0 else s.server;
    if Answered(op, link) then
      (State(server', s.fallback, true), Apply(s.server, op, now).1)
    else
      (State(server', Apply(s.fallback, op, now).0, false), Apply(s.fallback, op, now).1)
  }

  /** The remote server, reached through a link that may fail. */
  class RedisServer {
    var store: Dict

    constructor ()
      ensures store == map[]
    {
      store := map[];
    }

    method Execute(op: Op, now: real, link: Link) returns (answered: bool, r: Reply)
      modifies this
      ensures store == if ServerActs(op, link) then Apply(old(store), op, now).0 else old(store)
      ensures answered == Answered(op, link)
      ensures answered ==> r == Apply(old(store), op, now).1
    {
      r := Ack;
      if ServerActs(op, link) {
        var outcome := Apply(store, op, now);
        store, r := outcome.0, outcome.1;
      }
      answered := Answered(op, link);
    }
  }

  class RedisCache {
    const server: RedisServer
    const fallback: InMemoryFallback
    var healthy: bool

    ghost function View(): State
      reads this, server, fallback
    {
      State(server.store, fallback.store, healthy)
    }

    constructor (server: RedisServer, fallback: InMemoryFallback)
      ensures this.server == server && this.fallback == fallback
      ensures View() == State(server.store, fallback.store, true)
    {
      this.server := server;
      this.fallback := fallback;
      healthy := true;
    }

    method Get(key: string, now: real, link: Link) returns (r: Option<string>)
      modifies this, server, fallback
      ensures (View(), Value(r)) == Step(old(View()), Op.Get(key), now, link)
    {
      var answered, reply := server.Execute(Op.Get(key), now, link);
      healthy := answered;
      if answered {
        r := reply.v;
      } else {
        r := fallback.Get(key, now);
      }
    }

    method Setex(key: string, ttl: int, value: string, now: real, link: Link)
      modifies this, server, fallback
      ensures View() == Step(old(View()), Op.Setex(key, ttl, value), now, link).0
    {
      var answered, _ := server.Execute(Op.Setex(key, ttl, value), now, link);
      healthy := answered;
      if !answered {
        fallback.Setex(key, ttl, value, now);
      }
    }

    method SetNx(key: string, ttl: int, value: string, now: real, link: Link) returns (acquired: bool)
      modifies this, server, fallback
      ensures (View(), Flag(acquired)) == Step(old(View()), Op.SetNx(key, ttl, value), now, link)
    {
      var answered, reply := server.Execute(Op.SetNx(key, ttl, value), now, link);
      healthy := answered;
      if answered {
        acquired := reply.b;
      } else {
        acquired := fallback.SetNx(key, ttl, value, now);
      }
    }

    method Delete(key: string, now: real, link: Link)
      modifies this, server, fallback
      ensures View() == Step(old(View()), Op.Delete(key), now, link).0
    {
      var answered, _ := server.Execute(Op.Delete(key), now, link);
      healthy := answered;
      if !answered {
        fallback.Delete(key);
      }
    }
  }

  // ----- Freshness over failures and recoveries -----

  /** A run also contains moments at which the server loses keys (restart, memory pressure). */
  datatype Event = Call(op: Op, at: real, link: Link) | Loss(keys: set<string>, at: real)

  datatype Write = Write(key: string, ttl: int, value: string, at: real)

  /** Whether the call stored its value in the server or in the fallback. */
  predicate Stored(s: State, e: Event)
    requires e.Call?
  {
    || e.op.Setex?
    || (e.op.SetNx? && ServerActs(e.op, e.link) && !Live(s.server, e.op.key, e.at))
    || (e.op.SetNx? && !Answered(e.op, e.link) && !Live(s.fallback, e.op.key, e.at))
  }

  function Next(s: State, e: Event): State {
    match e
    case Call(op, at, link) => Step(s, op, at, link).0
    case Loss(keys, _) => s.(server := s.server - keys)
  }

  const EMPTY := State(map[], map[], true)

  function Run(es: seq<Event>): State {
    if es == [] then EMPTY else Next(Run(DropLast(es)), Last(es))
  }

  function Writes(es: seq<Event>): set<Write> {
    if es == [] then {}
    else
      var e, s := Last(es), Run(DropLast(es));
      Writes(DropLast(es)) +
      if e.Call? && (e.op.Setex? || e.op.SetNx?) && Stored(s, e)
      then {Write(e.op.key, e.op.ttl, e.op.value, e.at)} else {}
  }

  predicate Ordered(es: seq<Event>) {
    es == [] || (Ordered(DropLast(es)) && (DropLast(es) == [] || Last(DropLast(es)).at <= Last(es).at))
  }

  /** What a call is recorded to have stored is in one of the stores. */
  lemma StoredIsThere(s: State, e: Event)
    requires e.Call? && (e.op.Setex? || e.op.SetNx?) && Stored(s, e)
    ensures var s', entry := Next(s, e), Entry(e.op.value, e.at + e.op.ttl as real);
            (e.op.key in s'.server && s'.server[e.op.key] == entry) || (e.op.key in s'.fallback && s'.fallback[e.op.key] == entry)
  {
  }

  ghost predicate Backed(s: Dict, ws: set<Write>) {
    forall k | k in s :: exists w :: w in ws && w.key == k && w.value == s[k].value && s[k].expiresAt == w.at + w.ttl as real
  }

  lemma ApplyBacked(s: Dict, ws: set<Write>, op: Op, now: real)
    requires Backed(s, ws)
    ensures var ws' := if op.Setex? || (op.SetNx? && !Live(s, op.key, now)) then ws + {Write(op.key, op.ttl, op.value, now)} else ws;
            Backed(Apply(s, op, now).0, ws')
  {
    var ws' := if op.Setex? || (op.SetNx? && !Live(s, op.key, now)) then ws + {Write(op.key, op.ttl, op.value, now)} else ws;
    var s' := Apply(s, op, now).0;
    forall k | k in s'
      ensures exists w :: w in ws' && w.key == k && w.value == s'[k].value && s'[k].expiresAt == w.at + w.ttl as real
    {
      if (op.Setex? || op.SetNx?) && k == op.key && !(op.SetNx? && Live(s, op.key, now)) {
        assert Write(op.key, op.ttl, op.value, now) in ws';
      } else {
        assert k in s && s'[k] == s[k];
      }
    }
  }

  lemma BackedGrows(s: Dict, ws: set<Write>, more: set<Write>)
    requires Backed(s, ws) && ws <= more
    ensures Backed(s, more)
  {
    forall k | k in s
      ensures exists w :: w in more && w.key == k && w.value == s[k].value && s[k].expiresAt == w.at + w.ttl as real
    {
      var w :| w in ws && w.key == k && w.value == s[k].value && s[k].expiresAt == w.at + w.ttl as real;
    }
  }

  lemma CallBacked(s: State, ws: set<Write>, more: set<Write>, e: Event)
    requires Backed(s.server, ws) && Backed(s.fallback, ws) && e.Call? && ws <= more
    requires (e.op.Setex? || e.op.SetNx?) && Stored(s, e) ==> Write(e.op.key, e.op.ttl, e.op.value, e.at) in more
    ensures Backed(Next(s, e).server, more) && Backed(Next(s, e).fallback, more)
  {
    BackedGrows(s.server, ws, more);
    BackedGrows(s.fallback, ws, more);
    ApplyBacked(s.server, more, e.op, e.at);
    ApplyBacked(s.fallback, more, e.op, e.at);
    if (e.op.Setex? || e.op.SetNx?) && Stored(s, e) {
      assert more + {Write(e.op.key, e.op.ttl, e.op.value, e.at)} == more;
    }
  }

  /** Every entry of either store stems from a recorded write of this run, in the past. */
  lemma {:induction false} RunBacked(es: seq<Event>)
    requires Ordered(es)
    ensures Backed(Run(es).server, Writes(es)) && Backed(Run(es).fallback, Writes(es))
    ensures forall w <- Writes(es) :: es != [] && w.at <= Last(es).at
  {
    if es != [] {
      var before, e := DropLast(es), Last(es);
      RunBacked(before);
      if e.Call? {
        CallBacked(Run(before), Writes(before), Writes(es), e);
      } else {
        BackedGrows(Run(before).server, Writes(before), Writes(es));
        BackedGrows(Run(before).fallback, Writes(before), Writes(es));
      }
    }
  }

  /** Whatever failed, recovered or was lost before, a value returned by get at time t was stored under
    * that key by an earlier setex or set_nx, no more than that call's time to live ago. */
  lemma ReadsAreFresh(es: seq<Event>, key: string, now: real, link: Link)
    requires Ordered(es) && (es != [] ==> Last(es).at <= now)
    ensures var reply := Step(Run(es), Get(key), now, link).1;
            reply.v.Some? ==>
              exists w :: w in Writes(es) && w.key == key && w.value == reply.v.value && w.at <= now <= w.at + w.ttl as real
  {
    RunBacked(es);
    var s := Run(es);
    var reply := Step(s, Get(key), now, link).1;
    if reply.v.Some? {
      var used := if Answered(Get(key), link) then s.server else s.fallback;
      var w :| w in Writes(es) && w.key == key && w.value == used[key].value && used[key].expiresAt == w.at + w.ttl as real;
      assert w.at <= now;
    }
  }

  // ----- When the latest write is the one read -----

  /** Events that leave the key alone: other keys, or reads, up to the given time. */
  ghost predicate LeavesAlone(e: Event, key: string, until: real) {
    match e
    case Call(op, at, _) => at <= until && (op.key != key || op.Get?)
    case Loss(keys, _) => key !in keys
  }

  function After(s: State, es: seq<Event>): State {
    if es == [] then s else Next(After(s, DropLast(es)), Last(es))
  }

  lemma ApplyLeavesAlone(s: Dict, op: Op, at: real, key: string, now: real)
    requires at <= now && (op.key != key || op.Get?)
    ensures Lookup(Apply(s, op, at).0, key, now) == Lookup(s, key, now)
  {
  }

  lemma {:induction false} QuietEventsKeep(s: State, es: seq<Event>, key: string, now: real)
    requires forall e <- es :: LeavesAlone(e, key, now)
    ensures Lookup(After(s, es).server, key, now) == Lookup(s.server, key, now)
    ensures Lookup(After(s, es).fallback, key, now) == Lookup(s.fallback, key, now)
  {
    if es != [] {
      var before, e := After(s, DropLast(es)), Last(es);
      assert e in es && forall x <- DropLast(es) :: x in es;
      QuietEventsKeep(s, DropLast(es), key, now);
      if e.Call? {
        ApplyLeavesAlone(before.server, e.op, e.at, key, now);
        ApplyLeavesAlone(before.fallback, e.op, e.at, key, now);
      }
    }
  }

  /** Exactly when a read returns the latest write: v is set over one link, other events follow, and a read
    * within the time to live goes over another link. It returns v if and only if it asks the store the write
    * went to: the server, unless that was down before acting; the fallback, unless the server answered. (Or
    * that store happened to hold v already.) */
  lemma LatestWriteReadIff(s: State, key: string, ttl: int, v: string, at: real, write: Link, es: seq<Event>, now: real, read: Link)
    requires ttl > 0 && at <= now <= at + ttl as real
    requires forall e <- es :: LeavesAlone(e, key, now)
    ensures var later := After(Next(s, Call(Setex(key, ttl, v), at, write)), es);
            Step(later, Get(key), now, read).1 == Value(Some(v)) <==>
              if read.Up? then !write.DownBefore? || Lookup(s.server, key, now) == Some(v)
              else !write.Up? || Lookup(s.fallback, key, now) == Some(v)
  {
    QuietEventsKeep(Next(s, Call(Setex(key, ttl, v), at, write)), es, key, now);
  }

  /** The same for set_nx, which stores only where no live entry stands. */
  lemma SetNxReadIff(s: State, key: string, ttl: int, v: string, at: real, write: Link, es: seq<Event>, now: real, read: Link)
    requires ttl > 0 && at <= now <= at + ttl as real
    requires forall e <- es :: LeavesAlone(e, key, now)
    ensures var later := After(Next(s, Call(SetNx(key, ttl, v), at, write)), es);
            Step(later, Get(key), now, read).1 == Value(Some(v)) <==>
              if read.Up? then (!write.DownBefore? && !Live(s.server, key, at)) || Lookup(s.server, key, now) == Some(v)
              else (!write.Up? && !Live(s.fallback, key, at)) || Lookup(s.fallback, key, now) == Some(v)
  {
    QuietEventsKeep(Next(s, Call(SetNx(key, ttl, v), at, write)), es, key, now);
  }

  /** And for delete: a later read finds nothing if and only if it asks a store that the delete reached, or one
    * that held nothing live anyway. A deleted key can so be read again after a failover. */
  lemma DeletedReadIff(s: State, key: string, at: real, write: Link, es: seq<Event>, now: real, read: Link)
    requires forall e <- es :: LeavesAlone(e, key, now)
    ensures var later := After(Next(s, Call(Delete(key), at, write)), es);
            Step(later, Get(key), now, read).1 == Value(None) <==>
              if read.Up? then !write.DownBefore? || Lookup(s.server, key, now) == None
              else !write.Up? || Lookup(s.fallback, key, now) == None
  {
    QuietEventsKeep(Next(s, Call(Delete(key), at, write)), es, key, now);
  }

  /** Freshness is all: after a failure, a get may return a value that a later setex has replaced. */
  lemma ReplacedValueMayReturn(key: string, older: string, newer: string, at: real)
    ensures var s := Next(Next(EMPTY, Call(Setex(key, 60, older), at, DownBefore)), Call(Setex(key, 60, newer), at, Up));
            && Step(s, Get(key), at, Up).1 == Value(Some(newer))
            && Step(s, Get(key), at, DownBefore).1 == Value(Some(older))
  {
    var s1 := Next(EMPTY, Call(Setex(key, 60, older), at, DownBefore));
    assert s1.fallback == map[key := Entry(older, at + 60.0)];
    var s2 := Next(s1, Call(Setex(key, 60, newer), at, Up));
    assert s2.server == map[key := Entry(newer, at + 60.0)];
  }

  // ----- Who gets the lock -----

  /** Over any link: set_nx answers true if and only if the store that answers, the server when it is reached and
    * accepts the time to live, else the fallback, holds no entry of the key that is still live; it then holds the
    * value until that time is over, and otherwise what it held. */
  lemma SetNxAnswers(s: State, key: string, ttl: int, v: string, now: real, link: Link)
    ensures var (s', r) := Step(s, SetNx(key, ttl, v), now, link);
            var byServer := link == Up && ttl > 0;
            var before := if byServer then s.server else s.fallback;
            var after := if byServer then s'.server else s'.fallback;
            && r == Flag(key in before ==> before[key].expiresAt < now)
            && after == (if r == Flag(true) then before[key := Entry(v, now + ttl as real)] else before)
  {
  }

  /** The wrapper counts the server as healthy exactly when it has just answered; a server that is not reached, or
    * rejects the time to live, keeps what it holds. */
  lemma HealthyIffAnswered(s: State, op: Op, now: real, link: Link)
    ensures Step(s, op, now, link).0.healthy <==> link == Up && ((op.Setex? || op.SetNx?) ==> op.ttl > 0)
    ensures link == DownBefore || ((op.Setex? || op.SetNx?) && op.ttl <= 0) ==> Step(s, op, now, link).0.server == s.server
  {
  }

  /** Takes the key away, or cuts its life short of the given time. */
  ghost predicate Clears(e: Event, key: string, until: real) {
    match e
    case Call(Delete(k), _, _) => k == key
    case Call(Setex(k, ttl, _), at, _) => k == key && at + ttl as real < until
    case Call(_, _, _) => false
    case Loss(keys, _) => key in keys
  }

  function StoreOf(s: State, onServer: bool): Dict {
    if onServer then s.server else s.fallback
  }

  lemma {:induction false} StandsUnlessCleared(s: State, es: seq<Event>, key: string, until: real, onServer: bool)
    requires Live(StoreOf(s, onServer), key, until) && forall e <- es :: e.at <= until && !Clears(e, key, until)
    ensures Live(StoreOf(After(s, es), onServer), key, until)
  {
    if es != [] {
      assert Last(es) in es && forall e <- DropLast(es) :: e in es;
      StandsUnlessCleared(s, DropLast(es), key, until, onServer);
    }
  }

  /** Exclusion by set_nx: whatever else happens in between, of two calls for a key that the same store answers
    * true, the second comes after the first one's time to live, or after the key was deleted, lost or overwritten
    * for a shorter time. */
  lemma SecondTrueAnswer(s: State, key: string, ttl: int, v: string, at: real, link: Link, es: seq<Event>,
                         again: Op, now: real, link': Link)
    requires again.SetNx? && again.key == key && forall e <- es :: e.at <= now
    requires (link == Up && ttl > 0) == (link' == Up && again.ttl > 0)
    requires Step(s, SetNx(key, ttl, v), at, link).1 == Flag(true)
    requires Step(After(Next(s, Call(SetNx(key, ttl, v), at, link)), es), again, now, link').1 == Flag(true)
    ensures now > at + ttl as real || exists e <- es :: Clears(e, key, now)
  {
    var first, onServer := Next(s, Call(SetNx(key, ttl, v), at, link)), link == Up && ttl > 0;
    SetNxAnswers(s, key, ttl, v, at, link);
    SetNxAnswers(After(first, es), key, again.ttl, again.value, now, link');
    if now <= at + ttl as real && forall e <- es :: !Clears(e, key, now) {
      StandsUnlessCleared(first, es, key, now, onServer);
    }
  }
}
