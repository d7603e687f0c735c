/** Access-token issuance of kis_token.py for one app key: a cached token with its expiry, and
  * double-checked locking around the issuance.  Callers interleave at every await. */
module TokenIssue {
  import opened Prelude

  const ROTATION_BUFFER: int := 600
  const MIN_TTL: int := 60

  // ----- The cached format "{token}:::{expiry}" -----

  const SEPARATOR := ":::"

  predicate SeparatorAt(s: string, i: int) {
    0 <= i <= |s| - 3 && s[i] == ':' && s[i + 1] == ':' && s[i + 2] == ':'
  }

  /** Index of the leftmost separator at or after i, or |s|. */
  function FindFrom(s: string, i: nat): (r: nat)
    requires i <= |s|
    ensures i <= r <= |s|
    ensures r < |s| ==> SeparatorAt(s, r)
    ensures forall k | i <= k < r :: !SeparatorAt(s, k)
    decreases |s| - i
  {
    if i == |s| || SeparatorAt(s, i) then i else FindFrom(s, i + 1)
  }

  function Encode(token: string, expiry: string): string {
    token + SEPARATOR + expiry
  }

  /** (token, is_valid); toFloat is the number a string denotes, None when it denotes none. */
  function ParseCached(cached: string, toFloat: string -> Option<real>, now: real): (string, bool) {
    var i := FindFrom(cached, 0);
    if i == |cached| then (cached, true)
    else
      match toFloat(cached[i + 3..])
      case Some(expiresAt) => (cached[..i], expiresAt > now + ROTATION_BUFFER as real)
      case None => (cached[..i], true)
  }

  predicate Encodable(token: string) {
    (forall i | 0 <= i < |token| :: !SeparatorAt(token, i)) && (token != [] ==> Last(token) != ':')
  }

  /** No three colons in a row inside, and no colon at the end. */
  lemma EncodableMeans(token: string)
    ensures Encodable(token) <==>
              !(exists a: string, b: string :: token == a + ":::" + b) && !(exists a: string :: token == a + ":")
  {
    if i :| 0 <= i < |token| && SeparatorAt(token, i) {
      assert token == token[..i] + ":::" + token[i + 3..];
    }
    if token != [] && Last(token) == ':' {
      assert token == DropLast(token) + ":";
    }
    if a: string, b: string :| token == a + ":::" + b {
      assert SeparatorAt(token, |a|);
    }
  }

  lemma SeparatorReachesToken(token: string, expiry: string, i: nat)
    requires i < |token| && SeparatorAt(Encode(token, expiry), i)
    ensures SeparatorAt(token, i) || Last(token) == ':'
  {
    if i + 2 >= |token| {
      assert Encode(token, expiry)[|token| - 1] == Last(token);
    }
  }

  lemma LeftmostSeparator(token: string, expiry: string)
    ensures FindFrom(Encode(token, expiry), 0) == |token| <==> Encodable(token)
    ensures FindFrom(Encode(token, expiry), 0) <= |token|
  {
    var s := Encode(token, expiry);
    var i := FindFrom(s, 0);
    assert SeparatorAt(s, |token|);
    if i < |token| {
      SeparatorReachesToken(token, expiry, i);
    }
    if !Encodable(token) {
      if k :| 0 <= k < |token| && SeparatorAt(token, k) {
        assert SeparatorAt(s, k);
      } else {
        assert SeparatorAt(s, |token| - 1);
      }
    }
  }

  /** The cached format gives the token back exactly when the token has no separator inside and does not
    * end with a colon; it then gives the expiry back too. */
  lemma CachedRoundTrip(token: string, expiry: string, toFloat: string -> Option<real>, now: real)
    ensures ParseCached(Encode(token, expiry), toFloat, now).0 == token <==> Encodable(token)
    ensures Encodable(token) && toFloat(expiry).Some? ==>
              ParseCached(Encode(token, expiry), toFloat, now).1 == (toFloat(expiry).value > now + 600.0)
  {
    LeftmostSeparator(token, expiry);
    var s, n := Encode(token, expiry), |token|;
    var i := FindFrom(s, 0);
    assert SeparatorAt(s, n) && s[..n] == token && s[n + 3..] == expiry;
    assert i < |s| && |s[..i]| == i;
  }

  /** A text without the separator is all token, and one whose expiry is no number is taken as valid. */
  lemma UnreadableIsValid(text: string, token: string, expiry: string, toFloat: string -> Option<real>, now: real)
    ensures !(exists a: string, b: string :: text == a + ":::" + b) ==> ParseCached(text, toFloat, now) == (text, true)
    ensures Encodable(token) && toFloat(expiry) == None ==> ParseCached(token + ":::" + expiry, toFloat, now) == (token, true)
  {
    var i := FindFrom(text, 0);
    if i < |text| {
      assert text == text[..i] + ":::" + text[i + 3..];
    }
    LeftmostSeparator(token, expiry);
    var s := Encode(token, expiry);
    assert SeparatorAt(s, |token|) && s[..|token|] == token && s[|token| + 3..] == expiry;
  }

  // ----- The protocol -----

  type Pid = nat

  /** float(): the number a string denotes. */
  type ToFloat = string -> Option<real>

  /** What the endpoint issues: a token, and its expiry, which the cached text shows as `stamp`. */
  datatype Issue = Issue(token: string, stamp: string, expiresAt: real)

  /** What the store holds, and when it drops it. */
  datatype Cached = Cached(text: string, droppedAt: real)

  datatype Pc =
    | Start
    | Evicting          // the fast path saw a token inside the rotation buffer; delete comes next
    | Waiting           // about to take the per-key lock
    | Holding           // has the lock; the second read comes next
    | ReEvicting
    | Issuing
    | Storing(issue: Issue, ttl: int, asked: real)
    | Done(result: string)
    | Failed

  datatype State = State(now: real, cache: Option<Cached>, owner: Option<Pid>, procs: map<Pid, Pc>, issued: seq<Issue>)

  datatype Action =
    | Tick(dt: real)
    | FastRead(p: Pid)
    | Evict(p: Pid)
    | Lock(p: Pid)
    | ReRead(p: Pid)
    | ReEvict(p: Pid)
    | Ask(p: Pid, answer: Option<Issue>)   // the issuance endpoint; None stands for any exception
    | Store(p: Pid)

  /** What a cache read yields: the store drops entries past their time to live, an empty text counts as
    * nothing, and a token inside the rotation buffer is refused. */
  datatype Hit = Miss | Stale | Valid(token: string)

  function ReadCache(toFloat: ToFloat, s: State): Hit {
    if s.cache.None? || s.now > s.cache.value.droppedAt || s.cache.value.text == "" then Miss
    else
      var (token, valid) := ParseCached(s.cache.value.text, toFloat, s.now);
      if valid then Valid(token) else Stale
  }

  /** int() of the remaining life, but never less than a minute. */
  function TtlOf(expiresAt: real, now: real): int {
    var left := (expiresAt - now).Floor;
    if left >= MIN_TTL then left else MIN_TTL
  }

  function StoreTtl(ttl: int): int {
    if ttl - ROTATION_BUFFER >= MIN_TTL then ttl - ROTATION_BUFFER else MIN_TTL
  }

  /** A token is given the whole seconds it has left, and at least a minute, and is stored for ten minutes less than
    * that, and at least for one. */
  lemma TtlMeans(expiresAt: real, now: real)
    ensures var ttl := TtlOf(expiresAt, now);
            && ttl >= 60 && (expiresAt - now >= 60.0 || ttl > 60 ==> ttl as real <= expiresAt - now < ttl as real + 1.0)
            && StoreTtl(ttl) == if ttl >= 660 then ttl - 600 else 60
  {
  }

  predicate InLock(pc: Pc) {
    pc.Holding? || pc.ReEvicting? || pc.Issuing? || pc.Storing?
  }

  predicate Ready(toFloat: ToFloat, s: State, p: Pid, a: Action) {
    p in s.procs &&
    var pc := s.procs[p];
    match a
    case Tick(_) => false
    case FastRead(_) => pc.Start?
    case Evict(_) => pc.Evicting?
    case Lock(_) => pc.Waiting? && s.owner.None?
    case ReRead(_) => pc.Holding?
    case ReEvict(_) => pc.ReEvicting?
    case Ask(_, answer) => pc.Issuing? && (answer.Some? ==> toFloat(answer.value.stamp) == Some(answer.value.expiresAt))
    case Store(_) => pc.Storing?
  }

  predicate Enabled(toFloat: ToFloat, s: State, a: Action) {
    if a.Tick? then a.dt >= 0.0 else Ready(toFloat, s, a.p, a)
  }

  function NextPc(toFloat: ToFloat, s: State, a: Action): Pc
    requires !a.Tick? && Enabled(toFloat, s, a)
  {
    match a
    case FastRead(_) => (match ReadCache(toFloat, s) case Miss => Waiting case Stale => Evicting case Valid(k) => Done(k))
    case Evict(_) => Waiting
    case Lock(_) => Holding
    case ReRead(_) => (match ReadCache(toFloat, s) case Miss => Issuing case Stale => ReEvicting case Valid(k) => Done(k))
    case ReEvict(_) => Issuing
    case Ask(_, answer) =>
      if answer.None? then Failed else Storing(answer.value, TtlOf(answer.value.expiresAt, s.now), s.now)
    case Store(_) => Done(s.procs[a.p].issue.token)
  }

  function Stored(s: State, issue: Issue, ttl: int): Cached {
    Cached(Encode(issue.token, issue.stamp), s.now + StoreTtl(ttl) as real)
  }

  function Next(toFloat: ToFloat, s: State, a: Action): State
    requires Enabled(toFloat, s, a)
  {
    if a.Tick? then s.(now := s.now + a.dt)
    else
      var pc, pc' := s.procs[a.p], NextPc(toFloat, s, a);
      var cache' :=
        if a.Evict? || a.ReEvict? then None else if a.Store? then Some(Stored(s, pc.issue, pc.ttl)) else s.cache;
      var owner' := if InLock(pc') then Some(a.p) else if InLock(pc) then None else s.owner;
      var issued' := if a.Ask? && a.answer.Some? then s.issued + [a.answer.value] else s.issued;
      State(s.now, cache', owner', s.procs[a.p := pc'], issued')
  }

  /** An empty cache, a free lock and callers that have yet to start. */
  predicate Initial(s: State) {
    s.cache.None? && s.owner.None? && s.issued == [] && forall p | p in s.procs :: s.procs[p].Start?
  }

  ghost predicate IsRun(toFloat: ToFloat, states: seq<State>, actions: seq<Action>) {
    && |states| == |actions| + 1
    && Initial(states[0])
    && forall i | 0 <= i < |actions| ::
         Enabled(toFloat, states[i], actions[i]) && states[i + 1] == Next(toFloat, states[i], actions[i])
  }

  /** The stored token, if any, is still held by the store and outside the rotation buffer. */
  predicate Usable(toFloat: ToFloat, s: State) {
    s.cache.Some? ==> ReadCache(toFloat, s).Valid?
  }

  predicate AllEncodable(issued: seq<Issue>) {
    forall issue <- issued :: Encodable(issue.token)
  }

  // ----- Exactly one issuance -----

  /** A cached token is read back as itself, in a store that still holds it, if and only if it is encodable. */
  lemma CachedTokenReadBack(toFloat: ToFloat, s: State, token: string, stamp: string)
    requires s.cache.Some? && s.cache.value.text == Encode(token, stamp) && s.now <= s.cache.value.droppedAt
    ensures !ReadCache(toFloat, s).Miss?
    ensures ReadCache(toFloat, s) == Valid(token) ==> Encodable(token)
    ensures Encodable(token) && toFloat(stamp).Some? ==>
              ReadCache(toFloat, s) == if toFloat(stamp).value > s.now + ROTATION_BUFFER as real then Valid(token) else Stale
  {
    CachedRoundTrip(token, stamp, toFloat, s.now);
    assert |Encode(token, stamp)| >= 3;
  }

  ghost predicate PcConsistent(s: State, p: Pid, pc: Pc) {
    && (InLock(pc) <==> s.owner == Some(p))
    && !pc.Evicting? && !pc.ReEvicting?
    && (pc.Issuing? ==> s.issued == [])
    && (pc.Storing? ==> s.issued == [pc.issue] && s.cache.None?)
    && (pc.Done? ==> |s.issued| == 1 && pc.result == s.issued[0].token)
  }

  ghost predicate SingleIssue(s: State) {
    && |s.issued| <= 1
    && (s.owner.Some? ==> s.owner.value in s.procs)
    && (forall p | p in s.procs :: PcConsistent(s, p, s.procs[p]))
    && (s.cache.Some? ==> |s.issued| == 1 && s.cache.value.text == Encode(s.issued[0].token, s.issued[0].stamp))
    && (s.cache.None? && s.issued != [] ==> s.owner.Some? && s.procs[s.owner.value].Storing?)
  }

  /** A usable entry is read as the one token issued. */
  lemma ReadsTheIssued(toFloat: ToFloat, s: State)
    requires SingleIssue(s) && Usable(toFloat, s) && AllEncodable(s.issued) && s.cache.Some?
    ensures ReadCache(toFloat, s) == Valid(s.issued[0].token)
  {
    assert s.issued[0] in s.issued;
    CachedRoundTrip(s.issued[0].token, s.issued[0].stamp, toFloat, s.now);
  }

  lemma SingleIssueKept(toFloat: ToFloat, s: State, a: Action)
    requires SingleIssue(s) && Usable(toFloat, s) && AllEncodable(s.issued) && Enabled(toFloat, s, a)
    ensures SingleIssue(Next(toFloat, s, a))
  {
    if s.cache.Some? {
      ReadsTheIssued(toFloat, s);
    }
    if !a.Tick? {
      SingleIssueActed(toFloat, s, a, ReadCache(toFloat, s));
    } else {
      var s' := Next(toFloat, s, a);
      assert forall p | p in s.procs :: PcConsistent(s, p, s.procs[p]) ==> PcConsistent(s', p, s'.procs[p]);
    }
  }

  lemma SingleIssueActed(toFloat: ToFloat, s: State, a: Action, hit: Hit)
    requires SingleIssue(s) && Enabled(toFloat, s, a) && !a.Tick? && hit == ReadCache(toFloat, s)
    requires hit == if s.cache.Some? then Valid(s.issued[0].token) else Miss
    ensures SingleIssue(Next(toFloat, s, a))
  {
    var s' := Next(toFloat, s, a);
    assert PcConsistent(s, a.p, s.procs[a.p]);
    assert PcConsistent(s', a.p, s'.procs[a.p]);
    forall p | p in s'.procs
      ensures PcConsistent(s', p, s'.procs[p])
    {
      if p != a.p {
        assert PcConsistent(s, p, s.procs[p]);
      }
    }
  }

  ghost predicate AllServed(s: State) {
    forall p | p in s.procs && s.procs[p].Done? :: |s.issued| == 1 && s.procs[p].result == s.issued[0].token
  }

  lemma SingleIssueServes(s: State)
    requires SingleIssue(s)
    ensures AllServed(s)
  {
    forall p | p in s.procs && s.procs[p].Done?
      ensures |s.issued| == 1 && s.procs[p].result == s.issued[0].token
    {
      assert PcConsistent(s, p, s.procs[p]);
    }
  }

  /** From an empty cache with nobody mid-eviction, as long as the stored token stays usable and can be
    * encoded: any number of callers cause at most one issuance, exactly one as soon as anyone has returned,
    * and everyone who returns gets that token. */
  lemma {:induction false} OneIssuance(toFloat: ToFloat, states: seq<State>, actions: seq<Action>)
    requires IsRun(toFloat, states, actions)
    requires forall i | 0 <= i < |actions| :: Usable(toFloat, states[i]) && AllEncodable(states[i].issued)
    ensures forall i | 0 <= i < |states| :: SingleIssue(states[i]) && AllServed(states[i])
  {
    var n := |actions|;
    if n > 0 {
      RunPrefix(toFloat, states, actions);
      OneIssuance(toFloat, states[..n], DropLast(actions));
      assert SingleIssue(states[..n][n - 1]);
      SingleIssueKept(toFloat, states[n - 1], actions[n - 1]);
    }
    SingleIssueServes(states[n]);
    forall i | 0 <= i < n
      ensures SingleIssue(states[i]) && AllServed(states[i])
    {
      assert states[i] == states[..n][i];
    }
  }

  lemma RunPrefix(toFloat: ToFloat, states: seq<State>, actions: seq<Action>)
    requires IsRun(toFloat, states, actions) && actions != []
    ensures IsRun(toFloat, DropLast(states), DropLast(actions))
  {
    assert forall i | 0 <= i < |actions| - 1 :: DropLast(actions)[i] == actions[i];
  }

  // ----- How long the stored token is usable -----

  /** The store keeps a token until `slack` seconds before its expiry. */
  ghost predicate KeptUntil(s: State, slack: real) {
    && (s.cache.Some? ==> |s.issued| == 1 && s.cache.value.droppedAt >= s.issued[0].expiresAt - slack)
    && (forall p | p in s.procs && s.procs[p].Storing? ::
          s.procs[p].ttl == TtlOf(s.procs[p].issue.expiresAt, s.procs[p].asked) && s.procs[p].asked <= s.now)
  }

  function Fraction(x: real): real {
    x - x.Floor as real
  }

  /** Asking and storing are far enough apart to make up for what int() cuts off the remaining life, or the
    * store keeps the token its minimal minute anyway. */
  predicate CutMadeUp(expiresAt: real, asked: real, stored: real) {
    expiresAt - asked < (ROTATION_BUFFER + MIN_TTL) as real || stored - asked >= Fraction(expiresAt - asked)
  }

  lemma DropTime(expiresAt: real, asked: real, stored: real)
    requires asked <= stored
    ensures var droppedAt := stored + StoreTtl(TtlOf(expiresAt, asked)) as real;
            && droppedAt >= stored + MIN_TTL as real
            && droppedAt >= expiresAt - (ROTATION_BUFFER + 1) as real
            && (droppedAt >= expiresAt - ROTATION_BUFFER as real <==> CutMadeUp(expiresAt, asked, stored))
  {
    var left := expiresAt - asked;
    assert left.Floor as real <= left < left.Floor as real + 1.0;
  }

  /** Exactly when the store holds a token for as long as it is outside the rotation buffer: every read in
    * that time is answered, if and only if the cut-off part of the remaining life has been made up. */
  lemma AnsweredUntilBufferIff(toFloat: ToFloat, issue: Issue, asked: real, stored: real)
    requires Encodable(issue.token) && toFloat(issue.stamp) == Some(issue.expiresAt)
    requires asked <= stored < issue.expiresAt - ROTATION_BUFFER as real
    ensures (forall t: real | stored <= t < issue.expiresAt - ROTATION_BUFFER as real ::
               ReadAt(toFloat, issue, asked, stored, t) == Valid(issue.token))
       <==> CutMadeUp(issue.expiresAt, asked, stored)
  {
    var droppedAt := stored + StoreTtl(TtlOf(issue.expiresAt, asked)) as real;
    DropTime(issue.expiresAt, asked, stored);
    forall t: real | stored <= t < issue.expiresAt - ROTATION_BUFFER as real
      ensures ReadAt(toFloat, issue, asked, stored, t) == Valid(issue.token) <==> t <= droppedAt
    {
      ReadsWhileKept(toFloat, issue, asked, stored, t);
    }
    if !CutMadeUp(issue.expiresAt, asked, stored) {
      var t := (droppedAt + (issue.expiresAt - ROTATION_BUFFER as real)) / 2.0;
      assert ReadAt(toFloat, issue, asked, stored, t) != Valid(issue.token);
    }
  }

  /** The read at time t of a token asked for and stored at the given times. */
  function ReadAt(toFloat: ToFloat, issue: Issue, asked: real, stored: real, t: real): Hit {
    var droppedAt := stored + StoreTtl(TtlOf(issue.expiresAt, asked)) as real;
    ReadCache(toFloat, State(t, Some(Cached(Encode(issue.token, issue.stamp), droppedAt)), None, map[], [issue]))
  }

  lemma ReadsWhileKept(toFloat: ToFloat, issue: Issue, asked: real, stored: real, t: real)
    requires Encodable(issue.token) && toFloat(issue.stamp) == Some(issue.expiresAt)
    ensures var droppedAt := stored + StoreTtl(TtlOf(issue.expiresAt, asked)) as real;
            ReadAt(toFloat, issue, asked, stored, t) ==
              if t > droppedAt then Miss else if issue.expiresAt > t + ROTATION_BUFFER as real then Valid(issue.token) else Stale
  {
    CachedRoundTrip(issue.token, issue.stamp, toFloat, t);
    assert |Encode(issue.token, issue.stamp)| >= 3;
  }

  ghost predicate StoresKeep(s: State, a: Action, slack: real) {
    a.Store? && a.p in s.procs && s.procs[a.p].Storing? ==>
      var pc := s.procs[a.p];
      slack == (ROTATION_BUFFER + 1) as real ||
      (slack == ROTATION_BUFFER as real && CutMadeUp(pc.issue.expiresAt, pc.asked, s.now))
  }

  lemma KeptUntilKept(toFloat: ToFloat, s: State, a: Action, slack: real)
    requires SingleIssue(s) && KeptUntil(s, slack) && Enabled(toFloat, s, a) && StoresKeep(s, a, slack)
    requires SingleIssue(Next(toFloat, s, a))
    ensures KeptUntil(Next(toFloat, s, a), slack)
  {
    if a.Store? {
      var pc := s.procs[a.p];
      assert PcConsistent(s, a.p, pc);
      DropTime(pc.issue.expiresAt, pc.asked, s.now);
    }
  }

  lemma KeptIsUsable(toFloat: ToFloat, s: State, slack: real)
    requires SingleIssue(s) && KeptUntil(s, slack) && AllEncodable(s.issued)
    requires forall issue <- s.issued ::
               && toFloat(issue.stamp) == Some(issue.expiresAt)
               && s.now + slack <= issue.expiresAt && s.now + ROTATION_BUFFER as real < issue.expiresAt
    ensures Usable(toFloat, s)
  {
    if s.cache.Some? {
      var issue := s.issued[0];
      assert issue in s.issued;
      CachedTokenReadBack(toFloat, s, issue.token, issue.stamp);
    }
  }

  /** As long as the issued token is outside the rotation buffer, and more than `slack` from its expiry. */
  predicate Early(s: State, slack: real) {
    forall issue <- s.issued ::
      s.now + slack <= issue.expiresAt && s.now + ROTATION_BUFFER as real < issue.expiresAt && Encodable(issue.token)
  }

  ghost predicate StampsHold(toFloat: ToFloat, s: State) {
    forall issue <- s.issued :: toFloat(issue.stamp) == Some(issue.expiresAt)
  }

  lemma {:induction false} OneIssuanceWithin(toFloat: ToFloat, states: seq<State>, actions: seq<Action>, slack: real)
    requires IsRun(toFloat, states, actions)
    requires forall i | 0 <= i < |actions| :: Early(states[i], slack) && StoresKeep(states[i], actions[i], slack)
    ensures forall i | 0 <= i < |states| :: SingleIssue(states[i]) && KeptUntil(states[i], slack) && StampsHold(toFloat, states[i])
  {
    var n := |actions|;
    if n > 0 {
      RunPrefix(toFloat, states, actions);
      OneIssuanceWithin(toFloat, states[..n], DropLast(actions), slack);
      var s := states[n - 1];
      assert s == states[..n][n - 1] && Early(s, slack) && StoresKeep(s, actions[n - 1], slack);
      OneStepWithin(toFloat, s, actions[n - 1], slack);
      forall i | 0 <= i < n
        ensures SingleIssue(states[i]) && KeptUntil(states[i], slack) && StampsHold(toFloat, states[i])
      {
        assert states[i] == states[..n][i];
      }
    }
  }

  lemma OneStepWithin(toFloat: ToFloat, s: State, a: Action, slack: real)
    requires SingleIssue(s) && KeptUntil(s, slack) && StampsHold(toFloat, s) && Early(s, slack)
    requires Enabled(toFloat, s, a) && StoresKeep(s, a, slack)
    ensures var s' := Next(toFloat, s, a); SingleIssue(s') && KeptUntil(s', slack) && StampsHold(toFloat, s')
  {
    KeptIsUsable(toFloat, s, slack);
    SingleIssueKept(toFloat, s, a);
    KeptUntilKept(toFloat, s, a, slack);
  }

  /** Stated on the clock alone: until 601 seconds before the issued token expires, one issuance, and all who
    * have returned got that token. */
  lemma OneIssuanceByTheClock(toFloat: ToFloat, states: seq<State>, actions: seq<Action>)
    requires IsRun(toFloat, states, actions)
    requires forall i, k | 0 <= i < |actions| && 0 <= k < |states[i].issued| ::
               && states[i].now + (ROTATION_BUFFER + 1) as real <= states[i].issued[k].expiresAt
               && Encodable(states[i].issued[k].token)
    ensures forall i | 0 <= i < |states| :: SingleIssue(states[i]) && AllServed(states[i])
  {
    var slack := (ROTATION_BUFFER + 1) as real;
    forall i | 0 <= i < |actions|
      ensures Early(states[i], slack) && StoresKeep(states[i], actions[i], slack)
    {
    }
    OneIssuanceWithin(toFloat, states, actions, slack);
    forall i | 0 <= i < |states| {
      SingleIssueServes(states[i]);
    }
  }

  /** Up to the rotation buffer itself: one issuance in every run whose stores make up for the cut-off part. */
  lemma OneIssuanceOutsideBuffer(toFloat: ToFloat, states: seq<State>, actions: seq<Action>)
    requires IsRun(toFloat, states, actions)
    requires forall i, k | 0 <= i < |actions| && 0 <= k < |states[i].issued| ::
               && states[i].now + ROTATION_BUFFER as real < states[i].issued[k].expiresAt
               && Encodable(states[i].issued[k].token)
    requires forall i | 0 <= i < |actions| && actions[i].Store? ::
               var pc := states[i].procs[actions[i].p];
               CutMadeUp(pc.issue.expiresAt, pc.asked, states[i].now)
    ensures forall i | 0 <= i < |states| :: SingleIssue(states[i]) && AllServed(states[i])
  {
    var slack := ROTATION_BUFFER as real;
    forall i | 0 <= i < |actions|
      ensures Early(states[i], slack) && StoresKeep(states[i], actions[i], slack)
    {
    }
    OneIssuanceWithin(toFloat, states, actions, slack);
    forall i | 0 <= i < |states| {
      SingleIssueServes(states[i]);
    }
  }

  // ----- Runs that issue more than once -----

  ghost predicate Reachable(toFloat: ToFloat, s: State) {
    exists states: seq<State>, actions: seq<Action> :: IsRun(toFloat, states, actions) && Last(states) == s
  }

  lemma NextReached(toFloat: ToFloat, s: State, a: Action) returns (s': State)
    requires Reachable(toFloat, s) && Enabled(toFloat, s, a)
    ensures s' == Next(toFloat, s, a) && Reachable(toFloat, s')
  {
    s' := Next(toFloat, s, a);
    var states: seq<State>, actions: seq<Action> :| IsRun(toFloat, states, actions) && Last(states) == s;
    var states', actions' := states + [s'], actions + [a];
    forall i | 0 <= i < |actions'|
      ensures Enabled(toFloat, states'[i], actions'[i]) && states'[i + 1] == Next(toFloat, states'[i], actions'[i])
    {
      if i == |actions| {
        assert states'[i] == Last(states);
      }
    }
    assert IsRun(toFloat, states', actions') && Last(states') == s';
  }

  /** p has asked for a token and been given that issue, and is about to store it. */
  function Asked(s: State, cache: Option<Cached>, p: Pid, issue: Issue): State {
    State(s.now, cache, Some(p), s.procs[p := Storing(issue, TtlOf(issue.expiresAt, s.now), s.now)], s.issued + [issue])
  }

  /** A caller that waits for the lock and finds nothing in the store issues. */
  lemma WaiterAsks(toFloat: ToFloat, s: State, p: Pid, issue: Issue)
    requires Reachable(toFloat, s) && toFloat(issue.stamp) == Some(issue.expiresAt)
    requires p in s.procs && s.procs[p].Waiting? && s.owner.None? && ReadCache(toFloat, s).Miss?
    ensures Reachable(toFloat, Asked(s, s.cache, p, issue))
  {
    var s' := NextReached(toFloat, s, Lock(p));
    s' := NextReached(toFloat, s', ReRead(p));
    assert s' == State(s.now, s.cache, Some(p), s.procs[p := Issuing], s.issued);
    s' := NextReached(toFloat, s', Ask(p, Some(issue)));
    assert s'.procs == Asked(s, s.cache, p, issue).procs;
  }

  lemma IssuerStores(toFloat: ToFloat, s: State, p: Pid, wait: real) returns (s': State)
    requires Reachable(toFloat, s) && wait >= 0.0 && p in s.procs && s.procs[p].Storing?
    ensures Reachable(toFloat, s')
    ensures var pc := s.procs[p];
            s' == State(s.now + wait, Some(Stored(s.(now := s.now + wait), pc.issue, pc.ttl)), None,
                        s.procs[p := Done(pc.issue.token)], s.issued)
  {
    s' := NextReached(toFloat, s, Tick(wait));
    s' := NextReached(toFloat, s', Store(p));
  }

  /** Caller 0 has issued and stored the first token. */
  function FirstStored(issue: Issue, asked: real, stored: real, rest: map<Pid, Pc>): State {
    State(stored, Some(Cached(Encode(issue.token, issue.stamp), stored + StoreTtl(TtlOf(issue.expiresAt, asked)) as real)),
          None, rest[0 := Done(issue.token)], [issue])
  }

  lemma FirstIssuance(toFloat: ToFloat, issue: Issue, asked: real, stored: real, rest: map<Pid, Pc>)
    requires toFloat(issue.stamp) == Some(issue.expiresAt) && asked <= stored
    requires 0 !in rest && forall p | p in rest :: rest[p].Start?
    ensures Reachable(toFloat, FirstStored(issue, asked, stored, rest))
  {
    var s := State(asked, None, None, rest[0 := Start], []);
    assert IsRun(toFloat, [s], []) && Last([s]) == s;
    s := NextReached(toFloat, s, FastRead(0));
    WaiterAsks(toFloat, s, 0, issue);
    s := IssuerStores(toFloat, Asked(s, s.cache, 0, issue), 0, stored - asked);
    assert s.procs == rest[0 := Done(issue.token)];
  }

  /** Whenever the cut-off part is not made up, a run exists in which a second token is issued while the
    * first is still outside the rotation buffer: the store has dropped it too early. */
  lemma SecondIssuanceOtherwise(toFloat: ToFloat, first: Issue, second: Issue, asked: real, stored: real)
    requires toFloat(first.stamp) == Some(first.expiresAt) && toFloat(second.stamp) == Some(second.expiresAt)
    requires asked <= stored < first.expiresAt - ROTATION_BUFFER as real && !CutMadeUp(first.expiresAt, asked, stored)
    ensures exists s :: Reachable(toFloat, s) && s.issued == [first, second] && s.now + 600.0 < first.expiresAt
  {
    FirstIssuance(toFloat, first, asked, stored, map[1 := Start]);
    var s := FirstStored(first, asked, stored, map[1 := Start]);
    DropTime(first.expiresAt, asked, stored);
    var t := (s.cache.value.droppedAt + (first.expiresAt - ROTATION_BUFFER as real)) / 2.0;
    s := NextReached(toFloat, s, Tick(t - stored));
    s := NextReached(toFloat, s, FastRead(1));
    WaiterAsks(toFloat, s, 1, second);
    assert Asked(s, s.cache, 1, second).issued == [first, second];
  }

  /** For instance, when 1000.5 seconds of life are cut to 1000 and the token is stored 0.2 seconds after it
    * was asked for. */
  lemma DroppedBeforeRotation(toFloat: ToFloat, first: Issue, second: Issue, asked: real)
    requires toFloat(first.stamp) == Some(first.expiresAt) && toFloat(second.stamp) == Some(second.expiresAt)
    requires first.expiresAt == asked + 1000.5
    ensures exists s :: Reachable(toFloat, s) && s.issued == [first, second] && s.now + 600.0 < first.expiresAt
  {
    assert (1000.5 as real).Floor == 1000;
    SecondIssuanceOtherwise(toFloat, first, second, asked, asked + 0.2);
  }

  /** A fresh token in the store is used by a caller about to act, and not issued again, exactly unless that
    * caller has already decided to delete what is there. */
  lemma FreshTokenUsedUnlessEvicting(toFloat: ToFloat, s: State, p: Pid)
    requires p in s.procs && (s.procs[p].Start? || s.procs[p].Waiting? || s.procs[p].Evicting?)
    requires s.owner.None? && s.cache.Some? && Usable(toFloat, s)
    ensures Alone(toFloat, s, p).Issuing? <==> s.procs[p].Evicting?
    ensures !s.procs[p].Evicting? ==> Alone(toFloat, s, p) == Done(ReadCache(toFloat, s).token)
  {
  }

  /** What the caller comes to when it acts by itself until it has a token or asks for one. */
  function Alone(toFloat: ToFloat, s: State, p: Pid): Pc
    requires p in s.procs && (s.procs[p].Start? || s.procs[p].Waiting? || s.procs[p].Evicting?)
    requires s.owner.None? && s.cache.Some? && Usable(toFloat, s)
  {
    match s.procs[p]
    case Start => Next(toFloat, s, FastRead(p)).procs[p]
    case Waiting => LockAndRead(toFloat, s, p)
    case Evicting => LockAndRead(toFloat, Next(toFloat, s, Evict(p)), p)
  }

  function LockAndRead(toFloat: ToFloat, s: State, p: Pid): Pc
    requires p in s.procs && s.procs[p].Waiting? && s.owner.None?
  {
    Next(toFloat, Next(toFloat, s, Lock(p)), ReRead(p)).procs[p]
  }

  lemma EvicterAsks(toFloat: ToFloat, s: State, p: Pid, issue: Issue)
    requires Reachable(toFloat, s) && toFloat(issue.stamp) == Some(issue.expiresAt)
    requires p in s.procs && s.procs[p].Evicting? && s.owner.None?
    ensures Reachable(toFloat, Asked(s, None, p, issue))
  {
    var s' := NextReached(toFloat, s, Evict(p));
    WaiterAsks(toFloat, s', p, issue);
    assert Asked(s', None, p, issue).procs == Asked(s, None, p, issue).procs;
  }

  lemma ReadsStale(toFloat: ToFloat, s: State, p: Pid)
    requires Reachable(toFloat, s) && p in s.procs && s.procs[p].Start? && ReadCache(toFloat, s).Stale?
    ensures Reachable(toFloat, s.(procs := s.procs[p := Evicting]))
  {
    var s' := NextReached(toFloat, s, FastRead(p));
    assert s' == s.(procs := s.procs[p := Evicting]);
  }

  lemma TwoReadStale(toFloat: ToFloat, first: Issue, start: real) returns (s: State)
    requires toFloat(first.stamp) == Some(first.expiresAt) && Encodable(first.token) && first.expiresAt == start + 1000.0
    ensures Reachable(toFloat, s)
    ensures (s.now, s.owner, s.issued, s.procs) == (start + 400.0, None, [first], map[0 := Done(first.token), 1 := Evicting, 2 := Evicting])
  {
    FirstIssuance(toFloat, first, start, start, map[1 := Start, 2 := Start]);
    s := FirstStored(first, start, start, map[1 := Start, 2 := Start]);
    s := NextReached(toFloat, s, Tick(400.0));
    assert (1000.0 as real).Floor == 1000;
    CachedTokenReadBack(toFloat, s, first.token, first.stamp);
    ReadsStale(toFloat, s, 1);
    s := s.(procs := s.procs[1 := Evicting]);
    ReadsStale(toFloat, s, 2);
    s := s.(procs := s.procs[2 := Evicting]);
    assert s.procs == map[0 := Done(first.token), 1 := Evicting, 2 := Evicting];
  }

  /** Such a caller is reached: two read a token gone stale, one of them issues anew, the other then deletes
    * the fresh token and issues a third, while the second is far from its rotation buffer. */
  lemma LateEvictionDropsFreshToken(toFloat: ToFloat, first: Issue, second: Issue, third: Issue, start: real)
    requires toFloat(first.stamp) == Some(first.expiresAt) && Encodable(first.token) && first.expiresAt == start + 1000.0
    requires toFloat(second.stamp) == Some(second.expiresAt) && toFloat(third.stamp) == Some(third.expiresAt)
    requires second.expiresAt > start + 400.0 + ROTATION_BUFFER as real
    ensures exists s ::
              && Reachable(toFloat, s) && s.issued == [first, second, third] && s.now + 600.0 < second.expiresAt
              && s.procs == map[0 := Done(first.token), 1 := Done(second.token), 2 := Storing(third, TtlOf(third.expiresAt, s.now), s.now)]
  {
    var s := TwoReadStale(toFloat, first, start);
    EvicterAsks(toFloat, s, 1, second);
    s := IssuerStores(toFloat, Asked(s, None, 1, second), 1, 0.0);
    EvicterAsks(toFloat, s, 2, third);
    assert Asked(s, None, 2, third).issued == [first, second, third];
  }
}
