/** The retry loop around KIS requests (kis_retry.py). */
module Retry {

  const RETRY_CAP_MS := 3000
  const RETRY_BASE_MIN_MS := 50
  const RETRY_BASE_MAX_MS := 200
  const NETWORK_BASE_MIN_MS := 200
  const NETWORK_BASE_MAX_MS := 500

  /** What one attempt meets: a connection failure or timeout, any other exception, or a response;
    * `rejected` says that its body carries the code of a rate refusal. */
  datatype Reply = NetworkError | OtherError | Response(status: int, rejected: bool)

  datatype Ending = Returned(response: Reply) | RaisedNetworkError | RaisedOtherError | RaisedRuntimeError

  predicate IsRateLimited(r: Reply) {
    r.Response? && (r.status == 429 || (r.status == 200 && r.rejected))
  }

  predicate IsServerError(r: Reply) {
    r.Response? && 500 <= r.status < 600
  }

  function Power2(n: nat): nat {
    if n == 0 then 1 else 2 * Power2(n - 1)
  }

  /** `draw` stands for the random number. */
  function BackoffMs(attempt: nat, baseMin: nat, baseMax: nat, draw: nat): (ms: nat)
    requires attempt >= 1
    ensures ms <= RETRY_CAP_MS
    ensures baseMin <= baseMax ==>
              (ms == RETRY_CAP_MS || baseMin * Power2(attempt - 1) <= ms) && ms <= baseMax * Power2(attempt - 1)
  {
    var factor := Power2(attempt - 1);
    BasesStayOrdered(baseMin, baseMax, factor);
    RandInt(Capped(baseMin * factor), Capped(baseMax * factor), draw)
  }

  function Capped(ms: nat): nat {
    if ms < RETRY_CAP_MS then ms else RETRY_CAP_MS
  }

  /** A number from lowest to hi. */
  function RandInt(lowest: nat, hi: nat, draw: nat): nat {
    var lo := if lowest > hi then hi else lowest;
    lo + draw % (hi - lo + 1)
  }

  lemma EveryNumberIsDrawn(lo: nat, hi: nat, ms: nat)
    requires lo <= hi
    ensures (exists draw: nat :: RandInt(lo, hi, draw) == ms) <==> lo <= ms <= hi
  {
    if lo <= ms <= hi {
      assert (ms - lo) % (hi - lo + 1) == ms - lo;
      assert RandInt(lo, hi, ms - lo) == ms;
    }
  }

  /** In the settings of the source: the wait doubles from 50 to 200 milliseconds on, up to three seconds, and any
    * wait in between can be drawn. */
  lemma WaitsDouble(attempt: nat, ms: nat)
    requires attempt >= 1
    ensures (exists draw: nat :: BackoffMs(attempt, RETRY_BASE_MIN_MS, RETRY_BASE_MAX_MS, draw) == ms) <==>
              match attempt
              case 1 => 50 <= ms <= 200
              case 2 => 100 <= ms <= 400
              case 3 => 200 <= ms <= 800
              case 4 => 400 <= ms <= 1600
              case 5 => 800 <= ms <= 3000
              case 6 => 1600 <= ms <= 3000
              case _ => ms == 3000
  {
    var factor := Power2(attempt - 1);
    PowersGrow(attempt - 1);
    var lo, hi := Capped(50 * factor), Capped(200 * factor);
    assert forall draw: nat :: BackoffMs(attempt, RETRY_BASE_MIN_MS, RETRY_BASE_MAX_MS, draw) == RandInt(lo, hi, draw);
    EveryNumberIsDrawn(lo, hi, ms);
  }

  /** After network errors from 200 to 500 milliseconds on. */
  lemma NetworkWaitsDouble(attempt: nat, ms: nat)
    requires attempt >= 1
    ensures (exists draw: nat :: BackoffMs(attempt, NETWORK_BASE_MIN_MS, NETWORK_BASE_MAX_MS, draw) == ms) <==>
              match attempt
              case 1 => 200 <= ms <= 500
              case 2 => 400 <= ms <= 1000
              case 3 => 800 <= ms <= 2000
              case 4 => 1600 <= ms <= 3000
              case _ => ms == 3000
  {
    var factor := Power2(attempt - 1);
    PowersGrow(attempt - 1);
    var lo, hi := Capped(200 * factor), Capped(500 * factor);
    assert forall draw: nat :: BackoffMs(attempt, NETWORK_BASE_MIN_MS, NETWORK_BASE_MAX_MS, draw) == RandInt(lo, hi, draw);
    EveryNumberIsDrawn(lo, hi, ms);
  }

  lemma {:induction false} PowersGrow(n: nat)
    ensures Power2(n) == match n case 0 => 1 case 1 => 2 case 2 => 4 case 3 => 8 case 4 => 16 case 5 => 32 case _ => Power2(n)
    ensures n >= 6 ==> Power2(n) >= 64
  {
    if n > 0 {
      PowersGrow(n - 1);
    }
  }

  lemma BasesStayOrdered(a: nat, b: nat, factor: nat)
    ensures a <= b ==> a * factor <= b * factor
  {
  }

  // ----- What a call has to do -----

  function NetworkErrors(replies: seq<Reply>, n: nat): nat
    requires n <= |replies|
  {
    if n == 0 then 0 else NetworkErrors(replies, n - 1) + if replies[n - 1].NetworkError? then 1 else 0
  }

  function RateRefusals(replies: seq<Reply>, n: nat): nat
    requires n <= |replies|
  {
    if n == 0 then 0 else RateRefusals(replies, n - 1) + if IsRateLimited(replies[n - 1]) then 1 else 0
  }

  /** The two counts, by what is counted: network errors; and responses 429, or 200 with a refusing body. */
  lemma {:induction false} CountsMean(replies: seq<Reply>, n: nat)
    requires n <= |replies|
    ensures NetworkErrors(replies, n) == multiset(replies[..n])[NetworkError]
    ensures var met := multiset(replies[..n]);
            RateRefusals(replies, n) == met[Response(429, true)] + met[Response(429, false)] + met[Response(200, true)]
  {
    if n > 0 {
      CountsMean(replies, n - 1);
      assert replies[..n] == replies[..n - 1] + [replies[n - 1]];
    }
  }

  /** Does the loop go on after reply k? A network error only asks whether network budget is left, a
    * response also whether this was the last attempt. */
  predicate GoesOn(isGet: bool, retries: int, networkRetries: int, replies: seq<Reply>, k: nat)
    requires k < |replies|
  {
    match replies[k]
    case NetworkError => NetworkErrors(replies, k) < networkRetries
    case OtherError => false
    case Response(_, _) => k < retries && (IsRateLimited(replies[k]) || (isGet && IsServerError(replies[k])))
  }

  function EndingOf(r: Reply): Ending {
    match r
    case NetworkError => RaisedNetworkError
    case OtherError => RaisedOtherError
    case Response(_, _) => Returned(r)
  }

  function Allowed(retries: int): nat {
    if retries < 0 then 0 else retries + 1
  }

  /** A call that sends `sent` requests: it goes on after each but the last, and ends with the last reply,
    * or with the RuntimeError when it would still go on but has no attempt left. */
  ghost predicate IsCall(isGet: bool, retries: int, networkRetries: int, replies: seq<Reply>, sent: nat, ending: Ending) {
    && sent <= Allowed(retries) <= |replies|
    && (forall k: nat | k + 1 < sent :: GoesOn(isGet, retries, networkRetries, replies, k))
    && if sent > 0 && !GoesOn(isGet, retries, networkRetries, replies, sent - 1) then
         ending == EndingOf(replies[sent - 1])
       else
         sent == Allowed(retries) && ending == RaisedRuntimeError
  }

  /** Requests that were followed by another attempt, or would have been. */
  function Waits(sent: nat, ending: Ending): nat {
    if ending.RaisedRuntimeError? || sent == 0 then sent else sent - 1
  }

  /** The waits after the first n replies: after a network error by how many there have been, after a response by
    * the attempt. */
  function Waited(replies: seq<Reply>, draws: seq<nat>, n: nat): (ms: nat)
    requires n <= |replies| && n <= |draws|
    ensures ms <= RETRY_CAP_MS * n
  {
    if n == 0 then 0
    else Waited(replies, draws, n - 1) +
         if replies[n - 1].NetworkError?
         then BackoffMs(NetworkErrors(replies, n), NETWORK_BASE_MIN_MS, NETWORK_BASE_MAX_MS, draws[n - 1])
         else BackoffMs(n, RETRY_BASE_MIN_MS, RETRY_BASE_MAX_MS, draws[n - 1])
  }

  method KisRequest(isGet: bool, retries: int, networkRetries: int, replies: seq<Reply>, draws: seq<nat>)
    returns (sent: nat, reacquired: nat, waitedMs: nat, ending: Ending)
    requires Allowed(retries) <= |replies| && Allowed(retries) <= |draws|
    ensures IsCall(isGet, retries, networkRetries, replies, sent, ending)
    ensures reacquired == RateRefusals(replies, Waits(sent, ending))
    ensures waitedMs == Waited(replies, draws, Waits(sent, ending)) <= RETRY_CAP_MS * Waits(sent, ending)
  {
    sent, reacquired, waitedMs := 0, 0, 0;
    var networkAttempt := 0;
    for attempt := 1 to Allowed(retries) + 1
      invariant sent == attempt - 1
      invariant networkAttempt == NetworkErrors(replies, sent)
      invariant reacquired == RateRefusals(replies, sent)
      invariant waitedMs == Waited(replies, draws, sent)
      invariant forall k: nat | k < sent :: GoesOn(isGet, retries, networkRetries, replies, k)
    {
      var resp := replies[sent];
      sent := sent + 1;
      if resp.NetworkError? {
        if networkAttempt < networkRetries {
          networkAttempt := networkAttempt + 1;
          waitedMs := waitedMs + BackoffMs(networkAttempt, NETWORK_BASE_MIN_MS, NETWORK_BASE_MAX_MS, draws[sent - 1]);
          continue;
        }
        return sent, reacquired, waitedMs, RaisedNetworkError;
      }
      if resp.OtherError? {
        return sent, reacquired, waitedMs, RaisedOtherError;
      }
      var rateLimited := IsRateLimited(resp);
      var serverError := !rateLimited && isGet && IsServerError(resp);
      if !(rateLimited || serverError) || attempt == retries + 1 {
        return sent, reacquired, waitedMs, Returned(resp);
      }
      waitedMs := waitedMs + BackoffMs(attempt, RETRY_BASE_MIN_MS, RETRY_BASE_MAX_MS, draws[sent - 1]);
      if rateLimited {
        reacquired := reacquired + 1;
      }
    }
    ending := RaisedRuntimeError;
  }

  // ----- What follows for every trace of replies -----

  /** The replies decide the call: how many requests are sent and how it ends. */
  lemma CallIsDetermined(isGet: bool, retries: int, networkRetries: int, replies: seq<Reply>,
                         sent: nat, ending: Ending, sent': nat, ending': Ending)
    requires IsCall(isGet, retries, networkRetries, replies, sent, ending)
    requires IsCall(isGet, retries, networkRetries, replies, sent', ending')
    ensures sent == sent' && ending == ending'
  {
    if sent < sent' {
      NotLonger(isGet, retries, networkRetries, replies, sent, ending, sent', ending');
    } else if sent' < sent {
      NotLonger(isGet, retries, networkRetries, replies, sent', ending', sent, ending);
    }
  }

  lemma NotLonger(isGet: bool, retries: int, networkRetries: int, replies: seq<Reply>,
                  sent: nat, ending: Ending, sent': nat, ending': Ending)
    requires IsCall(isGet, retries, networkRetries, replies, sent, ending)
    requires IsCall(isGet, retries, networkRetries, replies, sent', ending')
    ensures sent' <= sent
  {
  }

  /** The loop goes on after reply k exactly when this is a network error with network budget left, or, before the
    * last attempt, a response that refuses for the rate (429, or 200 with such a body), or a 5xx to a GET. What does
    * not let it go on ends the call, as that error or with that response. */
  lemma GoesOnIff(isGet: bool, retries: int, networkRetries: int, replies: seq<Reply>, sent: nat, ending: Ending, k: nat)
    requires IsCall(isGet, retries, networkRetries, replies, sent, ending) && k < sent
    ensures k < Waits(sent, ending) <==> k + 1 < sent || ending == RaisedRuntimeError
    ensures var on := k < Waits(sent, ending);
            match replies[k]
            case NetworkError => (on <==> NetworkErrors(replies, k) < networkRetries) && (!on ==> ending == RaisedNetworkError)
            case OtherError => !on && ending == RaisedOtherError
            case Response(status, rejected) =>
              && (on <==> k < retries && (status == 429 || (status == 200 && rejected) || (isGet && 500 <= status <= 599)))
              && (!on ==> ending == Returned(replies[k]))
  {
    assert k + 1 < sent ==> GoesOn(isGet, retries, networkRetries, replies, k);
  }

  /** At most retries + 1 requests, at most networkRetries + 1 network errors met, and a request that is not
    * a GET is never sent again after a 5xx: whatever follows such a reply, it is the last. */
  lemma SendsAreBounded(isGet: bool, retries: int, networkRetries: int, replies: seq<Reply>, sent: nat, ending: Ending)
    requires IsCall(isGet, retries, networkRetries, replies, sent, ending)
    ensures sent <= Allowed(retries)
    ensures networkRetries >= 0 ==> NetworkErrors(replies, sent) <= networkRetries + 1
    ensures forall k: nat | k < sent && !isGet && IsServerError(replies[k]) :: k == sent - 1 && ending == Returned(replies[k])
    ensures forall k: nat | k < sent && replies[k].Response? && !IsRateLimited(replies[k]) && !IsServerError(replies[k]) ::
              k == sent - 1 && ending == Returned(replies[k])
  {
    forall k: nat | k < sent && replies[k].Response? && !GoesOn(isGet, retries, networkRetries, replies, k)
      ensures k == sent - 1 && ending == Returned(replies[k])
    {
    }
    if networkRetries >= 0 {
      NetworkBudget(isGet, retries, networkRetries, replies, sent, ending, sent);
    }
  }

  lemma {:induction false} NetworkBudget(isGet: bool, retries: int, networkRetries: int, replies: seq<Reply>,
                                         sent: nat, ending: Ending, n: nat)
    requires IsCall(isGet, retries, networkRetries, replies, sent, ending) && n <= sent && networkRetries >= 0
    ensures NetworkErrors(replies, n) <= if n < sent then networkRetries else networkRetries + 1
  {
    if n > 0 {
      NetworkBudget(isGet, retries, networkRetries, replies, sent, ending, n - 1);
      if n < sent {
        assert GoesOn(isGet, retries, networkRetries, replies, n - 1);
      }
    }
  }

  /** The closing RuntimeError comes exactly when no attempt is allowed at all, or every earlier reply lets the
    * loop go on and the last allowed attempt is a network error with network budget left. */
  lemma RuntimeErrorIff(isGet: bool, retries: int, networkRetries: int, replies: seq<Reply>, sent: nat, ending: Ending)
    requires IsCall(isGet, retries, networkRetries, replies, sent, ending)
    ensures ending == RaisedRuntimeError <==>
              retries < 0 ||
              ((forall k | 0 <= k < retries :: GoesOn(isGet, retries, networkRetries, replies, k)) &&
               replies[retries].NetworkError? && NetworkErrors(replies, retries) < networkRetries)
  {
    if retries >= 0 {
      var all := forall k | 0 <= k <= retries :: GoesOn(isGet, retries, networkRetries, replies, k);
      assert ending == RaisedRuntimeError <==> all by {
        if all && sent > 0 {
          assert GoesOn(isGet, retries, networkRetries, replies, sent - 1);
        }
      }
      assert GoesOn(isGet, retries, networkRetries, replies, retries) <==>
             replies[retries].NetworkError? && NetworkErrors(replies, retries) < networkRetries;
    }
  }

  /** The source marks that line as unreachable. It can be reached exactly when the configuration allows no
    * attempt, or any network retry at all; the settings in force (one of each) do. */
  lemma RuntimeErrorReachableIff(isGet: bool, retries: int, networkRetries: int)
    ensures (exists replies, sent: nat :: IsCall(isGet, retries, networkRetries, replies, sent, RaisedRuntimeError))
       <==> retries < 0 || networkRetries > 0
  {
    if retries < 0 {
      assert IsCall(isGet, retries, networkRetries, [], 0, RaisedRuntimeError);
    } else if networkRetries > 0 {
      var replies := seq(retries + 1, i requires 0 <= i < retries + 1 => if i < retries then Response(429, false) else NetworkError);
      NoneBefore(replies, retries);
      assert IsCall(isGet, retries, networkRetries, replies, retries + 1, RaisedRuntimeError);
    } else if replies, sent: nat :| IsCall(isGet, retries, networkRetries, replies, sent, RaisedRuntimeError) {
      RuntimeErrorIff(isGet, retries, networkRetries, replies, sent, RaisedRuntimeError);
    }
  }

  lemma {:induction false} NoneBefore(replies: seq<Reply>, n: nat)
    requires n <= |replies| && forall k | 0 <= k < n :: replies[k].Response?
    ensures NetworkErrors(replies, n) == 0
  {
    if n > 0 {
      NoneBefore(replies, n - 1);
    }
  }
}
