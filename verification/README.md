# Wealth dashboard: verified models of its stateful kernels

The repository is a FastAPI service that keeps portfolios, places orders through a brokerage (KIS) and shows
valuations. This project models the parts whose correctness does not show in any single body: the token bucket in
front of the broker, the caching and locking protocols, the order ledger, keyset pagination, and the loops that turn
snapshots into valuations. Each piece of code that works step by step is a class or a method with loops, proved
against a specification function; the theorems are lemmas about those functions, about every run of a state machine,
or about every interleaving of callers.

| file | models |
|---|---|
| Prelude.dfy, TtlStore.dfy, Tickers.dfy, Series.dfy | shared vocabulary: options and money, expiring stores, domestic tickers, dated series |
| RateLimiter.dfy, RateBounds.dfy | the token bucket with booked releases; which bounds hold for which configurations |
| RedisCache.dfy | the Redis wrapper and its in-memory fallback |
| SingleFlight.dfy, Coalescing.dfy | the single-flight protocol around price-detail fetches; how often a ticker is fetched; the domestic and the overseas function (kis_price.py:652-707 and 710-759) follow the same protocol |
| TokenIssue.dfy | access-token cache and double-checked issuance |
| OrderAdmission.dfy | orders per minute, and the duplicate lock |
| Retry.dfy | the retry loop around broker requests |
| Holdings.dfy, OrderLedger.dfy, LedgerRuns.dfy | fills and weighted averages; placing, settling, cancelling; what every run keeps |
| Replays.dfy, Placing.dfy, Slicing.dfy, AfterSync.dfy | each order's settlement, stale reports and conservation; from placing to the first fill; sliced reports; settling after a synchronisation |
| CostRounding.dfy | drift of the stored four-decimal average |
| Reconcile.dfy, BulkUpsert.dfy | synchronising with the broker's snapshot; bulk import |
| Pagination.dfy | keyset pagination while rows change |
| Valuation.dfy, MetricsSeries.dfy, FxRates.dfy, KrwHistory.dfy | daily value series, the one behind the metrics, exchange rates carried forward, the series in won |
| Drawdown.dfy | maximum drawdown |
| Dashboard.dfy | totals, profits and allocation |

Decimals and floats are exact reals, except where rounding is the point (CostRounding). Clock readings, random
numbers, broker answers, fetch outcomes and link failures are parameters or part of the run, so every theorem holds
for all of them. Interleavings are at the granularity of the source's awaits. A database call is one atomic step.
A live cache entry is live up to and including its expiry instant, on the server and in the fallback alike.

## What the proofs found

Where the code and its own comments or documentation part, the model follows the code.

- The bucket keeps refilling while bookings are outstanding, so the bound on released tokens is
  burst + 2 * rate * elapsed, and with any burst it is reached (`RateBounds.BoundIsReached`). config.py:50 asks that
  burst + rate * 1 s hold in every sliding window of a second. With any burst at all no bound holds on windows of any
  length, and burst + rate * elapsed does not bound whole runs either (`RateBounds.WindowBoundIffNoBurst`,
  `RateBounds.SingleBoundIffNoBurst`). A call that times out keeps its booking.
- Single-flight promises one fetch for any number of callers. That is what happens from the first try for the lock until
  the leader writes, if it does so within 3.04 seconds; until its detail is gone there may be one more fetch for each
  caller that missed the cache before the write and tries the lock after it (`Coalescing.OneFetchPlusLosers`).
  `Coalescing.LateLoserFetchesAgain` is about such a caller, `Coalescing.PatienceRunsOut` about a leader
  slower than a polling caller is patient, though still within its lock. `Coalescing.FetchedAgainIff` says exactly when a
  ticker can be fetched again while a detail lives. The lock is deleted without asking who owns it; at most one leader at
  a time holds exactly as long as leaders finish before their lock expires (`SingleFlight.SecondLeaderIffLockExpired`).
- The token's time to live is cut to whole seconds, so the store may drop a token up to a second before the rotation
  buffer begins. `TokenIssue.AnsweredUntilBufferIff` says exactly when it does not, and
  `TokenIssue.SecondIssuanceOtherwise` gives the run with two issuances whenever it does. A caller that is about to evict
  an old token evicts whatever has replaced it (`TokenIssue.LateEvictionDropsFreshToken`). A token with a separator
  inside or a colon at its end is not read back as itself (`TokenIssue.CachedRoundTrip`).
- After a failure a read can return a value that a later write has replaced; `RedisCache.LatestWriteReadIff` says
  exactly when it returns the latest, `RedisCache.DeletedReadIff` when a deleted key can be read again. What is returned is always within its time to live.
- kis_retry.py:182 calls its last line unreachable. It is reached whenever the last allowed attempt is a network error
  with network budget left; `Retry.RuntimeErrorReachableIff` gives the exact condition on the settings, and the
  defaults of config.py (one retry, one network retry) meet it.
- kis_order_place.py:118 describes the limit as five orders a minute. The counter's life restarts with every order, so it
  counts the last unbroken burst instead: never more than five pass within a minute
  (`OrderAdmission.SixOrdersSpanAMinute`), but of orders 59 seconds apart the sixth is refused
  (`OrderAdmission.SixthSlowOrderRefused`); `OrderAdmission.RefusedIffLastFiveChained` is the exact rule.
- New fills are booked at the cumulative average price, so slicing a buy keeps quantities and order status but books
  `Slicing.SlicedCost`; the holdings are those of one report exactly when that equals the single posting's cost
  (`Slicing.SlicedHoldingsIff`). A report that claims a full fill too early cuts the order short (`Slicing.SlicedOrders`).
- A synchronisation brings in fills that settlement has not seen; settling them afterwards counts them twice until the
  next one (`AfterSync.OneFillAfterSync`, `AfterSync.SettlingAfterSync`).
- A cancellation marks an order cancelled whatever its status was, filled included; its fills stay as they are
  (`Replays.FilledUnlessCancelled`, `Replays.FilledIffNeverCancelled`).
- fx_utils.py:19-22 promises the most recently known rate. A snapshot of a day that is not in the list of dates is never
  carried forward; `FxRates.MostRecentIffListed` gives the exact condition, `FxRates.UnlistedRateIsSkipped` an input.
- The metrics sum over one ticker per holding without removing repeats, so a ticker held in two portfolios is counted
  twice at its whole quantity; the series is the history's exactly when no ticker with a snapshot repeats
  (`MetricsSeries.SeriesAgreeIffPricedOnce`). The current value appended to it counts every holding once, so that a
  repeated ticker alone makes for a drawdown (`MetricsSeries.StillDrawdownIffPricedOnce`).
- The two order checks read and then write, so two submissions that take turns are both admitted
  (`OrderAdmission.BothAdmittedTogether`).
- `_update_holdings` (orders.py:235-284) is never called; it computes what `_update_holdings_for_fill` does.

## Model

| member | source | states |
|---|---|---|
| RateLimiter.KisRateLimiter.constructor | backend/app/services/kis_rate_limiter.py:86-101 | A new bucket is full and has nothing booked. |
| RateLimiter.KisRateLimiter.Refill | backend/app/services/kis_rate_limiter.py:107-112 | Refines `Refilled`: elapsed time is credited up to the burst. |
| RateLimiter.KisRateLimiter.Consume | backend/app/services/kis_rate_limiter.py:114-138 | Refines `Consumed`: take from the bucket, or empty it and book the deficit after every earlier booking. |
| RateLimiter.KisRateLimiter.AvailableTokens | backend/app/services/kis_rate_limiter.py:140-143 | Refills and reports the level; see ReadsChangeNothing. |
| RateLimiter.KisRateLimiter.Acquire | backend/app/services/kis_rate_limiter.py:149-185 | Grants or gives up; giving up counts a timeout and keeps what was consumed or booked. |
| RateLimiter.CallServed | backend/app/services/kis_rate_limiter.py:107-163 | In mock mode nothing is taken and nobody waits; else a call that finds enough takes it at once. |
| RateLimiter.CallBooked | backend/app/services/kis_rate_limiter.py:124-183 | Any other call empties the bucket, is released when its missing part has been earned after the last booking, and gives up if and only if it has a timeout shorter than that wait. |
| RateLimiter.AcquireBalanced | backend/app/services/kis_rate_limiter.py:114-138 | One call keeps the accounting: tokens drawn are paid for by burst and refill, deficits by the advance of the next release. |
| RateLimiter.RunBalanced | backend/app/services/kis_rate_limiter.py:107-138 | That accounting over every run with a clock that never goes back, also counting only releases due by a given time. |
| RateLimiter.CumulativeBound | backend/app/services/kis_rate_limiter.py:107-138 | By any time, at most burst + 2 * rate * elapsed tokens are released, immediate grants and due bookings together. |
| RateBounds.BoundIsReached | backend/app/services/kis_rate_limiter.py:124-138 | For every configuration with a burst: by the time that k tokens take, a run has released exactly burst + 2 * k. |
| RateBounds.SingleBoundIffNoBurst | backend/app/services/kis_rate_limiter.py:114-138 | burst + rate * elapsed bounds the released tokens of all runs if and only if the burst is zero. |
| RateBounds.AnyNumberWithin | backend/app/services/kis_rate_limiter.py:131-138 | For every configuration with a burst, every n and every window length: a run of one-token calls releases n within such a window. |
| RateBounds.WindowBoundIffNoBurst | backend/app/core/config.py:50-59 | Releases of one-token calls within windows of a given length have some bound if and only if the burst is zero, and then 1 + rate * length is one. |
| RateLimiter.BookingsAreSpaced | backend/app/services/kis_rate_limiter.py:131-138 | Booked releases strictly increase in arrival order, each at least its deficit / rate after every earlier one. |
| RateLimiter.StaircaseWait | backend/app/services/kis_rate_limiter.py:6-9 | From a bucket full by now with nothing booked, the k-th of simultaneous one-token calls waits exactly max(0, k - burst) / rate. |
| RateLimiter.ReadsChangeNothing | backend/app/services/kis_rate_limiter.py:140-143 | Leaving out all reads of the level from a run changes no grant, release, wait or timeout. |
| RedisCache.InMemoryFallback.EvictExpired | backend/app/core/redis_cache.py:91-94 | Drops the one key if it has expired. |
| RedisCache.InMemoryFallback.Get | backend/app/core/redis_cache.py:96-99 | Refines `Apply` on the dictionary. |
| RedisCache.InMemoryFallback.Setex | backend/app/core/redis_cache.py:101-104 | Refines `Apply`: overwrites with a new expiry. |
| RedisCache.InMemoryFallback.SetNx | backend/app/core/redis_cache.py:106-118 | Refines `Apply`: writes only when no live entry is there; an expired one does not block. |
| RedisCache.InMemoryFallback.Delete | backend/app/core/redis_cache.py:120-121 | Refines `Apply`, at any time. |
| RedisCache.StepRefines | backend/app/core/redis_cache.py:91-121 | Each operation answers as an eagerly expiring map does and keeps the two in agreement. |
| RedisCache.LazyRefinesEager | backend/app/core/redis_cache.py:85-121 | Over every sequence of operations the lazily evicting fallback gives the answers of an eagerly expiring map. |
| RedisCache.RedisCache.Get | backend/app/core/redis_cache.py:147-163 | Refines `Step`: the server's answer, or on any failure the fallback's, with the health flag set accordingly. |
| RedisCache.RedisCache.Setex | backend/app/core/redis_cache.py:165-180 | Refines `Step`; a failed write goes to the fallback, even if the server had acted. |
| RedisCache.RedisCache.Delete | backend/app/core/redis_cache.py:182-197 | Refines `Step`. |
| RedisCache.RedisCache.SetNx | backend/app/core/redis_cache.py:199-224 | Refines `Step`. |
| RedisCache.RunBacked | backend/app/core/redis_cache.py:147-224 | Through failures, recoveries and key losses, every entry of either store stems from a recorded earlier write with that expiry. |
| RedisCache.StoredIsThere | backend/app/core/redis_cache.py:165-224 | What a call is recorded to have stored is in one of the stores. |
| RedisCache.ReadsAreFresh | backend/app/core/redis_cache.py:147-224 | A value returned by get was stored under that key by an earlier setex or set_nx no more than its time to live ago. |
| RedisCache.QuietEventsKeep | backend/app/core/redis_cache.py:147-224 | Calls on other keys, reads, failures, and losses of other keys change neither store's answer for a key. |
| RedisCache.LatestWriteReadIff | backend/app/core/redis_cache.py:147-180 | After a write and any such events, a read within the time to live returns the value written if and only if it asks the store the write went to (or that store held the value already). |
| RedisCache.SetNxReadIff | backend/app/core/redis_cache.py:199-224 | The same for set_nx, which stores only where no live entry stands. |
| RedisCache.DeletedReadIff | backend/app/core/redis_cache.py:182-197 | A read after a delete finds nothing if and only if it asks a store that the delete reached, or that held nothing live. |
| RedisCache.ReplacedValueMayReturn | backend/app/core/redis_cache.py:157-180 | An input: after a failure, a value that a later write has replaced is returned. |
| RedisCache.SetNxAnswers | backend/app/core/redis_cache.py:199-224 | Over any link set_nx answers true if and only if the store that answers holds no live entry of the key, and that store then holds the value until its time is over. |
| RedisCache.SecondTrueAnswer | backend/app/core/redis_cache.py:199-224 | Whatever happens between, two true answers of one store for one key are further apart than the first one's time to live, or the key was deleted, lost or cut short in between. |
| RedisCache.HealthyIffAnswered | backend/app/core/redis_cache.py:147-224 | The health flag is set exactly when the server has just answered. |
| SingleFlight.LockHeldKept | backend/app/services/kis_price.py:671-707 | Every step keeps one leader per ticker, who holds the lock, as long as no leader outlives its lock. |
| SingleFlight.AtMostOneLeader | backend/app/services/kis_price.py:652-707 | In every run in which leaders finish within the lock's life, no two callers for one ticker are ever in their fetch section as leaders. |
| SingleFlight.SecondLeaderIffLockExpired | backend/app/services/kis_price.py:671-672 | Another caller becomes a second leader if and only if the first has outlived its lock. |
| SingleFlight.AnswersAndPatienceKept | backend/app/services/kis_price.py:667-707 | Every step keeps: details come from completed fetches with a positive price; losers of the lock fetch only after 38 empty polls. |
| SingleFlight.AnswersAndPatience | backend/app/services/kis_price.py:635-707 | In every run, slow leaders included, a returned detail was fetched for that ticker and has current > 0. |
| SingleFlight.CacheAfterWrite | backend/app/services/kis_price.py:616-632 | Once written, a ticker's detail stays in the cache with at least that expiry, whoever writes next. |
| SingleFlight.AnsweredWhileDetailLives | backend/app/services/kis_price.py:667-676 | While a written detail lives, every caller that reads the cache is answered at once and does not fetch. |
| Coalescing.PendingOnlyShrinks | backend/app/services/kis_price.py:667-676 | While a detail lives, no step puts a caller before a fetch who was not there, and a fetch takes its caller away from there for good. |
| Coalescing.FetchesWhileDetailLives | backend/app/services/kis_price.py:667-707 | Coalescing, counted over every path: while a detail lives, a ticker is fetched at most once by each caller already between its last cache read and its fetch, and by nobody else. |
| Coalescing.LateFetchersReadBefore | backend/app/services/kis_price.py:667-707 | In every run a fetch while the detail of an earlier write lives is by a caller whose last cache read preceded that write. |
| Coalescing.FetchedAgainIff | backend/app/services/kis_price.py:667-707 | While a detail lives, the ticker can be fetched again if and only if a caller is in its fetch section already, or one is about to try the lock and may find it free: it is, it expires before the detail, or somebody is about to release it or to write again. |
| Coalescing.OneFetchByLeader | backend/app/services/kis_price.py:671-707 | In every run, from the first try for a ticker's lock until that leader writes or leaves, and for 3.04 seconds, the ticker is fetched at most once. |
| Coalescing.FetchIsLeaders | backend/app/services/kis_price.py:671-707 | And that fetch is the leader's. |
| Coalescing.OneFetchPlusLosers | backend/app/services/kis_price.py:652-707 | If the first leader writes within 3.04 seconds, then from the beginning of the run until its detail is gone the ticker is fetched once, and once more at most for each caller that has missed the cache and is yet to try the lock at the write. |
| Coalescing.LeaderLeavesLockFree | backend/app/services/kis_price.py:705-707 | That is the situation when a leader that wrote leaves: a second fetch is possible exactly when another caller stands there. |
| Coalescing.LateLoserFetchesAgain | backend/app/services/kis_price.py:667-707 | A run with prompt leaders only in which a ticker is fetched twice within the life of its detail, by a caller that tries the lock after the leader has left. |
| Coalescing.PatienceRunsOut | backend/app/services/kis_price.py:635-649 | Another, in which nobody leaves: a caller polls 38 times in vain and fetches after the leader's write. |
| SingleFlight.WaitForDetail | backend/app/services/kis_price.py:635-649 | The polling loop returns the first detail seen in at most 38 polls, else gives up after exactly 38. |
| SingleFlight.PollReturnsLeadersDetail | backend/app/services/kis_price.py:673-676 | A polling caller that finds the leader's detail returns it without fetching; otherwise it fetches only after its 38th poll. |
| SingleFlight.FetchDecidesReply | backend/app/services/kis_price.py:685-707 | A caller's fetch decides its reply: the detail, cached first, if it has a positive price; the exception if it raised; nothing otherwise. |
| TokenIssue.FindFrom | backend/app/services/kis_token.py:59-63 | The leftmost separator: none before it, and one at it if any. |
| TokenIssue.LeftmostSeparator | backend/app/services/kis_token.py:63-63 | The split falls right behind the token exactly when the token has no separator inside and does not end with a colon. |
| TokenIssue.CachedRoundTrip | backend/app/services/kis_token.py:53-70 | Parsing gives the cached token back if and only if it is so, and then the validity follows from the stored expiry. |
| TokenIssue.EncodableMeans | backend/app/services/kis_token.py:63-63 | Encodable is: no three colons in a row inside and no colon at the end. |
| TokenIssue.UnreadableIsValid | backend/app/services/kis_token.py:58-70 | A text without the separator is all token, and one whose expiry is no number counts as valid. |
| TokenIssue.CachedTokenReadBack | backend/app/services/kis_token.py:84-91 | Reading the cached text through the parser gives the issued token only if it is encodable, and then exactly while it is outside the rotation buffer. |
| TokenIssue.SingleIssueKept | backend/app/services/kis_token.py:73-107 | Every step of every caller keeps at most one issuance while the stored text is usable and its token encodable. |
| TokenIssue.OneIssuance | backend/app/services/kis_token.py:73-107 | From an empty cache with nobody mid-eviction, with encodable tokens, any interleaving of any number of callers makes exactly one issuance by the time anyone returns, and all who return get that token. |
| TokenIssue.DropTime | backend/app/services/kis_token.py:104-106 | When the store drops a token, against its expiry: never more than 601 seconds before, and not before the rotation buffer exactly when the cut-off part of the remaining life is made up. |
| TokenIssue.TtlMeans | backend/app/services/kis_token.py:106-146 | A token gets the whole seconds it has left, at least 60, and is stored for 600 less, at least 60. |
| TokenIssue.AnsweredUntilBufferIff | backend/app/services/kis_token.py:84-106 | Every read outside the rotation buffer is answered if and only if asking and storing are at least the cut-off fraction of a second apart, or the token lived less than 660 seconds. |
| TokenIssue.OneIssuanceByTheClock | backend/app/services/kis_token.py:73-155 | One issuance in every run until 601 seconds before the issued token expires. |
| TokenIssue.OneIssuanceOutsideBuffer | backend/app/services/kis_token.py:73-155 | One issuance in every run up to the rotation buffer itself, when stores make up for the cut-off part. |
| TokenIssue.SecondIssuanceOtherwise | backend/app/services/kis_token.py:104-146 | Whenever they do not, for any tokens and times, a run from the empty cache issues twice while the first token is outside the buffer. |
| TokenIssue.DroppedBeforeRotation | backend/app/services/kis_token.py:146-146 | Such a run for 1000.5 seconds of life, stored 0.2 seconds after asking. |
| TokenIssue.FreshTokenUsedUnlessEvicting | backend/app/services/kis_token.py:84-107 | A caller about to act on a fresh stored token uses it, and issues again exactly if it had already decided to delete what is there. |
| TokenIssue.LateEvictionDropsFreshToken | backend/app/services/kis_token.py:84-107 | A run from the empty cache that reaches such a caller: three issuances, the third while the second token is fresh. |
| OrderAdmission.OrderGate.CheckRateLimit | backend/app/services/kis_order_place.py:117-125 | Refines `CheckedRate`: five at most, the life of the counter restarting on each. |
| OrderAdmission.OrderGate.AcquireOrderLock | backend/app/services/kis_order_place.py:128-135 | Refines `Locked`. |
| OrderAdmission.OrderGate.Submit | backend/app/services/kis_order_place.py:274-294 | Refines `Step`: the two checks in order; a duplicate has been counted already; a missing id skips its check. |
| OrderAdmission.GateMeans | backend/app/services/kis_order_place.py:117-136 | One submission in numbers: refused when five passes are counted, a duplicate when the position's lock stands, checks skipped without an id; a pass counts for 60 seconds, an admitted order locks for ten, nothing else changes. |
| OrderAdmission.OnePass | backend/app/services/kis_order_place.py:117-125 | The counter stays the length of the user's last burst, and six passes never fall into one burst. |
| OrderAdmission.BurstsAreCounted | backend/app/services/kis_order_place.py:117-125 | That over every sequence of orders of all users. |
| OrderAdmission.RefusedIffLastFiveChained | backend/app/services/kis_order_place.py:117-125 | An order is refused if and only if the user's last five passes followed one another within 60 seconds each and the last is no more than 60 seconds ago. |
| OrderAdmission.SixthSlowOrderRefused | backend/app/services/kis_order_place.py:118-124 | Of orders placed 59 seconds apart the sixth is refused. |
| OrderAdmission.SixOrdersSpanAMinute | backend/app/services/kis_order_place.py:274-283 | Any six orders of a user that pass the limit span more than 60 seconds. |
| OrderAdmission.LockOutlivesOrder | backend/app/services/kis_order_place.py:128-135 | After an admitted order its lock entry never expires earlier than ten seconds later, whatever follows. |
| OrderAdmission.DuplicateIffAdmittedJustBefore | backend/app/services/kis_order_place.py:285-294 | An order within the limit is a duplicate if and only if one for the same portfolio and ticker was admitted no more than ten seconds before. |
| OrderAdmission.SamePositionTenSecondsApart | backend/app/services/kis_order_place.py:386-395 | Two admitted orders for one portfolio and ticker are more than ten seconds apart. |
| OrderAdmission.UninterruptedIsStep | backend/app/services/kis_order_place.py:117-135 | Reads and writes of the two checks taken one after the other are a whole submission. |
| OrderAdmission.BothAdmittedTogether | backend/app/services/kis_order_place.py:117-135 | Taken turn by turn, two submissions of one order are both admitted whenever the first alone would be, and are counted once. |
| Retry.BackoffMs | backend/app/services/kis_retry.py:48-58 | Each wait lies in its doubling window and never above the cap. |
| Retry.WaitsDouble | backend/app/services/kis_retry.py:38-58 | Exactly the waits of 50 to 200 ms, doubled with each attempt and cut at 3 s, can be drawn after a response. |
| Retry.NetworkWaitsDouble | backend/app/services/kis_retry.py:38-58 | The same after network errors, from 200 to 500 ms. |
| Retry.KisRequest | backend/app/services/kis_retry.py:89-183 | The loop is an `IsCall` for every trace of replies; it reacquires one token for each retried rate refusal, and waits what `Waited` adds up, at most the cap per retry. |
| Retry.CallIsDetermined | backend/app/services/kis_retry.py:116-183 | `IsCall` fixes the number of requests and the one ending. |
| Retry.GoesOnIff | backend/app/services/kis_retry.py:133-157 | A further attempt follows exactly a network error within its budget, or, before the last attempt, a 429, a 200 whose body refuses for the rate, or a 5xx to a GET; anything else ends the call as it is. |
| Retry.CountsMean | backend/app/services/kis_retry.py:131-180 | The counts used are those of the network errors met, and of the responses 429 or 200 with a refusing body. |
| Retry.SendsAreBounded | backend/app/services/kis_retry.py:116-158 | At most retries + 1 requests; never a second one after a 5xx to a request that is not a GET; a plain response always ends the call. |
| Retry.RuntimeErrorIff | backend/app/services/kis_retry.py:133-183 | On the trace: the closing RuntimeError comes exactly when no attempt is allowed, or all earlier replies let the loop go on and the last allowed attempt is a network error with network budget left. |
| Retry.RuntimeErrorReachableIff | backend/app/services/kis_retry.py:182-183 | Some trace reaches it if and only if retries are negative or any network retry is configured. |
| OrderLedger.PortfolioLedger.UpdateHoldingsForFill | backend/app/services/order_settlement.py:21-71 | Refines `Applied`: weighted average on a buy, row dropped when a sell empties it. |
| Holdings.BuyAdds | backend/app/services/order_settlement.py:39-58 | A buy adds exactly its quantity and exactly its cost. |
| Holdings.SellTakes | backend/app/services/order_settlement.py:59-71 | A sell takes at most what is there and leaves the average alone. |
| Holdings.FillKeepsName | backend/app/services/order_settlement.py:38-71 | A row keeps its name and market through every fill; a new one carries the fill's name. |
| Holdings.SplitFill | backend/app/services/order_settlement.py:39-71 | Splitting a fill keeps the quantity, and gives the same row exactly when it is a sell or the prices agree. |
| Holdings.QuantityIsNet | backend/app/services/order_settlement.py:39-71 | After any fills a ticker's quantity is their net sum if and only if nothing was oversold, else more. |
| Holdings.QuantityIsLargestNet | backend/app/services/order_settlement.py:59-71 | It is always the largest of the net from the beginning and the nets since each sell. |
| OrderLedger.PortfolioLedger.MapReports | backend/app/services/order_settlement.py:114-115 | The loop refines `ByNumber`. |
| OrderLedger.ByNumberIsLastReport | backend/app/services/order_settlement.py:114-115 | A number has an entry exactly when some report carries it, and the entry is the last such report. |
| OrderLedger.PortfolioLedger.BookFill | backend/app/services/order_settlement.py:132-165 | One order row, one transaction and one holding change together. |
| OrderLedger.PortfolioLedger.SettlePendingOrders | backend/app/services/order_settlement.py:74-178 | Refines `Settle` on orders, transactions, holdings and counts. |
| OrderLedger.PortfolioLedger.PlaceOrder | backend/app/api/orders.py:137-221 | Refines `Place`: an order row only, never a transaction or holding; refused without holdings to sell or when the broker call raises. |
| Placing.PlacingRecordsOneRow | backend/app/api/orders.py:137-221 | The ledger stays as it is if and only if the broker call raised or a sell asks for more than is held; otherwise exactly one row is appended, with the request's ticker, name, side and quantity, the broker's number and nothing filled, pending if the broker accepted and failed if it did not. |
| Placing.FirstReportSettles | backend/app/services/order_settlement.py:119-154 | The first report for an accepted number makes that row filled or partial and books the report's whole quantity; a rejected row stays as it was, without a transaction. |
| Placing.FirstReportBooks | backend/app/services/order_settlement.py:143-154 | That transaction carries the report's ticker, side, quantity and price. |
| Placing.RejectedNeverFills | backend/app/api/orders.py:201-218 | No run ever fills a rejected order or books a transaction for it. |
| Placing.FirstBuyOpensHolding | backend/app/services/order_settlement.py:157-165 | The first fill of a buy of a ticker not held opens the holding, under the order's name or else the ticker. |
| OrderLedger.PortfolioLedger.CancelOrder | backend/app/api/orders.py:404-414 | Refines `Cancel`: that order's status and nothing else. |
| Placing.CancelledFillsNoMore | backend/app/api/orders.py:404-414 | A cancellation marks exactly the orders with its number, open or not, and no run fills those any further. |
| LedgerRuns.RowBalanced | backend/app/services/order_settlement.py:119-165 | Settling one row keeps the ledger balanced and only lets it grow. |
| LedgerRuns.StepBalanced | backend/app/services/order_settlement.py:89-178 | So does every placing, settling, cancelling and synchronising. |
| LedgerRuns.EveryRunBalances | backend/app/services/order_settlement.py:89-165 | Over every run with arbitrary reports: each order's transactions are positive and sum to its filled quantity, which never falls; closed orders stay closed and gain no transaction. |
| LedgerRuns.EmptyLedgerBalances | backend/app/api/orders.py:201-221 | A portfolio without orders satisfies the premise. |
| Replays.RowOutcomes | backend/app/services/order_settlement.py:119-141 | What a settle call makes of each order row, all rows at once. |
| Replays.SettlesEachOrder | backend/app/services/order_settlement.py:97-141 | Every order becomes what the last report for its number says, if it is pending or partial and the report goes beyond its fills, and else stays as it was. |
| Replays.SettleCounts | backend/app/services/order_settlement.py:97-141 | The counts are the orders turned filled, those turned partial, and those still waiting as before; all zero when no waiting order has a number. |
| Replays.SettleIsIdleIffStale | backend/app/services/order_settlement.py:124-130 | A settle call changes nothing if and only if no open order's report exceeds what was applied. |
| Replays.OldReportsStayStale | backend/app/services/order_settlement.py:124-130 | Reports no larger than settled ones advance none of those orders in any later ledger. |
| Replays.SettlingTwice | backend/app/services/order_settlement.py:74-178 | Settling the same reports again changes nothing. |
| Replays.CountsCoverOpenOrders | backend/app/services/order_settlement.py:117-141 | The three counts add up to the open orders. |
| Slicing.OneReport | backend/app/services/order_settlement.py:119-130 | One report moves the row with its number and no other. |
| Slicing.SliceInTwo | backend/app/services/order_settlement.py:119-165 | Two growing reports against the last alone: the same orders and holdings exactly when the first was not final and, for a buy, the average price did not move. |
| Slicing.SlicedOrders | backend/app/services/order_settlement.py:119-141 | Any growing series of reports of one order, at whatever average prices, leaves the orders as the last report alone does, if and only if no earlier report that moved the order claimed to be the full fill. |
| Slicing.SlicedHoldingsIff | backend/app/services/order_settlement.py:124-165 | The quantity of every ticker is then the same too; and so are the holdings, for a sell always, for a buy exactly when the slices' cost equals the single posting's. |
| Slicing.SlicedCost | backend/app/services/order_settlement.py:39-58 | The cost of a sliced buy is exactly the sum of each new quantity at the average price reported with it. |
| Slicing.SlicingDoesNotMatter | backend/app/services/order_settlement.py:119-165 | At a constant average price orders and holdings are those of the last report. |
| Replays.HoldingsReplayTransactions | backend/app/services/order_settlement.py:143-165 | In every run the holdings are the replay of the transactions since the last synchronisation on the table it left. |
| Replays.SharesAreConserved | backend/app/services/order_settlement.py:143-165 | Over every run, shares held are what the last synchronisation left, or the beginning, plus the net of the transactions since, if and only if nothing was oversold. |
| Replays.FilledUnlessCancelled | backend/app/api/orders.py:404-414 | A filled order stays filled under every event if and only if the event does not cancel its number; its fills stay in any case. |
| Replays.FilledIffNeverCancelled | backend/app/api/orders.py:404-414 | The same over every run. |
| AfterSync.OneFillAfterSync | backend/app/services/order_settlement.py:124-165 | After a synchronisation one report adds its unsettled part to the broker's quantity, or takes it off, exactly; the quantity stays the broker's if and only if nothing is unsettled, or it is a sell of a ticker no longer listed. |
| AfterSync.SettlingAfterSyncNets | backend/app/services/order_settlement.py:119-165 | Any settle call after a synchronisation moves each ticker by the net of the unsettled fills, if and only if it does not oversell. |
| AfterSync.SettlingAfterSyncExactly | backend/app/services/order_settlement.py:119-165 | In every case the quantity is the largest of the broker's plus that net and the nets of what follows each unsettled sell. |
| AfterSync.SettlingAfterSync | backend/app/services/order_settlement.py:119-165 | With unsettled buys only, a ticker stays at the broker's quantity if and only if no open order has an unsettled fill of it, and is above it otherwise. |
| CostRounding.RoundedTwice | backend/app/models/holding.py:24-24 | Storing a stored average again changes nothing. |
| CostRounding.AveragingContracts | backend/app/services/order_settlement.py:50-58 | Averaging with the same buy brings two averages no further apart. |
| CostRounding.DriftByStores | backend/app/models/holding.py:23-24 | The drift is half a unit for each store that follows a buy; other stores round nothing. |
| CostRounding.DriftIsBounded | backend/app/models/holding.py:23-24 | After n buys with any sells between, and the row stored at any moments, the quantity is exact and the average within n * 0.00005 of the unrounded run. |
| Reconcile.HoldingsTable.ReconcileHoldings | backend/app/services/reconciliation.py:29-78 | The rows mirror the broker's list as sent, and the counts are the rows that came, changed and went; both also as `Reconciled` and `CountsOf`. |
| Reconcile.HoldingsTable.InsertMissing | backend/app/services/reconciliation.py:39-52 | The insert loop. |
| Reconcile.HoldingsTable.UpdateChanged | backend/app/services/reconciliation.py:54-68 | The update loop, against the rows as first read. |
| Reconcile.HoldingsTable.DeleteGone | backend/app/services/reconciliation.py:70-75 | The delete loop. |
| Reconcile.ThreeLoopsReconcile | backend/app/services/reconciliation.py:34-78 | The three loops, in any key order, give the set-defined result and counts. |
| Reconcile.ReconciledMirrors | backend/app/services/reconciliation.py:34-78 | Afterwards ticker, quantity, average and market are the broker's; the counts are all zero if and only if they were before. |
| Reconcile.ByTickerIsLastEntry | backend/app/services/reconciliation.py:35-35 | A ticker is in the map of the list exactly when some entry carries it, and its value is the last such entry. |
| Reconcile.ReconciledMirrorsList | backend/app/services/reconciliation.py:34-78 | Afterwards exactly the tickers of the broker's list have a row, with quantity, average and market of their last entry; an old row keeps its name. |
| Reconcile.CountsAreRows | backend/app/services/reconciliation.py:37-78 | The counts are those of the rows that are new, that changed, and that went. |
| Reconcile.SecondRunIsIdle | backend/app/services/reconciliation.py:34-78 | An immediate second run changes nothing and counts nothing. |
| BulkUpsert.PortfolioTable.BulkAddHoldings | backend/app/api/portfolio_holdings.py:285-325 | Refines `MergedAll` on rows, created, updated and failed items. |
| BulkUpsert.ItemAdds | backend/app/api/portfolio_holdings.py:291-313 | One item adds its quantity and cost to its ticker and nothing elsewhere. |
| BulkUpsert.ItemFailsIff | backend/app/api/portfolio_holdings.py:291-320 | An item fails exactly when it brings a held quantity to zero, and then only its ticker is noted; names and markets of held tickers stay. |
| BulkUpsert.BulkAddsUp | backend/app/api/portfolio_holdings.py:289-315 | Every ticker ends with the sums of quantity and cost; created counts the new rows, updated the other items, and nothing fails. |
| BulkUpsert.OrderDoesNotMatter | backend/app/api/portfolio_holdings.py:289-315 | Any permutation of the batch, repeated tickers included, gives the same quantity and average. |
| BulkUpsert.LikeOneCombinedItem | backend/app/api/portfolio_holdings.py:289-315 | A ticker's items count like one item of their total quantity and cost. |
| BulkUpsert.AverageStaysBetween | backend/app/api/portfolio_holdings.py:297-300 | The average stays between the smallest and the largest contributing price. |
| Pagination.TransactionTable.CreateTransaction | backend/app/api/portfolio_transactions.py:142-154 | Appends a live row under a new id; every other row stays. |
| Pagination.TransactionTable.DeleteTransaction | backend/app/api/portfolio_transactions.py:165-177 | Marks exactly that row deleted, or answers 404 when it is unknown or deleted already. |
| Pagination.TransactionTable.UpdateMemo | backend/app/api/portfolio_transactions.py:201-212 | Changes exactly that row's memo, and its tags when some are given, or answers 404. |
| Pagination.NewestFirstSorts | backend/app/api/portfolio_transactions.py:96-96 | The order used is strictly descending in (traded_at, id) and keeps exactly the rows. |
| Pagination.PageIsPrefix | backend/app/api/portfolio_transactions.py:90-119 | A page lists live rows of the portfolio behind the cursor row, latest first by traded_at and id; whatever else is due comes after its last row; there is a next cursor exactly when some row did not fit, and then the page is full. |
| Pagination.NextPage | backend/app/api/portfolio_transactions.py:98-108 | The next page goes on where the last one ended, even when the cursor row was deleted in between. |
| Pagination.PagesAreLive | backend/app/api/portfolio_transactions.py:90-119 | Over a traversal, whatever a page lists was a live row of the portfolio when that page was fetched. |
| Pagination.EveryTransactionOnce | backend/app/api/portfolio_transactions.py:90-119 | With rows created, edited and deleted between pages: items strictly descend by traded_at and id, no id comes twice, and once there is no next cursor every row live throughout has been returned. |
| FxRates.ForwardFillRates | backend/app/services/fx_utils.py:24-35 | The two loops refine `Filled`. |
| FxRates.RateIsLastOfDay | backend/app/services/fx_utils.py:24-27 | A day has a rate exactly when a snapshot is of that day, and it is the last such snapshot's. |
| FxRates.FilledMeans | backend/app/services/fx_utils.py:24-35 | Exactly the listed days are filled, each with the rate of the latest listed day up to it that has a snapshot, else the fallback. |
| FxRates.LastListedMeans | backend/app/services/fx_utils.py:30-34 | That day is listed and no listed day with a snapshot lies after it. |
| FxRates.MostRecentIffListed | backend/app/services/fx_utils.py:19-22 | The rate used is the most recent snapshot's if and only if that snapshot's day is listed. |
| FxRates.FallbackIffNothingListed | backend/app/services/fx_utils.py:19-22 | The fallback is used exactly until the first listed day with a snapshot. |
| FxRates.UnlistedRateIsSkipped | backend/app/services/fx_utils.py:30-34 | An input on which a more recent rate is passed over. |
| Valuation.CloseByDate | backend/app/api/analytics_history.py:97-103 | The map of closes by day, for every day of the snapshots and no other. |
| Valuation.FirstCloseByTicker | backend/app/api/analytics_history.py:112-115 | Every ticker's first close. |
| Valuation.QuantityByTicker | backend/app/api/analytics_history.py:76-81 | Quantities added up by ticker, and the held tickers, each once. |
| Valuation.AggregationLosesNothing | backend/app/api/analytics_history.py:79-124 | The tickers' worth at aggregated quantities is the sum over the single holdings. |
| Valuation.EffectiveMeans | backend/app/api/analytics_history.py:117-123 | The close used on a day is that of the latest snapshot up to it, else of the earliest; missing exactly when the ticker has none. |
| Series.JoinedMeans | backend/app/api/analytics_history.py:117-126 | Days taken in rising order give a rising series with exactly the points the days contribute. |
| Valuation.DaysAreListed | backend/app/api/analytics_history.py:111-111 | The days visited rise strictly and are exactly the snapshot days. |
| Valuation.NextDay | backend/app/api/analytics_history.py:119-121 | Taking in one day's closes brings every last close up to that day. |
| Valuation.PortfolioHistory | backend/app/api/analytics_history.py:76-126 | The loops refine `History`. |
| Valuation.HistoryMeans | backend/app/api/analytics_history.py:117-126 | In date order, one point for each snapshot day on which the single holdings, each at its effective close, are worth more than nothing; its value is that worth. |
| Tickers.DomesticMeans | backend/app/core/ticker.py:10-17 | A ticker is domestic exactly when it is six digits or capital letters, with at most a newline behind. |
| MetricsSeries.MetricsAgreeIffPricedOnce | backend/app/api/analytics_metrics.py:208-224 | A day's metrics value is never less than the history's, and equal if and only if no priced ticker is held twice. |
| MetricsSeries.PortfolioDateValues | backend/app/api/analytics_metrics.py:197-225 | The loops refine `MetricsHistory`. |
| MetricsSeries.SeriesAgreeIffPricedOnce | backend/app/api/analytics_metrics.py:197-225 | The metrics' whole series is the history's if and only if no ticker with a snapshot is held twice. |
| MetricsSeries.StillDrawdownIffPricedOnce | backend/app/api/analytics_metrics.py:208-247 | With closes that never move and equal the current prices, the drawdown reported is zero if and only if no ticker is held twice; else it is the share by which the series overstates the holdings. |
| KrwHistory.OfSide | backend/app/api/analytics_history.py:180-181 | The tickers of one side, each once. |
| KrwHistory.KrwAssetHistory | backend/app/api/analytics_history.py:175-255 | The loops refine `History` in won. |
| KrwHistory.SidesAddUp | backend/app/api/analytics_history.py:234-245 | Two sums of which one is converted are quantity times close of the single holdings, times the rate for overseas ones. |
| KrwHistory.HistoryMeans | backend/app/api/analytics_history.py:226-255 | In date order, a point for each listed day, and no other, on which the holdings are worth more than nothing: their worth at the rate carried forward to that day, and its domestic and overseas parts. |
| Drawdown.CalcMdd | backend/app/api/analytics_metrics.py:45-57 | The loop refines `MaxDrawdown`. |
| Drawdown.PassFindsDeepest | backend/app/api/analytics_metrics.py:49-56 | After any number of values the running peak has found the deepest fall so far. |
| Drawdown.DrawdownIsDeepestFall | backend/app/api/analytics_metrics.py:45-57 | On values that are not negative the result is 100 times the largest (v_i - v_j) / v_i over i <= j, between 0 and 100, and 100 exactly when a positive value is followed by zero. |
| Drawdown.DeepestIsUnique | backend/app/api/analytics_metrics.py:45-57 | That maximum is one number. |
| Drawdown.ScalingKeepsDrawdown | backend/app/api/analytics_metrics.py:45-57 | Scaling all values by a positive factor changes nothing. |
| Drawdown.AppendingNeverLowers | backend/app/api/analytics_metrics.py:45-57 | Appending values never lowers the result. |
| Dashboard.LineOf | backend/app/api/dashboard.py:220-262 | The loop body: one holding's line and its share of the totals. |
| Dashboard.AggregateHoldings | backend/app/api/dashboard.py:203-264 | The loop refines `Aggregated`. |
| Dashboard.ItemBalances | backend/app/api/dashboard.py:67-76 | A line's value is what it adds to the assets, its profit the difference to what was invested, and its rate gives the profit back; both are shown exactly when there is a price (and something invested). |
| Dashboard.ItemShows | backend/app/api/dashboard.py:220-262 | A line shows the holding, its currency, and the price and value in it where there is a price. |
| Dashboard.ItemOfEach | backend/app/api/dashboard.py:219-264 | Every holding has its line, in order. |
| Dashboard.TotalsAddUp | backend/app/api/dashboard.py:219-264 | For any mix of holdings, total assets minus total invested is the sum of the profits shown, and total assets the sum of the values allocated. |
| Dashboard.TotalsInWon | backend/app/api/dashboard.py:219-264 | The totals are quantity times price (average where there is none), times the exchange rate for overseas holdings only; and quantity times average for what was invested. |
| Dashboard.RateMovesOverseasShare | backend/app/api/dashboard.py:219-264 | A higher exchange rate adds the overseas holdings at the difference and nothing else. |
| Dashboard.BuildAllocation | backend/app/api/dashboard.py:267-289 | The loop and sort refine `Allocation`. |
| Dashboard.SliceOfEach | backend/app/api/dashboard.py:267-289 | Every line has a slice, of its value in won, at its share of the total. |
| Dashboard.SortIsStable | backend/app/api/dashboard.py:288-288 | The sort keeps the sum, and the order of slices with equal ratios. |
| Dashboard.SortSorts | backend/app/api/dashboard.py:288-288 | The sort keeps the slices and puts larger ratios first. |
| Dashboard.AllocationSumsTo100 | backend/app/api/dashboard.py:267-289 | When total assets are positive the ratios sum to exactly 100, in descending order, one slice for each holding. |

## Left out

- HTTP calls, JSON parsing, headers, TR_IDs, OAuth exchange, encryption, authentication, ownership checks and logging: foreign calls or easy members.
- CSV and spreadsheet export, push delivery, alerts, event streams, scheduling, sector map and stock search: easy members.
- Mock mode of the rate limiter is in the model but outside the bounds, which do not hold for it; the concurrency semaphore of kis_call_slot is not modelled.
- SingleFlight, TokenIssue and OrderAdmission take one live store; a switch between Redis and the fallback in the middle gives up exclusion, and the code takes no lock there.
- SingleFlight: the second write under the plain price key is not modelled; it takes no part in the protocol.
- TokenIssue: invalidate_kis_token is not modelled; the text of a float is taken to denote the float it was made from.
- OrderAdmission: its theorems on runs take calls one at a time; interleaved ones can pass together.
- OrderLedger: duplicate rows for one ticker or one order number make the source raise, and are not modelled; columns that no rule reads (prices asked, memos, account ids) are left out.
- Replays.SharesAreConserved: takes snapshots without empty positions, as kis_account.py:102 and 205 drop them.
- LedgerRuns.EveryRunBalances: takes new orders to carry numbers no earlier order has, as the broker assigns them; manually entered transactions do not touch orders or holdings and are left out.
- BulkUpsert.OrderDoesNotMatter: quantities are positive, as the request schema demands; the zero-total error branch is modelled in `Merged`.
- CostRounding.DriftIsBounded: halves round upwards; any rule that rounds to a nearest value obeys the same bound. The run starts from a row as the database keeps it. Quantities are taken exact, as the broker reports them within the six stored decimals.
- Pagination: rows keep their trade time, since no endpoint edits it; the database's choice of ids is a parameter.
- Valuation and KrwHistory: rounding of the displayed value, caching of the payload and the period cut-off of the queries.
- Drawdown: values are not negative, as the callers keep only days worth more than zero; CAGR and the Sharpe ratio are formulas.
- Dashboard: day-change averages, 52-week columns and names; the query's limit of 500 holdings only bounds the input.
- Decimal precision beyond the four-decimal average.
