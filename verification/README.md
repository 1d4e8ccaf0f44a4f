# infra-go: a verified model of its stateful components

infra-go is a set of infrastructure components for Go services. This project models the ones
that hold an algorithm of their own and proves what they promise over whole runs:

| component | files | main theorems |
|---|---|---|
| In-memory LRU cache with expiry | `CacheSpec`, `LruInclusion`, `CacheHistory`, `LruHits`, `MemCache` | LRU inclusion, recency order, the hit law, contents against the writes |
| Google SRE breaker | `RollingWindow`, `WindowCounts`, `Breaker`, `RejectionPolicy` | the bucket ring refines an event log and its counts; range and monotonicity of the rejection probability, with the exact condition |
| SingleFlight and `Take` | `SingleFlight`, `Take` | one execution per key, shared outcomes, one successful fetch per key over all interleavings |
| Rate limiters | `TokenBucket`, `SlidingWindow`, `RedisLimiters`, `MemberNames` | admission bounds over runs, exactness of `RetryAfter`, key expiry is unobservable |
| Redis lock | `RedisLock` | mutual exclusion of leases, lease continuity under renewal, exact TTL bound |
| Retry | `Backoff`, `Retry` | exact exponential backoff despite 64-bit wrap-around |
| ServiceGroup | `ServiceGroup` | stop-once, start barrier, a waiting stop is always released |
| Byte streams | `Sse`, `ResponseWriters`, `Segments` | SSE and tag round trips, byte conservation |

`Options`, `Sequences` and `RealFacts` hold small shared helpers. `dafny verify dfyconfig.toml`
checks everything.

How the source is represented:

- Times are integers (nanoseconds, milliseconds where Redis keeps milliseconds); an operation
  reads the clock once and the reading is an argument. `float64` is `real`. Jitter and random
  draws are arguments.
- A critical section, a Lua script or a channel operation is one atomic step. Concurrent
  protocols are state machines over such steps, and theorems quantify over every interleaving.
- Objects that the source updates in place are classes whose methods are proved against
  functions on values; the theorems about runs are stated on those functions.

Where the code and its own documentation differ, the model follows the code, and a theorem says
exactly when the documented property holds:

- `TokenBucket.RetryAfter` truncates to whole nanoseconds, so the hinted retry can come one
  nanosecond too early (`RetryAfterSucceedsIff`, `RetryAfterCanFallShort`).
- `SlidingWindow.RetryAfter` panics when `limit` is 0 (`RetryAfterPanics`).
- The `Service` interface documents that Stop is never issued before Start has been called; that
  holds exactly when every Start has been called before Stop is (`StopFollowsStartIff`,
  `StopCanPrecedeStart`). `StopGuarantees` states what holds in every run.
- `TimeoutWriter.Timeout` is documented to disable WriteHeader; it does so exactly when a status
  was recorded or the header sent before (`LateHeaderIgnoredIff`, `LateHeader`).
- A further success can raise the breaker's rejection probability unless `max(k, minK) >= 1`
  (`SuccessNeverRaisesIff`).
- Backoff is not exact for every configuration (`BackoffInexactOutside`, `ScheduleExactIff`).
- `MemCache.Expire` revives an expired entry that no Get of it and no sweep has reached
  (`RevivesIff`, `ExpireRevivesUnswept`), and finds nothing where one has
  (`CollectionUnobservableIff`).
- An event name with a line break, or event data with a carriage return, does not survive the
  SSE framing (`EventRoundTripIff`); a bracket-wrapped list loses a closing bracket at the end of
  its last element (`GroupedRoundTripIff`).

## Model

| member | source | states |
|---|---|---|
| CacheSpec.StepKeepsInv | cache/memcache.go:156-191 | every cache operation keeps data map and recency list on the same duplicate-free key set of at most `limit` keys |
| CacheSpec.RunKeepsInv | cache/memcache.go:462-516 | that invariant, and the bound on the number of entries, in every reachable state |
| LruInclusion.StepIncluded | cache/memcache.go:337-389 | one operation on two caches of limits n <= m keeps: submap, smaller list a subsequence, surplus at most m - n |
| LruInclusion.WriteIncluded | cache/memcache.go:481-516 | a write with its evictions keeps the inclusion: when the larger cache evicts, the smaller one lacks or evicts that key |
| LruInclusion.LruInclusion | cache/memcache.go:156-389 | over every trace of Set, Get, Delete, Expire and scan with the same clock and jitter, every hit of the limit-n cache is the same hit of the limit-m cache |
| LruInclusion.UnlimitedIncludesAll | cache/memcache.go:107-124 | the unlimited cache contains every limited one along the same trace |
| CacheHistory.OrderIsRecency | cache/memcache.go:481-493 | in every reachable state the list is strictly ordered by the number of the step that last wrote or hit the key |
| CacheHistory.EvictsLeastRecentlyTouched | cache/memcache.go:502-516 | a write loses at most one key: the least recently touched one, only when full and for a new key, never the key written |
| CacheHistory.HitIsLastWrite | cache/memcache.go:246-375 | over every trace, Increment and Decrement included, a hit returns the value last written under the key, unexpired, whatever was evicted or swept |
| CacheHistory.PresentIff | cache/memcache.go:301-389 | under any limit only keys written, not deleted since, and neither looked up nor swept past their deadline are present; the unlimited cache holds all of them |
| CacheHistory.UnlimitedIsExactTtlMap | cache/memcache.go:338-356 | over every trace the unlimited cache hits exactly those keys that are unexpired, with the value last written |
| CacheHistory.CollectionUnobservableIff | cache/memcache.go:337-389 | lazy deletion and the sweep cannot be observed along a run of the unlimited cache if and only if no Expire comes to a key past its deadline and already collected |
| CacheHistory.RevivesIff | cache/memcache.go:301-320 | Expire brings a key back in the unlimited cache if and only if it was written, not deleted since, is past its deadline, and no Get of it and no sweep came past the deadline |
| CacheHistory.ExpireRevivesUnswept | cache/memcache.go:301-320 | concrete runs on both sides of that condition: untouched, swept, looked up |
| CacheHistory.SweepExact | cache/memcache.go:379-389 | the sweep removes exactly the expired entries and no lookup can tell |
| CacheHistory.JitterRange | cache/memcache.go:537-540 | the jittered expiry lies within 5% of the requested one, up to truncation |
| CacheHistory.JitterSpreads | cache/memcache.go:537-540 | the jitter uses that whole range, antitone in the draw |
| LruHits.FewSinceIsPresent | cache/memcache.go:481-516 | over every trace and limit n > 0, a key written, not deleted or collected since, is present if fewer than n distinct other keys were touched since its last touch |
| LruHits.PresentIsRecent | cache/memcache.go:481-516 | a present key holds what was last written, and fewer than n keys not deleted or collected themselves were touched since |
| LruHits.HitIff | cache/memcache.go:361-516 | when every key touched since is still kept, a lookup hits if and only if fewer than n were and the entry is unexpired |
| LruHits.SetThenGet | cache/memcache.go:156-179 | under any limit a value just set is found for its lifetime less 5%, and not beyond its lifetime plus 5% |
| LruHits.DeadlineMeets | cache/memcache.go:160-175 | the lifetime is the ttl if positive, else the default expiry if positive, else unlimited |
| LruHits.AddThenGet | cache/memcache.go:246-265 | under any limit Increment and Decrement initialise a missing or expired key, update a numeric one and leave another as it is |
| MemCacheImpl.KeyLru.Add | cache/memcache.go:481-493 | list, index and the owner's data move as the value-level touch says, through the eviction callback |
| MemCacheImpl.KeyLru.Remove | cache/memcache.go:496-500 | drops one key from list, index and data, or nothing |
| MemCacheImpl.KeyLru.RemoveOldest | cache/memcache.go:503-508 | drops the last key of the list and its entry |
| MemCacheImpl.KeyLru.RemoveElement | cache/memcache.go:511-516 | unlinks one element by identity and calls back the owner |
| MemCacheImpl.MemCache.constructor | cache/memcache.go:101-133 | an empty cache; limit <= 0 means unlimited |
| MemCacheImpl.MemCache.OnEvict | cache/memcache.go:436-438 | deletes the evicted key from data |
| MemCacheImpl.MemCache.SetExpiring | cache/memcache.go:156-179 | the object moves as SetEx on values, with the default-expiry fallback |
| MemCacheImpl.MemCache.DoGet | cache/memcache.go:337-370 | answers the unexpired entry, drops an expired one, touches a hit |
| MemCacheImpl.MemCache.Delete | cache/memcache.go:183-191 | the loop removes exactly the given keys |
| MemCacheImpl.MemCache.Expire | cache/memcache.go:301-320 | reports a missing key, deletes for ttl <= 0, otherwise moves the deadline |
| MemCacheImpl.MemCache.ScanExpired | cache/memcache.go:379-389 | deleting while ranging in any order equals the sweep on values |
| MemCacheImpl.MemCache.AddDelta | cache/memcache.go:246-265 | initialises a missing or expired key, updates a numeric one, leaves the rest on error |
| MemCacheImpl.Replay | cache/memcache.go:137-145 | a trace run on a real object answers every lookup as the abstract run does |
| TakeProtocol.TakeAgreement | cache/memcache.go:196-229 | in every interleaving at most one fetch per key succeeds and every successful Take returns that value, even after failed or panicked fetches |
| TakeProtocol.StepKeeps | cache/memcache.go:196-217 | what every step of lookup, barrier, double check, fetch, store and publication keeps |
| TakeProtocol.FetchIsReturned | cache/memcache.go:202-217 | over every run the value, error or panic a fetch delivers is what the Take that ran it returns, and every Take that joined its execution |
| TakeProtocol.TakeNeverStuck | cache/memcache.go:196-229 | while a Take has not returned, a step of its own execution is enabled and brings it closer to its return |
| SingleFlight.StepKeepsInv | syncx/singleflight.go:61-155 | the invariant of the call map, the call records and every caller's position |
| SingleFlight.ExclusiveExecution | syncx/singleflight.go:61-83 | at most one running fn per key; a leader's delete removes only its own record |
| SingleFlight.OutcomeOfJoinedExecution | syncx/singleflight.go:61-164 | over every run a returning caller gets the value, error or panic that fn delivered in the execution registered when it entered, or in its own |
| SingleFlight.SharedOutcome | syncx/singleflight.go:157-164 | callers of one execution return the same outcome |
| SingleFlight.NeverStuck | syncx/singleflight.go:94-139 | while a caller has not returned, a step of its own execution (its own, its leader's, or the close of its channel) is enabled and brings it closer to its return |
| SingleFlight.RemainingNeverGrows | syncx/singleflight.go:61-164 | no step of anyone sets a caller back |
| SingleFlight.ForgetBreaksExclusion | syncx/singleflight.go:166-172 | with Forget two executions can run, and the first leader deletes the second one's record |
| RollingWindowModel.RollingWindow.Add | breaker/window.go:71-75 | the ring afterwards represents the log with one more event |
| RollingWindowModel.RollingWindow.UpdateOffset | breaker/window.go:88-102 | the ring moves to the epoch of now, including gaps longer than the window, without drift |
| RollingWindowModel.RollingWindow.ResetExpired | breaker/window.go:94-97 | the modular loop clears exactly the buckets passed |
| RollingWindowModel.EpochFrom | breaker/window.go:79-102 | elapsed intervals since lastTime are epochs, and the aligned time is the start of one |
| Breaker.GoogleBreaker.History | breaker/sre.go:153-172 | history is the oldest-to-newest fold over the last 40 epochs of the log, and equals the counts taken from the log |
| Breaker.WindowByCounting | breaker/sre.go:176-189 | total and accepts count the entries and successes of the last epochs of the log; failing and working count the epochs of the current streak of failures and of successes |
| Breaker.GoogleBreaker.Traverse | breaker/sre.go:160-169 | the two loops equal the traversal with one modulo per bucket |
| Breaker.TraversalIsWindow | breaker/sre.go:158-169 | the visited slots are the epochs of the window, whatever span and offset |
| Breaker.GoogleBreaker.Accept | breaker/sre.go:72-104 | rejects exactly when the draw is below the probability; when lastPass moves |
| Breaker.DoReqs | breaker/sre.go:106-144 | over any interleaving of concurrent requests each dropped or finished request leaves exactly one event, a drop or its outcome, and there is no other event |
| Breaker.GoogleBreaker.Arrive | breaker/sre.go:108-126 | rejects with the probability of the current window and leaves a drop exactly then |
| Breaker.GoogleBreaker.Complete | breaker/sre.go:128-138 | leaves the outcome, whatever other requests did meanwhile |
| RejectionPolicy.ProbabilityInRange | breaker/sre.go:72-104 | for every event log the probability lies in [0, 1), and is 0 up to `protection` requests |
| RejectionPolicy.FailureNeverLowers | breaker/sre.go:176-189 | at a fixed instant a further failure or drop never lowers it |
| RejectionPolicy.SuccessNeverRaises | breaker/sre.go:176-189 | a further success never raises it when max(k, minK) >= 1 |
| RejectionPolicy.SuccessNeverRaisesIff | breaker/sre.go:77-82 | max(k, minK) >= 1 is exactly the condition over all reachable windows |
| RejectionPolicy.RejectsByCounting | breaker/sre.go:72-104 | the rejection probability by the throttling formula on numbers counted from the event log |
| RejectionPolicy.FailuresOpen | breaker/sre.go:72-104 | with no success in the window and more than `protection` requests the probability is (total - protection) / (total + 1) |
| TokenBucketModel.TokenBucket.Allow | ratelimit/ratelimit.go:55-75 | refills, caps, and takes one token exactly when one is there |
| TokenBucketModel.TokensInRange | ratelimit/ratelimit.go:55-75 | tokens stay in [0, burst] over every run |
| TokenBucketModel.AdmissionBound | ratelimit/ratelimit.go:55-75 | over every run the admissions in [t1, t2] number at most burst + rate * (t2 - t1) |
| TokenBucketModel.AdmittedIff | ratelimit/ratelimit.go:55-75 | after every run a call is admitted if and only if the bound, taken from each earlier call on, has room for it: nothing else is refused |
| TokenBucketModel.RefusalsInvisible | ratelimit/ratelimit.go:55-75 | refused calls do not change when the next token arrives |
| TokenBucketModel.RetryAfterSucceedsIff | ratelimit/ratelimit.go:95-117 | after any refused calls the hinted retry succeeds exactly when the exact wait is at most a millisecond or a whole number of nanoseconds, and always one nanosecond later |
| TokenBucketModel.RetryAfterCanFallShort | ratelimit/ratelimit.go:109-116 | a concrete bucket whose hint is one nanosecond short |
| SlidingWindowModel.SlidingWindow.Allow | ratelimit/ratelimit.go:142-156 | admits exactly when fewer than `limit` admissions lie in the window; a refusal means exactly `limit` do |
| SlidingWindowModel.SlidingWindow.PruneExpired | ratelimit/ratelimit.go:167-181 | keeps exactly the records inside the window |
| SlidingWindowModel.SlidingWindow.RetryAfter | ratelimit/ratelimit.go:197-213 | the hint is the least wait from a millisecond on that is admitted, and the least of all unless a shorter one than a millisecond would do; panics exactly for limit 0 |
| SlidingWindowModel.RunWindow | ratelimit/ratelimit.go:123-156 | a run with pruning admits what counting all admissions would |
| SlidingWindowModel.RunBound | ratelimit/ratelimit.go:121-128 | over every run each interval (t - window, t] holds at most `limit` admissions |
| SlidingWindowModel.RetryAfterPanics | ratelimit/ratelimit.go:191-208 | a fresh limiter panics in RetryAfter, where 0 is documented, exactly for limit 0 |
| RedisTokenBucket.ExpiryUnobservable | ratelimit/redis.go:76-103 | the script with its TTL decides every run as the never-expiring in-memory bucket |
| RedisTokenBucket.StepMatches | ratelimit/redis.go:82-100 | one call of the script against one call of the bucket, key lost or not |
| RedisSlidingWindow.ExpiryUnobservable | ratelimit/redis.go:167-222 | for the members the limiter builds, of any number of processes, the script with PEXPIRE decides every run as the in-memory window |
| RedisSlidingWindow.StepTied | ratelimit/redis.go:174-189 | one call keeps the sorted set equal to the list of live records |
| RedisSlidingWindow.DuplicateMembersUndercount | ratelimit/redis.go:19-25 | without unique members the limit can be exceeded |
| MemberNames.NameInjective | ratelimit/redis.go:214-222 | equal members come from the same process and counter |
| RedisLock.StepKeepsInv | redisx/lock.go:100-206 | acquire, renew, release and expiry keep a live lease equal to the stored key |
| RedisLock.MutualExclusion | redisx/lock.go:100-143 | over every interleaving no two leases are live at once and a live lease owns the key |
| RedisLock.ForeignStepsHarmless | redisx/lock.go:177-206 | no Unlock, renewal or acquisition of another client changes an owned key |
| RedisLock.LeaseHolds | redisx/lock.go:224-271 | over every run a lease lasts until its deadline or its own Unlock |
| RedisLock.OwnedIffLive | redisx/lock.go:100-143 | a token owns the key exactly when its lease is live |
| RedisLock.TryLockIff | redisx/lock.go:100-143 | over every run a TryLock ends up owning the key for the whole milliseconds of its ttl if and only if the ttl is valid and no lease is live; otherwise the key is untouched |
| RedisLock.UnlockFrees | redisx/lock.go:177-206 | over every run the Unlock of the owner leaves no owner and no live lease |
| RedisLock.RenewExtends | redisx/lock.go:234-264 | a renewal by the owner sets the deadline anew, one by anybody else changes nothing |
| RedisLock.IntervalIsThird | redisx/lock.go:224-231 | the renewal interval is a third of the ttl, at least a millisecond |
| RedisLock.LeaseContinuity | redisx/lock.go:224-271 | for ttl >= 3ms, in every run with any steps of other clients, a lock whose loop misses no two consecutive ticks owns its key until its own Unlock |
| RedisLock.LoopContinuity | redisx/lock.go:224-253 | the renewal loop alone keeps the key at every instant |
| RedisLock.ContinuityIff | redisx/lock.go:212-231 | 3ms is exactly the bound for that |
| Backoff.BackoffExact | retry/delay.go:12-57 | for delay * maxDelay <= 2^63 every attempt waits min(delay * 2^(a-1), maxDelay), despite the wrap-around |
| Backoff.DelayExactIff | retry/delay.go:19-33 | for one attempt the delay is exact unless the wrapped shift lands in [delay, maxDelay) |
| Backoff.ScheduleExactIff | retry/delay.go:19-33 | the whole schedule is exact exactly when none of the first 64 attempts misleads |
| Backoff.BackoffInexactOutside | retry/delay.go:21-31 | a concrete configuration outside the bound with a wrong delay |
| Backoff.IdealMonotone | retry/delay.go:19-33 | the schedule never decreases |
| Backoff.JitterRange | retry/delay.go:38-57 | jitter adds at most half and respects the ceiling |
| Backoff.JitteredBackoff | retry/delay.go:12-57 | within the bound, jitter adds the draw to the ideal delay under the ceiling |
| Backoff.NoCeilingIsLargest | retry/delay.go:19-36 | without a ceiling the strategy acts as under the largest duration, with the same exactness condition |
| Backoff.CustomDelay | retry/delay.go:12-17 | a custom strategy is only clamped to zero and the ceiling |
| Retry.DoRetry | retry/retry.go:80-133 | number of executions, both directions of each outcome, a done context stops the run, one prescribed delay per retry |
| Retry.ScheduleIsIdeal | retry/retry.go:112-127 | the delays of a run are the ideal ones and nondecreasing |
| Retry.ScheduleIsCustom | retry/retry.go:112-127 | with a custom strategy every wait is its clamped answer to the attempt and the wait before |
| Retry.Normalize | retry/retry.go:59-78 | defaults first, the retry predicate included, then the options in order |
| Retry.UnsetRetriesAll | retry/retry.go:60-62 | with no predicate set, every error is retried |
| Retry.DoWithRetryConfig | retry/retry.go:42-44 | fn runs at most Attempts times, exactly that often when exhausted |
| Retry.LastOptionWins | retry/config.go:78-130 | the last option of each kind is in force, zeros included, and decides Attempts |
| Retry.UnsetStays | retry/retry.go:59-78 | what no option sets stays as the configuration and the defaults have it |
| Retry.UnsetIsDefault | retry/retry.go:60-71 | an unset field is 3 retries, 100ms, 10s |
| Retry.DefaultsAreExact | retry/config.go:21-28 | the default configuration lies within the exactness bound |
| ServiceGroup.StepKeepsInv | service/servicegroup.go:132-219 | the invariant of starter, workers, barrier and stopper over every step |
| ServiceGroup.StopGuarantees | service/servicegroup.go:184-219 | each service is stopped at most once, in reverse order, and behind the barrier when doStop saw started |
| ServiceGroup.BarrierRespected | service/servicegroup.go:184-199 | if Start had begun when doStop looked, no Stop is dispatched before every goroutine has reported entry |
| ServiceGroup.GoroutineStory | service/servicegroup.go:154-177 | over every run a goroutine calls Start, ends by its return or its panic and not both, and after a panic not before every service was stopped |
| ServiceGroup.PanicStopsAll | service/servicegroup.go:159-172 | the goroutine of a service that panicked does not end before every service has been stopped |
| ServiceGroup.StopGoesOn | service/servicegroup.go:159-219 | once Stop was called or a service has panicked, a step of the stop is enabled that brings its end closer, begun by the panicking service if nobody else has |
| ServiceGroup.StopWorkNeverGrows | service/servicegroup.go:132-219 | no step of anyone sets a stop back |
| ServiceGroup.StopCompletes | service/servicegroup.go:159-219 | following those steps, every service is stopped within the measure |
| ServiceGroup.WaitingStopReleased | service/servicegroup.go:194-199 | a waiting doStop can pass or a barrier step of another goroutine is enabled |
| ServiceGroup.WorkNeverGrows | service/servicegroup.go:145-178 | the barrier work never grows and every barrier step shrinks it |
| ServiceGroup.BarrierTerminates | service/servicegroup.go:145-199 | barrier steps alone release a waiting doStop within that measure |
| ServiceGroup.StopFollowsStartIff | service/servicegroup.go:33-36 | the documented order, no Stop before that service's Start was called, holds on every continuation of a call of Stop if and only if every Start has been called by then |
| ServiceGroup.StopCanPrecedeStart | service/servicegroup.go:33-36 | concrete runs that break it, before and behind the barrier |
| Sse.SSEWriter.Event | httpx/response.go:364-372 | appends the event frame |
| Sse.SSEWriter.WriteField | httpx/response.go:416-423 | one field line per line of the value |
| Sse.SSEWriter.Comment | httpx/response.go:391-403 | appends the comment frame |
| Sse.SSEWriter.Retry | httpx/response.go:406-412 | appends the retry frame |
| Sse.RoundTrip | httpx/response.go:361-423 | the standard's parser dispatches exactly the Event calls' (type, data) pairs in order and takes over the interval of the last Retry call |
| Sse.CommentReadsBack | httpx/response.go:391-403 | a comment frame carries its text, line by line |
| Sse.EventRoundTripIff | httpx/response.go:364-372 | one event survives exactly when its name has no CR or LF and its data no CR |
| ResponseWriters.CryptionWriter.Write | httpx/respw/cryption_writer.go:58-75 | buffers within the limit, otherwise status, buffer and write go through in order |
| ResponseWriters.CryptionWriter.WriteHeader | httpx/respw/cryption_writer.go:80-85 | records the status and sends nothing more |
| ResponseWriters.CryptionWriter.WriteHeaderToUnderlying | httpx/respw/cryption_writer.go:91-99 | forwards a non-zero status once |
| ResponseWriters.RunCryption | httpx/respw/cryption_writer.go:58-99 | for every call sequence: byte conservation, overflow exactly beyond a positive limit, one leading status |
| ResponseWriters.TimeoutWriter.Write | httpx/respw/timeout_writer.go:38-49 | refused without effect after a timeout; never sends |
| ResponseWriters.TimeoutWriter.WriteHeader | httpx/respw/timeout_writer.go:52-58 | only the first status is recorded |
| ResponseWriters.TimeoutWriter.Flush | httpx/respw/timeout_writer.go:80-99 | sends everything buffered, nothing after a timeout or without a flusher |
| ResponseWriters.TimeoutWriter.Done | httpx/respw/timeout_writer.go:63-69 | headers and status at most once, then every accepted byte |
| ResponseWriters.TimeoutWriter.SendHeader | httpx/respw/timeout_writer.go:117-129 | headers and status go out on the first call only |
| ResponseWriters.RunTimeout | httpx/respw/timeout_writer.go:38-135 | for every call sequence: exactly the bytes written before the timeout, sent up to the last permitted flush, led by the status and the headers in force when the header went out |
| ResponseWriters.LateHeaderIgnoredIff | httpx/respw/timeout_writer.go:51-76 | after a timeout WriteHeader is without effect on everything sent later, as documented, if and only if a status was recorded or the header sent before |
| ResponseWriters.LateHeader | httpx/respw/timeout_writer.go:51-69 | a handler that only sets a status after the timeout has it sent by Done |
| Segments.ParseSegments | mapping/fieldoptions.go:396-439 | the loop computes the scanner fold |
| Segments.ParseEncoded | mapping/fieldoptions.go:396-439 | parsing an escaped, comma-joined list with bracketed groups gives the trimmed meanings, without a blank last one |
| Segments.RoundTripIff | mapping/fieldoptions.go:396-439 | the list comes back exactly when every segment is trimmed and the last not empty |
| Segments.GroupVerbatim | mapping/fieldoptions.go:409-427 | a bracketed body free of brackets passes through with commas and backslashes |
| Segments.NothingLost | mapping/fieldoptions.go:396-439 | for every input the segments with their separators are the input, but for spaces, backslashes and a final comma |
| Segments.TrimIs | mapping/fieldoptions.go:412-436 | trimming cuts all spaces off both ends and nothing else |
| Segments.GroupedRoundTripIff | mapping/fieldoptions.go:441-451 | a bracket-wrapped list survives exactly when its last text does not end with a closing bracket |

## Left out

- cache/memcache.go: `Increment`, `Decrement` and `Take` are outside the inclusion theorem, since their effect depends on presence or on a fetch; `addToValue` (reflection on numeric kinds) is a function argument; hit statistics, locks and the scan and statistics loops are not modelled.
- MemCacheImpl.MemCache.DoGet: the double-checked lock upgrade of the unlimited read path is one critical section with one clock reading.
- breaker/window.go reads the clock twice per write; the model uses one reading, and 64-bit overflow of the counters is not modelled. `cfg.window / 40 > 0` is required, since the source divides by it.
- Breaker.GoogleBreaker.Arrive: the decision and the drop it leaves are one moment with one clock reading.
- breaker/circuit.go and breakers.go: logging facade and registry.
- SingleFlight.StepKeepsInv: `Forget` is not a step of the machine; `ForgetBreaksExclusion` shows why.
- ratelimit: `Concurrency` and `Chain` would only add easy counters; Redis under skewed client clocks and negative rate, burst or limit are outside the theorems; the constant `RetryAfter` estimates of the Redis limiters are not modelled.
- RedisTokenBucket.ExpiryUnobservable: Lua and Go arithmetic is over reals, so float rounding of stored token counts is not captured.
- RedisSlidingWindow.ExpiryUnobservable: both limiters work on millisecond timestamps and a window in whole milliseconds; that process prefixes differ and hold no colon (random hex digits, or host, pid and start time) is an assumption.
- redisx/lock.go: the blocking `Lock` loop, `SetNXWithLock` and Redis failures other than a renewal that does not arrive.
- retry/delay.go: the ready-made strategies `ExponentialBackoff`, `FixedDelay` and `LinearDelay`.
- Retry.Normalize: the option `WithOnRetry` and its callback, which influence neither executions nor delays, and the text of errors.
- ServiceGroup.StopGuarantees: one Start, and every Add before the run begins; the return of the Stop calls is one step.
- httpx/response.go: JSON helpers and headers of the SSE response, and write errors of the connection.
- ResponseWriters.CryptionWriter.Write: the underlying writer does not fail; `Flush` forwarding and `Hijack` are not modelled.
- mapping/fieldoptions.go: option and range parsing on top of the segments, and everything driven by reflection.
- storage, orm, jwt, hash, logger, trace, taskq, conf, cast, stringx, websocket, the HTTP server and middleware: wrappers around libraries, or code whose properties would be easy.
