# Verified core of the MES dashboard

A Dafny model of the dashboard's concurrency protocols, caches, round trips and derived
figures, with proofs about whole runs.  `dafny verify dfyconfig.toml` checks everything.

| file | what it models |
|---|---|
| `MemoryCache.dfy`, `LruRuns.dfy` | the LRU and TTL cache of one process, call by call and over whole runs |
| `LayeredCache.dfy`, `Staleness.dfy` | memory over Redis; many processes and threads, how old a served value can be |
| `HeavyQuerySlots.dfy` | the Redis sorted-set semaphore that limits heavy queries |
| `ChunkFanOut.dfy`, `JobLifecycle.dfy` | the chunked job: its thread-pool fan-out, and `run` from the pre-query to the clean-up |
| `JobFleet.dfy` | any number of chunked jobs over one limiter |
| `SlowQueryGate.dfy` | the slow-query semaphore and counters, with an engine disposed under running queries |
| `CircuitBreaker.dfy` | the timed three-state breaker over a sliding window |
| `LoginSessions.dfy` | the login-session table and its sync flag |
| `IndexedQuery.dfy` | an inverted index against a row scan |
| `TraceLineage.dfy`, `TraceStream.dfy` | the lineage walk, the NDJSON reader and the fold over its messages |
| `CsvExport.dfy` | the CSV printer against an RFC 4180 reader |
| `YieldTrend.dfy`, `KpiRounding.dfy`, `HoldTrend.dfy` | derived input quantity, rounded percentages, daily flow balance |
| `JsText.dfy`, `Options.dfy`, `Sets.dfy` | shared text operations, the option type, set cardinality |

Times are readings of one shared clock that never runs backwards.  Quantities are exact
reals.  Redis, SQLite and Oracle are abstract state with the operations the code calls.  Code
that updates objects in place is a class whose methods are proved against functions on the
old and new state; code that several workers run at once is a state machine whose steps are
the atomic parts of the code, and the theorems range over every interleaving.  Every lemma
switches automatic induction off, so each proof is the one written down.

## Where the code and its description part

* The limiter's module comment says the limit bounds the heavy jobs that hit Oracle at once.
  `heavy_query_slot` yields whether or not a slot was granted, as its own comment says.  For
  every limit, some run has more jobs fetching at once than the limit exactly if there are more
  jobs than the limit (`JobFleet.LimitExceedableExactlyWhen`).  What the limiter does bound are
  the jobs fetching under a granted slot younger than 2 * ttl (`GrantedFetchersBounded`).  The
  same module comment calls an entry's score the time of its grant; the script stores that time
  plus ttl.
* `get_active_slot_count` cleans up with a fixed window of 600 s.  It drops a live holder's
  entry exactly from age ttl + 600 on (`ObserverLosesExactly`), so for any ttl above 600 one
  status poll lets a further slot be granted (`ObserverBreaksLongTtl`).  No caller in the
  repository passes a ttl, so all run with the default of 600, for which the count is exact
  (`ObserverCountsLive`).
* The slot bound needs owner ids that differ between open grants.  If ids may be shared it fails
  for every positive limit (`SharedOwnerIdBreaksBound`); the acquire that breaks the count is
  exactly one whose id a live grant already holds (`AcquireKeepsCountExactlyWhen`).
* A breaker whose `_open_time` is exactly 0.0 never recovers, since the code tests the value
  for truth (`OpenedAtZeroIsStuck`, and `OpensAtZeroAndSticks` for a run that gets there).  That
  takes a clock that can read zero; `time.time()` on a set clock does not.  HALF_OPEN is
  described as letting limited requests through and lets all through (`HalfOpenAdmitsAll`).
* The lazy initialisation of the slow-query semaphore can be raced.  From a cold start some run
  has more slow queries than the limit, without any disposal, exactly if the limit is at least
  one and there are more threads than that (`SlowQueryGate.LimitExceedableExactlyWhen`).  Once the
  semaphore is there and no thread is about to make one, no run without a disposal exceeds the
  limit (`WarmStartKeepsLimit`).
* `mark_synced` flags a row by id alone.  A row changed between `get_unsynced` and
  `mark_synced` is flagged although its change was not uploaded (`MarkHidesExactlyTheTouched`),
  and `cleanup_synced` deletes that change exactly if nothing touches the row after the mark
  (`UnsentChangeDeletedExactlyWhen`, `HeartbeatLost`).
* A heartbeat reopens a closed session even if the user has a newer open one
  (`HeartbeatOpensASecond`).
* The CSV printer quotes for comma, quote and line feed, as its comment says, but not for a
  carriage return, which RFC 4180 also wants quoted: `CsvRoundTrip` gives the exact condition.
* In the yield trend a null station's scrap is filed under `null` and looked up under the empty
  name, so it is charged with the scrap of the station named "", and a station named "null" may
  be charged with the null station's.  Each gets its own exactly under the conditions of
  `NullStationGetsItsScrapExactlyWhen` and `StationNamedNullGetsItsScrapExactlyWhen`.  The server
  never sends a null station: `_normalize_yield_department_group`
  (src/mes_dashboard/services/yield_alert_service.py:158-180) turns a missing one into "(NA)",
  and both producers of the table apply it
  (src/mes_dashboard/services/yield_alert_dataset_cache.py:174 and 217).  On such tables every
  station gets its own scrap (`WithoutNullsAllGetTheirs`).
* The memory cache reads the clock before it takes the lock, so a `get` can miss a value that
  its own reading finds alive.  For a key with fewer rivals than `max_size` that happens exactly
  if an earlier `set` of any key, or an earlier `get` of the same one, read the clock at or past
  the expiry (`LateReaderMissesExactlyWhen`, with a run in `LateReaderMisses`).
* The yield trend takes its derived quantity to be a day's input, but it can be larger than all
  transactions or smaller than those of every station: the code counts reversals as negative
  scrap, and a station may have scrap without transactions.  A station keeps every day of regular
  companions within those bounds exactly if its yield is not clamped, neither its scrap nor its
  transactions are negative, and without transactions it has no scrap (`BoundsHoldExactlyWhen`).
* The benchmark's two queries agree on every query with four non-empty keys, and on others
  only under the condition of `IndexAgreesExactlyWhen`.

## Model

| member | source | states |
|---|---|---|
| MemoryCache.MemoryTTLCache.EvictExpired | src/mes_dashboard/core/cache.py:203-206 | the clean-up loop leaves exactly the unexpired entries, in order |
| MemoryCache.MemoryTTLCache.Get | src/mes_dashboard/core/cache.py:208-222 | the answer and the whole new store: an expired entry is dropped, a live one moves to the back; the size bound and distinct keys are kept, hits and misses counted |
| MemoryCache.MemoryTTLCache.Set | src/mes_dashboard/core/cache.py:224-233 | the whole new store, with its size bound and distinct keys |
| MemoryCache.RoomDrops | src/mes_dashboard/core/cache.py:224-233 | an entry of another key that `set` drops has expired, or was the front of a full store |
| MemoryCache.SetKeepsValid | src/mes_dashboard/core/cache.py:224-233 | `set` never exceeds `max_size` and never duplicates a key |
| LruRuns.RunsKeepRecencyOrder | src/mes_dashboard/core/cache.py:203-233 | after every run of calls: at most `max_size` entries, distinct keys, in the order of their last touches, each holding the value last set |
| LruRuns.RivalsAreTheLaterTouches | src/mes_dashboard/core/cache.py:208-233 | the rivals of a key, as counted by the eviction theorem, are exactly the keys set or hit since its own last touch |
| LruRuns.HitReturnsLastSet | src/mes_dashboard/core/cache.py:208-233 | a hit returns the value last set for that key, before its expiry |
| LruRuns.MissExplained | src/mes_dashboard/core/cache.py:203-233 | a miss means never set, or found expired since the last set by a `set` of any key or a `get` of the same one, or at least `max_size` distinct other keys set or hit since the key's last touch; clock readings need not follow the lock order |
| LruRuns.ExpiredIsGone | src/mes_dashboard/core/cache.py:203-233 | a key found expired by such a call is gone until it is set again, whatever its rivals |
| LruRuns.RecentKeyMissesExactlyWhen | src/mes_dashboard/core/cache.py:203-233 | a key that was set and has fewer rivals than `max_size` misses if and only if such a call found it expired, and otherwise gives the value last set |
| LruRuns.LateReaderMissesExactlyWhen | src/mes_dashboard/core/cache.py:208-233 | a `get` of such a key whose own reading is before the expiry misses if and only if an earlier call found it expired |
| LruRuns.LateReaderMisses | src/mes_dashboard/core/cache.py:208-233 | one such run: another key's `set`, with a later reading, is first at the lock |
| LayeredCache.RedisJSONCache.Get | src/mes_dashboard/core/cache.py:264-282 | the stored value while it lives and Redis answers, None in every other case |
| LayeredCache.RedisJSONCache.Set | src/mes_dashboard/core/cache.py:284-299 | a write Redis takes is what every later read gets until max(ttl, 1) has passed and not after; a lost one changes no read; no other key is affected |
| LayeredCache.LayeredCache.Get | src/mes_dashboard/core/cache.py:327-345 | memory first, a stored null counting as a miss; else Redis, backfilling memory for 60 s; exactly one of the three counters moves, the right one |
| LayeredCache.LayeredCache.Set | src/mes_dashboard/core/cache.py:347-351 | both layers get the value with the caller's ttl, Redis perhaps not |
| Staleness.InvStep | src/mes_dashboard/core/cache.py:208-299 | every step of every thread of every process, clock readings, memory and Redis accesses apart, keeps each stored value tied to a `set` and within its allowance |
| Staleness.BoundedStaleness | src/mes_dashboard/core/cache.py:208-351 | any value a `get` takes from the cache at t was given to a `set` of that key whose clock reading was t0, with t < t0 + max(ttl, 1) + 60 + 3 * delay, where delay is the longest pause inside a call (a `set` after its reading, a `get` between its reading and the lock, a backfill after the Redis read); without a backfill t < t0 + max(ttl, 1) + delay |
| Staleness.StalenessBoundIsSharp | src/mes_dashboard/core/cache.py:208-351 | for every ttl, every longest pause and every age below that bound, pauses included, some run serves a value that old, so the bound cannot be lowered |
| Staleness.MemoryBoundIsSharp | src/mes_dashboard/core/cache.py:208-351 | likewise the bound without a backfill, by runs without one |
| Staleness.WholeGetIsItsSteps | src/mes_dashboard/core/cache.py:327-345 | the steps of the concurrent model, run back to back, are the sequential `get` |
| Staleness.WholeSetIsItsSteps | src/mes_dashboard/core/cache.py:347-351 | likewise `set`, in memory and in Redis |
| HeavyQuerySlots.SlotLimiter.Acquire | src/mes_dashboard/core/global_concurrency.py:49-70 | the script's effect on the sorted set and key expiry, granted or refused |
| HeavyQuerySlots.SlotLimiter.Release | src/mes_dashboard/core/global_concurrency.py:126-135 | the owner has no entry left, every other entry is there with its score, and an emptied set has no expiry |
| HeavyQuerySlots.SlotLimiter.ActiveCount | src/mes_dashboard/core/global_concurrency.py:169-181 | the count is of the entries whose score is less than 600 s back, exactly those stay, unchanged, and counting again changes nothing |
| HeavyQuerySlots.ObserverLosesExactly | src/mes_dashboard/core/global_concurrency.py:169-181 | a poll drops a live grant's entry if and only if the grant is ttl + 600 old or older |
| HeavyQuerySlots.CleanedSetIsLive | src/mes_dashboard/core/global_concurrency.py:49-70 | in every state kept by the protocol, the owners with an entry after an acquire's clean-up are exactly those of unreleased grants younger than 2 * ttl, and as many |
| HeavyQuerySlots.AcquireIsExact | src/mes_dashboard/core/global_concurrency.py:49-70 | an acquire succeeds if and only if fewer than the limit are unreleased and younger than 2 * ttl |
| HeavyQuerySlots.InvStep | src/mes_dashboard/core/global_concurrency.py:49-135 | acquire, release, time, key expiry and observation keep that correspondence |
| HeavyQuerySlots.SlotSafety | src/mes_dashboard/core/global_concurrency.py:49-135 | in every interleaving the live grants never exceed the limit, an acquire is granted exactly below it, every live grant's entry is there with its score whatever keys expired, and no grant of age 2 * ttl or more is counted by an acquire |
| HeavyQuerySlots.KeyOutlivesNewestGrant | src/mes_dashboard/core/global_concurrency.py:49-70 | in every run, owner ids shared or not, the key expires exactly 2 * ttl after the newest grant |
| HeavyQuerySlots.ObserverCountsLive | src/mes_dashboard/core/global_concurrency.py:169-181 | with the default ttl the reported count is exactly the number of live grants |
| HeavyQuerySlots.ObserverBreaksLongTtl | src/mes_dashboard/core/global_concurrency.py:169-181 | for every ttl above 600 and every positive limit, a run with one observation has limit + 1 live grants |
| HeavyQuerySlots.SharedOwnerIdBreaksBound | src/mes_dashboard/core/global_concurrency.py:86-123 | with owner ids shared, for every positive limit some run has one live grant more |
| HeavyQuerySlots.AcquireKeepsCountExactlyWhen | src/mes_dashboard/core/global_concurrency.py:49-70 | where an acquire counts exactly the live grants, a granted one leaves it so if and only if no live grant holds its owner id |
| ChunkFanOut.ChunkFileIsInjective | src/mes_dashboard/core/base_chunked_duckdb_job.py:341-345 | the padded file name determines chunk and batch for all naturals, above 9999 too |
| ChunkFanOut.ChunkFileSpells | src/mes_dashboard/core/base_chunked_duckdb_job.py:341-345 | the name spells both numbers in decimal, padded to four digits, longer ones unpadded |
| ChunkFanOut.ReduceSequentially | src/mes_dashboard/core/base_chunked_duckdb_job.py:306-325 | the table holds every row of every batch, as often as it occurs |
| ChunkFanOut.AppendSequentially | src/mes_dashboard/core/base_chunked_duckdb_job.py:327-358 | one file per batch with exactly that batch, and no other file |
| ChunkFanOut.PoolStaysOk | src/mes_dashboard/core/base_chunked_duckdb_job.py:306-358 | at every point of every interleaving table and files hold exactly the batches written |
| ChunkFanOut.FanOutEqualsSequential | src/mes_dashboard/core/base_chunked_duckdb_job.py:306-358 | every complete interleaving yields the sequential branch's rows and its file map |
| JobLifecycle.JobSafety | src/mes_dashboard/core/base_chunked_duckdb_job.py:204-254 | failing anywhere: aggregation only after all chunks are done, reports a prefix of 5, 15, 90, 100 and all of them exactly without an exception, a granted slot released exactly once and after the workers, temp files gone unless deleting failed |
| JobLifecycle.OutcomeFollowsRun | src/mes_dashboard/core/base_chunked_duckdb_job.py:204-254 | by the actions of the run: a chunk that raised keeps the job from aggregating and from reporting more than 5; aggregation, and any report after the first, comes only when every chunk has ended without raising; as many brackets as reports that went through, 90 only after an aggregation that did; the job ends with an exception if and only if some hook or chunk raised |
| JobLifecycle.ResourcesFollowRun | src/mes_dashboard/core/base_chunked_duckdb_job.py:204-276 | by the actions of the run: the slot is taken and given back as often as granted and left, chunks run only in between; the temp database exists once something was written or aggregated, the chunk directory once it was made, until the clean-up; without a failed deletion nothing is left |
| JobLifecycle.SequentialInOrder | src/mes_dashboard/core/base_chunked_duckdb_job.py:316-318 | without a pool a chunk starts only after every earlier one has ended without raising |
| JobLifecycle.CleanUpAfterWorkers | src/mes_dashboard/core/base_chunked_duckdb_job.py:245-254 | when a clean-up step can run, no worker writes or can start |
| JobLifecycle.NeverStuck | src/mes_dashboard/core/base_chunked_duckdb_job.py:204-254 | every reachable state but the end has a next step |
| JobLifecycle.JobEnds | src/mes_dashboard/core/base_chunked_duckdb_job.py:204-254 | no run has more than 13 + 2 * chunks steps besides batch writes, so with the row above every job whose queries yield finitely many batches ends |
| JobLifecycle.RunKeepsInv | src/mes_dashboard/core/base_chunked_duckdb_job.py:204-254 | the invariant behind these, over every run |
| JobLifecycle.PoolWaitsForAll | src/mes_dashboard/core/base_chunked_duckdb_job.py:316-325 | in every run of the parallel branch, once the slot is given back, aggregation begun or the job unwinding, every chunk has ended, failed ones or not, unless none was started |
| JobFleet.LimitExceedableExactlyWhen | src/mes_dashboard/core/global_concurrency.py:137-166 | for every limit, some run of several jobs has more of them fetching at once than the limit if and only if there are more jobs than the limit |
| JobFleet.AllFetchAtOnce | src/mes_dashboard/core/global_concurrency.py:137-166 | for every limit and any number of jobs, a run in which all of them fetch at once |
| JobFleet.GrantedFetchersBounded | src/mes_dashboard/core/global_concurrency.py:49-166 | in every run of any number of jobs, those fetching under a granted slot younger than 2 * ttl never exceed the limit, and a job inside a granted slot holds an open grant of its own |
| CircuitBreakers.CircuitBreaker.CurrentState | src/mes_dashboard/core/circuit_breaker.py:130-142 | the state read, and the move from OPEN to HALF_OPEN it may make |
| CircuitBreakers.CircuitBreaker.AllowRequest | src/mes_dashboard/core/circuit_breaker.py:144-161 | the decision and the whole new state, disabled breaker included |
| CircuitBreakers.CircuitBreaker.RecordSuccess | src/mes_dashboard/core/circuit_breaker.py:163-177 | the whole new state; closing from HALF_OPEN clears the window |
| CircuitBreakers.CircuitBreaker.RecordFailure | src/mes_dashboard/core/circuit_breaker.py:179-197 | the whole new state, and the one case that raises: an empty window with threshold at most zero |
| CircuitBreakers.CircuitBreaker.CheckAndOpen | src/mes_dashboard/core/circuit_breaker.py:199-213 | opens exactly when length, count and rate all reach their limits |
| CircuitBreakers.WindowIsLast | src/mes_dashboard/core/circuit_breaker.py:125-284 | over every run the window is the last min(n, window) outcomes since it was last cleared |
| CircuitBreakers.ClosedIsQuiet | src/mes_dashboard/core/circuit_breaker.py:163-213 | with threshold at least 1, after every run a CLOSED breaker's window does not meet the opening condition, evicting successes included |
| CircuitBreakers.FailureOpensExactlyWhen | src/mes_dashboard/core/circuit_breaker.py:179-213 | a failure recorded while CLOSED opens the breaker if and only if among the outcomes that fit the window, itself included, at least the threshold have failed and these are at least the rate times their number |
| CircuitBreakers.LastFailureIsKept | src/mes_dashboard/core/circuit_breaker.py:179-197 | the last failure time is that of the last failure since the last reset |
| CircuitBreakers.ClosedAdmits | src/mes_dashboard/core/circuit_breaker.py:144-177 | a CLOSED breaker admits every request, and only a failure can open it |
| CircuitBreakers.DisabledAdmitsAll | src/mes_dashboard/core/circuit_breaker.py:144-197 | switched off it records nothing and admits everything |
| CircuitBreakers.NeverLeavesClosed | src/mes_dashboard/core/circuit_breaker.py:199-213 | with a window too small for the failures needed (the threshold, or one if that is lower), a rate above 1, or disabled, no run leaves CLOSED |
| CircuitBreakers.OpensExactlyWhen | src/mes_dashboard/core/circuit_breaker.py:179-213 | for every setting, some run opens the breaker if and only if it is enabled, the failures needed fit the window and the rate is at most 1 |
| CircuitBreakers.OpenSince | src/mes_dashboard/core/circuit_breaker.py:179-231 | in every run an OPEN breaker's open time is that of the failure that opened it, and it has been OPEN ever since |
| CircuitBreakers.StaysOpen | src/mes_dashboard/core/circuit_breaker.py:130-197 | no sequence of calls but a reset moves an OPEN breaker or its open time before the timeout, and nothing is admitted |
| CircuitBreakers.AdmittedAfterTimeout | src/mes_dashboard/core/circuit_breaker.py:130-161 | in every run standing OPEN a request is admitted if and only if the timeout has passed since the opening failure and that was not at clock zero |
| CircuitBreakers.OpenedAtZeroIsStuck | src/mes_dashboard/core/circuit_breaker.py:134-139 | opened at clock zero, no run without a reset ever admits a request |
| CircuitBreakers.OpensAtZeroAndSticks | src/mes_dashboard/core/circuit_breaker.py:134-228 | in every setting in which the breaker can open at all, a clock reading of zero gives a run after which no request is admitted short of a reset |
| CircuitBreakers.ClosesThroughHalfOpen | src/mes_dashboard/core/circuit_breaker.py:130-246 | every run from OPEN to CLOSED without a reset has a look after the timeout and later a success recorded in HALF_OPEN |
| CircuitBreakers.LookHalfOpens | src/mes_dashboard/core/circuit_breaker.py:130-161 | a look at an OPEN breaker makes it HALF_OPEN if and only if the timeout has run since the failure that opened it, and changes nothing else |
| CircuitBreakers.HalfOpenFailureReopens | src/mes_dashboard/core/circuit_breaker.py:179-197 | in every run that stands HALF_OPEN a failure at t opens it again with open time t, and without a reset nothing is admitted before t + recovery_timeout |
| CircuitBreakers.HalfOpenSuccessCloses | src/mes_dashboard/core/circuit_breaker.py:163-177 | likewise a success closes it, with an empty window and no open time |
| CircuitBreakers.HalfOpenAdmitsAll | src/mes_dashboard/core/circuit_breaker.py:153-161 | any number of requests is admitted in HALF_OPEN until an outcome is recorded |
| SlowQueryGate.CountersAndPermits | src/mes_dashboard/core/database.py:799-966 | in every interleaving with timeouts, errors, abandoned iterators and disposals: the counters equal the threads in their sections, and permits plus holders equal the capacity of every semaphore ever made |
| SlowQueryGate.QuietMeansClean | src/mes_dashboard/core/database.py:799-866 | when all readers are done the counters are zero and all permits are back |
| SlowQueryGate.ActiveWithinCaps | src/mes_dashboard/core/database.py:540-547 | running queries never exceed the summed capacities of the semaphores made |
| SlowQueryGate.LimitHoldsWithoutRace | src/mes_dashboard/core/database.py:540-547 | without a disposal and without a thread that finds no semaphore while another is making one, running queries stay within the limit |
| SlowQueryGate.OneSemaphoreExactlyWithoutRace | src/mes_dashboard/core/database.py:540-547 | a run without a disposal, with no thread still making one, has made at most one semaphore if and only if it had no such race |
| SlowQueryGate.WarmStartKeepsLimit | src/mes_dashboard/core/database.py:540-547 | once the semaphore is there and no thread is about to make one, no run without a disposal exceeds its limit, wherever the readers are |
| SlowQueryGate.LimitExceedableExactlyWhen | src/mes_dashboard/core/database.py:501-547 | from a cold start with one configured limit, some run, with or without disposals, exceeds it if and only if it is at least one and smaller than the number of threads |
| SlowQueryGate.RaceExceedsLimit | src/mes_dashboard/core/database.py:540-547 | for every limit of at least one and every greater number of threads, a run without a disposal with limit + 1 queries running |
| SlowQueryGate.DisposalsLetAllIn | src/mes_dashboard/core/database.py:501-547 | with disposals every one of any number of readers can run at once, whatever positive limit is configured |
| SlowQueryGate.ReaderNeverStuck | src/mes_dashboard/core/database.py:799-862 | in every reachable state every reader that has begun has a next step |
| LoginSessions.LoginSessionStore.CreateSession | src/mes_dashboard/core/login_session_store.py:149-246 | the new table, resumed or new; the session returned is open, that user's, stamped now, unsynced and less than 8 h old |
| LoginSessions.LoginSessionStore.UpdateLastActive | src/mes_dashboard/core/login_session_store.py:248-285 | the three UPDATE statements together are one unconditional update |
| LoginSessions.HeartbeatIsOneUpdate | src/mes_dashboard/core/login_session_store.py:262-283 | they are if and only if no open row of the session carries a duration |
| LoginSessions.LoginResumes | src/mes_dashboard/core/login_session_store.py:165-196 | a login with an open session no older than eight hours stamps the newest such and changes nothing else |
| LoginSessions.LoginOpens | src/mes_dashboard/core/login_session_store.py:198-238 | any other login adds one open row and closes whatever the user had open, now, with the whole time since its login as duration; nothing else changes |
| LoginSessions.HeartbeatStamps | src/mes_dashboard/core/login_session_store.py:248-285 | a heartbeat leaves the session's row open, stamped and unsynced, and every other row as it was |
| LoginSessions.LogoutClosesSession | src/mes_dashboard/core/login_session_store.py:287-325 | as a law on tables: logout time now, duration up to the last activity before the call, or to now where there was none |
| LoginSessions.LeftOverClosedWhereLeft | src/mes_dashboard/core/login_session_store.py:365-400 | a shutdown closes every open row, the orphan clean-up those older than its cutoff, each at its last activity and with the duration up to it; nothing else changes |
| LoginSessions.LoginSessionStore.CloseSession | src/mes_dashboard/core/login_session_store.py:287-325 | the rows of the session are closed now, their duration taken up to the last activity in whole seconds, and wait for sync; no other row changes |
| LoginSessions.LoginSessionStore.CloseAllActiveSessions | src/mes_dashboard/core/login_session_store.py:369-400 | the new table, in which nothing is open, and the number closed |
| LoginSessions.LoginSessionStore.CleanupOrphanSessions | src/mes_dashboard/core/login_session_store.py:434-465 | the new table, in which nothing open is older than the cutoff, and the number closed |
| LoginSessions.LoginSessionStore.GetUnsynced | src/mes_dashboard/core/login_session_store.py:402-416 | unsynced rows in id order, at most the batch size, and a row left out is newer than all of a full batch |
| LoginSessions.LoginSessionStore.MarkSynced | src/mes_dashboard/core/login_session_store.py:418-432 | the named rows are synced, no other flag and no row's content changes |
| LoginSessions.LoginSessionStore.CleanupSynced | src/mes_dashboard/core/login_session_store.py:467-486 | a row goes if and only if it is synced and older than the cutoff; what waits for sync stays, what stays is unchanged, and the count is of the rows gone |
| LoginSessions.RunKeepsValid | src/mes_dashboard/core/login_session_store.py:149-486 | every run keeps session ids unique, row ids below the next one, and open rows without a duration |
| LoginSessions.TimesStayInOrder | src/mes_dashboard/core/login_session_store.py:149-465 | in every run on a clock that never runs back: login <= last activity <= logout <= now in every row, a duration exactly on the closed rows, covering the time to the last activity up to a cut second and never more than the time to the logout |
| LoginSessions.SyncedSinceMark | src/mes_dashboard/core/login_session_store.py:149-486 | in every run a synced row holds what it held when last marked: every call that changes a row resets its flag |
| LoginSessions.NoUnmarkedChangeIsDeleted | src/mes_dashboard/core/login_session_store.py:467-486 | the only deleting call is cleanup_synced, and what it deletes has not changed since it was marked |
| LoginSessions.KeptExactlyIfUntouched | src/mes_dashboard/core/login_session_store.py:149-465 | over a run on an advancing clock a row keeps its content if and only if no call's WHERE clause selected it |
| LoginSessions.MarkHidesExactlyTheTouched | src/mes_dashboard/core/login_session_store.py:402-432 | after fetch, calls, mark: a row is flagged synced with a stale upload if and only if a call in between touched it |
| LoginSessions.SyncedExactlyUntouched | src/mes_dashboard/core/login_session_store.py:149-486 | after its mark, and until the next, a row stays synced if and only if no call touches it |
| LoginSessions.UnsentChangeDeletedExactlyWhen | src/mes_dashboard/core/login_session_store.py:402-486 | fetch, calls, mark, calls, cleanup: a change that was never uploaded is deleted if and only if some call touched the row before the mark and none after it |
| LoginSessions.HeartbeatLost | src/mes_dashboard/core/login_session_store.py:402-486 | such a run: fetch, heartbeat, mark, cleanup |
| LoginSessions.StepKeepsOneOpen | src/mes_dashboard/core/login_session_store.py:248-285 | a call breaks "at most one open session per user" if and only if it is a heartbeat that reopens a session beside an open one |
| LoginSessions.OneOpenPerUser | src/mes_dashboard/core/login_session_store.py:165-242 | in every run without such a heartbeat each user has at most one open session |
| LoginSessions.HeartbeatOpensASecond | src/mes_dashboard/core/login_session_store.py:248-285 | login, restart, login elsewhere, old heartbeat: two open sessions |
| IndexedQuery.BucketsAreTheValues | scripts/run_cache_benchmarks.py:60-70 | the index has a bucket exactly for the values that occur, holding exactly their rows |
| IndexedQuery.BaselineQuery | scripts/run_cache_benchmarks.py:73-83 | the filter chain counts the rows that match every non-empty key |
| IndexedQuery.IndexQuery | scripts/run_cache_benchmarks.py:86-103 | the intersection, with both early exits, counts the rows that match all four keys |
| IndexedQuery.IndexAgreesExactlyWhen | scripts/run_cache_benchmarks.py:73-103 | the two counts agree if and only if every scanned row holds the empty string in each column with an empty key; the index never counts more |
| IndexedQuery.IndexRefinesScan | scripts/run_cache_benchmarks.py:73-103 | with four non-empty keys the counts agree on every table |
| TraceLineage.NormalizeSeeds | frontend/src/shared-composables/useTraceProgress.ts:76-105 | exactly the non-blank trimmed ids, once each, in order; the rows only when there are no direct ids |
| TraceLineage.AppendNewAdds | frontend/src/shared-composables/useTraceProgress.ts:92-131 | appending unseen ids moves nothing and adds exactly the named ones |
| TraceLineage.WavefrontAdvances | frontend/src/shared-composables/useTraceProgress.ts:119-133 | visiting the next id keeps the queue a breadth-first wavefront |
| TraceLineage.AllWalksFound | frontend/src/shared-composables/useTraceProgress.ts:119-133 | once all is visited, the end of every walk has been found, at no more than the walk's length |
| TraceLineage.CollectForward | frontend/src/shared-composables/useTraceProgress.ts:107-133 | terminates on cyclic maps; exactly the reachable ids, after the seeds, none twice, in nondecreasing distance |
| TraceLineage.CollectBackward | frontend/src/shared-composables/useTraceProgress.ts:135-152 | the seeds, then every listed ancestor once, in order |
| TraceStream.ConsumeStream | frontend/src/shared-composables/useTraceProgress.ts:159-211 | for every cutting of the text the callback gets what splitting the whole text gives, the unterminated last line included |
| TraceStream.SplitContinues | frontend/src/shared-composables/useTraceProgress.ts:174-185 | text read later only continues the last piece of the text read so far |
| TraceStream.StreamRoundTrip | frontend/src/shared-composables/useTraceProgress.ts:159-211 | records written one per line, with or without a final newline and cut anyhow, are read back exactly |
| TraceStream.StreamSkipsNoise | frontend/src/shared-composables/useTraceProgress.ts:159-211 | white space around records, blank and malformed lines between them, and any cutting, change nothing: exactly the records are read, in order |
| TraceStream.StreamedResult.OnChunk | frontend/src/shared-composables/useTraceProgress.ts:443-512 | the whole object after one message of any kind, a full result overwriting the fields it names, and the record total |
| TraceStream.DomainCollects | frontend/src/shared-composables/useTraceProgress.ts:443-512 | for every stream: on top of what the last full result with results brought, a domain holds every record sent since its last start, in order, counted, with that start's total and quality, or, not started since, every record since; no other domain has a result |
| TraceStream.FieldsAreTheLatest | frontend/src/shared-composables/useTraceProgress.ts:443-512 | for every stream the query ids, aggregation, quality, error and failed domains are those of the last message that sets each, nothing before there is one |
| TraceStream.DomainQualityIsTheLatest | frontend/src/shared-composables/useTraceProgress.ts:443-512 | and each domain's quality entry that of the last start with quality, quality map or full result that decides it |
| JsText.SplitJoin | frontend/src/shared-composables/useTraceProgress.ts:183-185 | splitting loses nothing and leaves no separator in a piece |
| JsText.TrimTakesSpace | frontend/src/shared-composables/useTraceProgress.ts:86-102 | trimming takes white space off both ends and nothing else |
| CsvExport.FieldReadsBack | frontend/src/hold-overview/csvExport.ts:56-61 | an RFC 4180 reader recovers a printed field exactly when it has no bare carriage return, whatever follows it |
| CsvExport.PrintedAsItIsExactlyWhen | frontend/src/hold-overview/csvExport.ts:56-61 | printing leaves a field as it is if and only if it holds no comma, quote or line feed |
| CsvExport.RecordReadsBack | frontend/src/hold-overview/csvExport.ts:72-75 | likewise a line of fields |
| CsvExport.CsvRoundTrip | frontend/src/hold-overview/csvExport.ts:67-76 | the reader recovers header and cells of every list of rows if and only if no cell has an unquoted carriage return, and rejects the text otherwise |
| CsvExport.ColumnsShowTheirKeys | frontend/src/hold-overview/csvExport.ts:15-53 | in the table read back, each of the fifteen headers stands over the value of its own key, empty where the key is missing |
| CsvExport.PrintingIsInjective | frontend/src/hold-overview/csvExport.ts:67-76 | lists with different cells print differently, carriage returns included |
| YieldTrend.BuildScrapMap | frontend/src/yield-alert-center/useYieldAlertDuckDB.ts:303-305 | the lookup table has exactly the keys some row prints, each with the scrap of the last such row |
| YieldTrend.AggregateDays | frontend/src/yield-alert-center/useYieldAlertDuckDB.ts:307-320 | every bucket that occurs, and no other, gets the aggregate of exactly its own stations |
| YieldTrend.FpyBounds | frontend/src/yield-alert-center/useYieldAlertDuckDB.ts:315-319 | for regular stations first-pass yield lies in (0, 1] and is at most every station's yield |
| YieldTrend.ScrapBracketed | frontend/src/yield-alert-center/useYieldAlertDuckDB.ts:311-327 | total scrap lies between least tx and total tx, each times 1 - FPY: a weighted product inequality for any number of stations |
| YieldTrend.InputQtyBounds | frontend/src/yield-alert-center/useYieldAlertDuckDB.ts:322-327 | for regular stations the derived input lies between the least station tx and the sum, in both branches of the guard |
| YieldTrend.InputLosesTheScrap | frontend/src/yield-alert-center/useYieldAlertDuckDB.ts:322-327 | unless all but 1e-9 passes, the derived input times the share lost is exactly the day's scrap |
| YieldTrend.BoundsHoldExactlyWhen | frontend/src/yield-alert-center/useYieldAlertDuckDB.ts:309-327 | a station keeps every day of regular companions within these bounds if and only if it is regular: yield not clamped, no net reversal, no scrap and no negative quantity without transactions |
| YieldTrend.ReversalBreaksBounds | frontend/src/yield-alert-center/useYieldAlertDuckDB.ts:309-327 | for every net reversal some day of regular companions is pushed out of the bounds |
| YieldTrend.IdleBreaksBounds | frontend/src/yield-alert-center/useYieldAlertDuckDB.ts:309-327 | so it is for every station without transactions that has scrap of either sign, and for every negative tx |
| YieldTrend.ReportedQtyBounds | frontend/src/yield-alert-center/useYieldAlertDuckDB.ts:322-330 | so does the reported quantity, up to the same rounding |
| YieldTrend.Round4Near | frontend/src/yield-alert-center/useYieldAlertDuckDB.ts:328-332 | the reported figures have four decimals and are within 0.00005 |
| YieldTrend.SingleStationInput | frontend/src/yield-alert-center/useYieldAlertDuckDB.ts:311-327 | for one station the input is its tx if and only if the yield is not clamped |
| YieldTrend.RowOrderDoesNotMatter | frontend/src/yield-alert-center/useYieldAlertDuckDB.ts:303-320 | every bucket's aggregate is the same for all orders of the transaction rows and, where rows printing one key carry one amount, of the scrap rows |
| YieldTrend.ScrapOrderDoesNotMatterExactlyWhen | frontend/src/yield-alert-center/useYieldAlertDuckDB.ts:303-305 | the scrap lookup table is the same for all orders of its rows if and only if rows printing one key carry one amount |
| YieldTrend.ReversalBreaksLowerBound | frontend/src/yield-alert-center/useYieldAlertDuckDB.ts:311-327 | an example: 100 in with 10 reversed, and 100 in with 50 scrapped, give an input below 100 |
| YieldTrend.IdleStationBreaksUpperBound | frontend/src/yield-alert-center/useYieldAlertDuckDB.ts:311-327 | an example: 5 scrapped where nothing was moved, and 100 in with 10 scrapped, give an input above 100 |
| YieldTrend.NamedStationGetsItsScrap | frontend/src/yield-alert-center/useYieldAlertDuckDB.ts:303-315 | on every table, null rows or not, a station with any name but "null" gets its own scrap, and zero when there is none |
| YieldTrend.NullStationLosesItsScrap | frontend/src/yield-alert-center/useYieldAlertDuckDB.ts:303-315 | on every table without a station named "" in the bucket a null station gets zero, whatever its scrap |
| YieldTrend.StationGetsLastPrinted | frontend/src/yield-alert-center/useYieldAlertDuckDB.ts:303-315 | on every table a station gets the scrap of the last row of its bucket whose printed name is the one asked for |
| YieldTrend.NullStationGetsItsScrapExactlyWhen | frontend/src/yield-alert-center/useYieldAlertDuckDB.ts:303-315 | a null station gets the scrap of the station named "", so its own if and only if the two amounts are equal |
| YieldTrend.StationNamedNullGetsItsScrapExactlyWhen | frontend/src/yield-alert-center/useYieldAlertDuckDB.ts:303-315 | a station named "null" gets its own scrap if and only if its row comes after the null station's or the amounts are equal |
| YieldTrend.WithoutNullsAllGetTheirs | frontend/src/yield-alert-center/useYieldAlertDuckDB.ts:303-315 | on tables without null stations every station gets its own scrap |
| KpiRounding.RoundMonotone | frontend/src/core/compute.ts:105-124 | round1 is monotone |
| KpiRounding.RoundOdd | frontend/src/core/compute.ts:105-124 | round1 is odd |
| KpiRounding.RoundIdempotent | frontend/src/core/compute.ts:105-124 | rounding twice is rounding once |
| KpiRounding.RoundNear | frontend/src/core/compute.ts:105-124 | the result is within 0.05 + 1e-10 of the input |
| KpiRounding.RoundToNearestOrEven | frontend/src/core/compute.ts:105-124 | outside the band the nearest tenth, inside it the even one |
| KpiRounding.AllInRange | frontend/src/core/compute.ts:1-98 | for nonnegative hours and quantities all ten percentages lie in [0, 100] |
| KpiRounding.EachNearItsShare | frontend/src/core/compute.ts:1-98 | each status percentage is within 0.05 + 1e-10 of the exact share of its hours |
| KpiRounding.NothingMeansZero | frontend/src/core/compute.ts:1-42 | without hours, without scheduled hours or without output every percentage on that base, and the OEE, is zero |
| KpiRounding.OuNearItsShare | frontend/src/core/compute.ts:1-11 | so is OU, on the scheduled hours only |
| KpiRounding.AvailabilityNear | frontend/src/core/compute.ts:13-25 | so is the availability, on all hours |
| KpiRounding.OeeNearExact | frontend/src/core/compute.ts:32-42 | the reported OEE, a rounded product of rounded factors, is within 0.15 + 3e-10 of the exact one |
| KpiRounding.PctSumNear | frontend/src/core/compute.ts:27-30 | any number of rounded status percentages stay one rounding error each away from the exact share of their sum |
| KpiRounding.StatusesSumTo100 | frontend/src/core/compute.ts:70-98 | the six status percentages sum to 100 within 0.3 + 6e-10, or are all zero |
| KpiRounding.OuAtLeastPrd | frontend/src/core/compute.ts:1-25 | OU and availability are at least the productive percentage, after rounding |
| KpiRounding.OeeBelowBoth | frontend/src/core/compute.ts:32-42 | OEE is at most the availability and the yield, after rounding all three |
| HoldTrend.RowBalancesExactlyWhen | frontend/src/hold-history/useHoldHistoryDuckDB.ts:247-255 | a row's stock follows its in- and outflow on all days if and only if its quantity is zero, or it is its day's first hold and is not released before it, or it has neither day |
| HoldTrend.StockFollowsFlow | frontend/src/hold-history/useHoldHistoryDuckDB.ts:247-255 | for each series, on each day: stock = stock of the day before + new holds - releases |
| HoldTrend.TrendTelescopes | frontend/src/hold-history/useHoldHistoryDuckDB.ts:244-289 | over any stretch of the trend the stock moves by exactly the net flow |
| HoldTrend.EachEventOnce | frontend/src/hold-history/useHoldHistoryDuckDB.ts:250-259 | summed over any range of days, the new hold, release, future hold and repeat figures count each row with that event in the range exactly once |
| HoldTrend.TrendShowsEachOnce | frontend/src/hold-history/useHoldHistoryDuckDB.ts:244-289 | the days a trend returns show, summed up, each new hold, release, future hold and quality repeat from its first day to its last exactly once |
| HoldTrend.DayCounts | frontend/src/hold-history/useHoldHistoryDuckDB.ts:244-289 | every returned day has its date and, in each series, the quantity held on or before that day and not yet released and the day's new holds, releases and future holds, counted over the rows of that type or all; repeats are those of quality holds, zero for non-quality |
| HoldTrend.AllIsTheSum | frontend/src/hold-history/useHoldHistoryDuckDB.ts:247-259 | the all series is the two typed ones plus the rows of any other type |
| HoldTrend.TrendAddsUp | frontend/src/hold-history/useHoldHistoryDuckDB.ts:266-289 | with only the two types every figure of the all series is the sum of the typed ones |

## Left out

- YieldTrend.InputQtyBounds: for one particular day the condition on its stations is sufficient; a day with an irregular station may still meet the bounds. `BoundsHoldExactlyWhen` is exact for a station over all its regular days.
- HeavyQuerySlots.SlotSafety: Redis is up, all callers share one ttl, and the clock reading an acquire passes is that of the moment its script runs. The fail-open paths set no bound, and a shorter ttl shortens the key's expiry for everyone.
- JobLifecycle.JobSafety: exceptions come from the hooks, the chunks and the deletions, not asynchronously between an acquire and its `try`.
- LoginSessions.KeptExactlyIfUntouched: each call is atomic and commits. The write lock orders the calls of one process only; several workers share the file, and calls of theirs that interleave statement by statement are not modelled, nor is an SQLite error inside a call.
- `ProcessLevelCache`: the same LRU and TTL shape as `MemoryTTLCache` with a fixed ttl; only easier members.
- TraceStream.StreamedResult.OnChunk: the results a full result brings are taken to have the shape the other messages build, and domain names not to be names every JavaScript object has.
- The thread pool's worker count and its order of starting chunks: the interleavings modelled include all of them.
- JSON encoding of Redis values, UTF-8 decoding and its missing final flush, and `JSON.parse`: values are JSON-clean, text is decoded, the parser is a parameter.
- Floating-point error: all quantities are exact reals. Values that JavaScript's `Number` turns into NaN are not modelled.
- Table cells that are not strings in the benchmark, whose index prints them as text.
- Display order of the trend's buckets, log lines, telemetry, presence counts and metrics.
- The breaker reads the clock twice when a failure opens it; the model reads it once.
- The slow readers' statements between counting a query as active and entering the `try` block (a log call and a clock reading), and `record_query_latency`, which runs in `finally` before the counter and the permit are given back (src/mes_dashboard/core/database.py:858 and 958), are taken not to raise.
- Local-time jumps in the session store's ISO time stamps; the model's clock only advances.
- DuckDB, pandas and pyarrow themselves; SQL aggregates are read as folds over rows.
- Flask routes, templates, authentication, the Vue shell and configuration tables.
