# AutoSRE shared library: a verified model

A Dafny model of the four stateful parts of `autosre_shared` and proofs about whole
runs of them. `dafny verify dfyconfig.toml` checks everything.

| file | models |
|---|---|
| `CircuitBreaker.dfy` | the breaker's record, its atomic steps, and the classes over a load/save store |
| `BreakerRuns.dfy` | runs: any interleaving of admissions, outcomes and cancellations of overlapping calls |
| `OutageTightness.dfy` | a run that attains the outage bound |
| `StoreIndependence.dfy` | the same run over an aliasing and a copying store |
| `RateLimiter.dfy`, `RateLimiterRuns.dfy`, `RateLimiterClients.dfy` | the token buckets, their runs, and what one client can rely on |
| `ErrorInjection.dfy`, `MemoryHolds.dfy`, `Chaos.dfy` | the error accumulator, the accounting of memory holds, and the class that holds both |
| `ChaosMeetsBreaker.dfy` | errors injected in one service counted by the breaker of its caller |
| `FailureLog.dfy`, `AuditReplay.dfy` | the line log as text, and breakers rebuilt from it |
| `LazySingleton.dfy` | double-checked creation under any schedule of threads |
| `Numbers.dfy`, `Options.dfy` | roundings, multiples and optional values |

A class method carries out the service's code on fields and is proved equal to a
function of the old state; the theorems are about runs of those functions. Time is a
parameter: each step is stamped with the clock it read under its lock, and where order
matters the stamps do not decrease. Rates, levels and times are exact reals.

## Main results

- **Breaker.** The record is characterised in every reachable state by the history of
  the run, OPEN included. Trips are a timeout apart although late failures
  re-stamp `opened_at`. During an outage with threshold F, timeout R and at most c
  overlapping calls, no interleaving lets more than (F - 1 + c) + c * floor(T/R) calls
  through, and for every c and every number of timeouts some run reaches that number.
  Successful calls after the timeout always restore the initial record, after exactly
  as many as are still needed. The store's aliasing makes no difference.
- **Rate limiter.** The O(1) bucket allows a request exactly when no window that starts
  at an earlier admission of the same client would be overfilled, and no policy that
  overfills no window ever admits more unit requests. Refused requests and other
  clients leave no trace in a client's answers. The quoted wait is exact.
- **Chaos.** n decisions at rate r from a fraction a inject floor(a + n * r) errors, any
  k in a row inject floor(k * r) or ceil(k * r), and p/q repeats every q decisions.
- **Chaos meets breaker.** Errors injected at rate r into calls made one at a time open
  the caller's breaker if and only if F * (1 - r) < 1, that is r > (F - 1)/F. Below
  r = 1 it opens, for the first time, at call F * ceil((1 - r)/(1 - F * (1 - r))) + 1
  since the rate was set. Any CLOSED breaker will do, whatever failures it has counted.
- **Log.** What is written is read back in order from the file's text, with blank and
  non-JSON lines in between; replaying a breaker's events rebuilds its whole trail, and
  any limited read that shows one of its events tells its state.
- **Singleton.** Under every schedule one instance is built; no schedule makes more than
  seven moves a caller, every schedule extends to one in which all return that instance,
  and every fair one gets there.

## Where the code falls short of its description

- `circuit_breaker_open_total` is described as counting transitions to OPEN. A late
  failure that finds an OPEN breaker's count full increments it again:
  `LateFailureCountedTwice` is a run, and `OpenTotalExact` says the two numbers agree
  exactly when no such failure occurred.
- The memory cap is checked against bytes that accepted tasks have not added yet.
  `CapOvertaken` is a run with twice the cap; `CapExactlyWhenCommittedFits` says when
  the cap holds once all accepted tasks have started, and `CapKept` and
  `CapKeptOneAtATime` give disciplines under which it always does.
- A reset forgets holds that go on, so the cap then no longer bounds what is held
  (`ResetForgetsHolds`); by `ExactAfterStep` a step keeps the accounting exact if and
  only if it is not a reset with something held.
- A request that truncates to zero bytes sets the memory gauge with nothing accounted;
  `GaugeAfterStart` says when the gauge stays right.
- A read limit of zero returns everything and a negative one drops the oldest events
  (`TailKeepsLatest`). A line that is JSON but no object makes every read raise
  (`RaisesIff`).
- With no refill the header computation has no value (`RetryHeaderSuffices`).

## Model

| member | source | states |
|---|---|---|
| CircuitBreaking.BreakerStore.Load | shared/autosre_shared/resilience/circuit_breaker.py:53-54 | a load shows the stored contents: the live record in memory, a fresh copy otherwise |
| CircuitBreaking.BreakerStore.Save | shared/autosre_shared/resilience/circuit_breaker.py:56-57 | after a save the store holds the record's contents |
| CircuitBreaking.CircuitBreaker.constructor | shared/autosre_shared/resilience/circuit_breaker.py:95-101 | a new breaker adopts the stored record, sets the gauge to its state and starts its counters at zero |
| CircuitBreaking.CircuitBreaker.Allow | shared/autosre_shared/resilience/circuit_breaker.py:111-124 | admits unless OPEN within the timeout; the first admission after it begins HALF_OPEN, saved, with its event; a refusal changes nothing |
| CircuitBreaking.CircuitBreaker.RecordSuccess | shared/autosre_shared/resilience/circuit_breaker.py:130-146 | one success as an abstract step on the stored record, gauge and events included |
| CircuitBreaking.CircuitBreaker.RecordFailure | shared/autosre_shared/resilience/circuit_breaker.py:148-171 | one failure as an abstract step on the stored record, gauge, counter and events included |
| CircuitBreaking.CircuitBreaker.EnterCall | shared/autosre_shared/resilience/circuit_breaker.py:126-178 | the entry half: a refused call raises the rejection counter by one, an admitted one leaves it |
| CircuitBreaking.CircuitBreaker.Protect | shared/autosre_shared/resilience/circuit_breaker.py:173-200 | the record a whole call leaves, field by field: from CLOSED a return clears the count, an expected exception adds one and opens at the threshold, any other changes nothing; on trial they close or count a success, re-open stamped at the exit, or only begin the trial; a refusal only counts a rejection |
| BreakerRuns.HistorySpecification | shared/autosre_shared/resilience/circuit_breaker.py:107-171 | in every reachable state CLOSED counts the trailing failures since it was entered, below the threshold, with no stamp; HALF_OPEN has seen only successes, all counted, below theirs; OPEN is stamped with no successes |
| BreakerRuns.CountSpecification | shared/autosre_shared/resilience/circuit_breaker.py:130-166 | in every state, OPEN included, the failure count is the trailing failures recorded outside trials since the last closing, late ones included |
| BreakerRuns.StampSpecification | shared/autosre_shared/resilience/circuit_breaker.py:130-166 | in every state `opened_at` is the time of the latest failure that ended a trial phase or found the count full since the last closing, if any |
| BreakerRuns.StampAndClock | shared/autosre_shared/resilience/circuit_breaker.py:111-171 | while OPEN the stamp lies between entry and clock; otherwise the clock is a timeout past the latest entry |
| BreakerRuns.TripSpacing | shared/autosre_shared/resilience/circuit_breaker.py:111-171 | the j-th and i-th entries into OPEN lie at least j - i timeouts apart, over all interleavings |
| BreakerRuns.TripCount | shared/autosre_shared/resilience/circuit_breaker.py:111-171 | at most 1 + floor((T - first)/R) entries into OPEN by time T |
| BreakerRuns.OpenAdmitsNothing | shared/autosre_shared/resilience/circuit_breaker.py:111-171 | for a whole timeout after an entry the breaker stays OPEN and would admit no call, whatever late outcomes arrive |
| BreakerRuns.OpenTotalExact | shared/autosre_shared/resilience/circuit_breaker.py:157-164 | the counter is the entries into OPEN plus the re-stamps, so it counts transitions if and only if there was none |
| BreakerRuns.OpeningsReportCounts | shared/autosre_shared/resilience/circuit_breaker.py:148-171 | the `opened` events carry, in order, the trailing failures at each failure that opened the breaker or re-stamped it |
| BreakerRuns.EveryEntranceCounted | shared/autosre_shared/resilience/circuit_breaker.py:126-128 | in every run the admissions and the counted rejections add up to the calls that tried to enter |
| BreakerRuns.ClosedWhileFewInARow | shared/autosre_shared/resilience/circuit_breaker.py:177-189 | protected calls with never a threshold of expected exceptions in a row, returns resetting and other exceptions ignored, leave a breaker that has emitted and refused nothing |
| BreakerRuns.OpensOnEnoughInARow | shared/autosre_shared/resilience/circuit_breaker.py:177-189 | the call that completes the first such row opens it, stamped at its exit, and no other call does |
| BreakerRuns.LateFailureCountedTwice | shared/autosre_shared/resilience/circuit_breaker.py:159-165 | two overlapping failures at threshold one: one trip, counted twice |
| BreakerRuns.OutageInvariant | shared/autosre_shared/resilience/circuit_breaker.py:111-189 | a probing phase admits no more than what is still in flight when its first failure ends it |
| BreakerRuns.OutageBound | shared/autosre_shared/resilience/circuit_breaker.py:111-189 | with every call failing and at most c in flight, at most (F - 1 + c) + c * floor(T/R) are let through by time T, for every interleaving |
| OutageTightness.WorstCaseIsOutage | shared/autosre_shared/resilience/circuit_breaker.py:111-189 | for every c and k the worst-case run meets the bound's conditions |
| OutageTightness.BoundAttained | shared/autosre_shared/resilience/circuit_breaker.py:111-189 | and at its last step, k timeouts after the start, has let exactly (F - 1 + c) + c * k calls through |
| BreakerRuns.Recovery | shared/autosre_shared/resilience/circuit_breaker.py:111-146 | from every reachable state successful calls after the timeout are never rejected and reach the initial record after exactly the successes still needed, at most the threshold |
| BreakerRuns.TrailReplays | shared/autosre_shared/resilience/circuit_breaker.py:122-171 | the latest event tells the state, the opened events number the counter, and the events follow the transition grammar with repeated openings |
| StoreIndependence.Drive | shared/autosre_shared/resilience/circuit_breaker.py:111-171 | the breaker object carries out any run exactly as the abstract one, whichever store it is over |
| StoreIndependence.SameOverBothStores | shared/autosre_shared/resilience/circuit_breaker.py:41-57 | over an aliasing and a copying store every run gives the same verdicts, record, gauge (0 CLOSED, 1 OPEN, 2 HALF_OPEN), counters and events |
| RateLimiting.InMemoryBucketStore.Consume | shared/autosre_shared/resilience/rate_limiter.py:58-69 | one request: the decision on the refilled level, no wait when allowed, none that ends without refill, and the one bucket it rewrites |
| RateLimiting.RateLimiter.Check | shared/autosre_shared/resilience/rate_limiter.py:86-91 | asks for one token and counts requests and rejections |
| RateLimiterRuns.BucketMirrorsGrants | shared/autosre_shared/resilience/rate_limiter.py:60-69 | after every run each client's stored level, refilled, is determined by its admissions alone |
| RateLimiterRuns.AvailableIsTightestWindow | shared/autosre_shared/resilience/rate_limiter.py:60-66 | what is available is at least x if and only if x fits every window |
| RateLimiterRuns.WindowSpecification | shared/autosre_shared/resilience/rate_limiter.py:58-69 | on every run a request is allowed exactly when it overfills no window from an earlier admission of its client |
| RateLimiterRuns.NoWindowOverfilled | shared/autosre_shared/resilience/rate_limiter.py:58-69 | the admissions of each client conform at every moment |
| RateLimiterRuns.WindowBound | shared/autosre_shared/resilience/rate_limiter.py:58-69 | between any two admissions of a client at most the burst plus what is earned in between is granted |
| RateLimiterRuns.RateBound | shared/autosre_shared/resilience/rate_limiter.py:58-69 | the same as arithmetic: at most burst + elapsed * rps over any stretch of admissions |
| RateLimiterRuns.RefillComposes | shared/autosre_shared/resilience/rate_limiter.py:62 | capped refill over a split interval is capped refill over the whole |
| RateLimiterRuns.GreedyLead | shared/autosre_shared/resilience/rate_limiter.py:58-69 | a conforming policy's tokens never exceed the bucket's by more than the bucket's lead in admissions |
| RateLimiterRuns.GreedyIsOptimal | shared/autosre_shared/resilience/rate_limiter.py:58-69 | after every run, hence at every prefix, the bucket has admitted at least as many unit requests of each client as any conforming policy |
| RateLimiterClients.UnseenIsFullSinceEver | shared/autosre_shared/resilience/rate_limiter.py:61-62 | an unseen client is as good as one whose bucket was full at any earlier time |
| RateLimiterClients.ClientsAreIsolated | shared/autosre_shared/resilience/rate_limiter.py:55-69 | each client gets the answers and keeps the bucket its own requests alone would give |
| RateLimiterClients.RejectionsAreFree | shared/autosre_shared/resilience/rate_limiter.py:60-69 | dropping any refused requests changes no other answer, retry times included |
| RateLimiterClients.AnswersReportLevel | shared/autosre_shared/resilience/rate_limiter.py:64-69 | every answer of a run reports what its client has left by its admissions, and a refusal the missing tokens over the rate |
| RateLimiterClients.ExactRetry | shared/autosre_shared/resilience/rate_limiter.py:67-69 | until its next admission a refused client is allowed exactly from the quoted wait on, if a full bucket can pay |
| RateLimiterClients.RetryHeaderSuffices | shared/autosre_shared/resilience/rate_limiter.py:143-151 | the Retry-After seconds (section 10.2.3 of RFC 9110, section 4 of RFC 6585) exist if and only if the bucket refills, suffice, and overshoot the wait by less than one |
| ErrorInjection.StaysValid | shared/autosre_shared/chaos.py:70-78 | every decision, accepted rate and reset keeps the accumulator a fraction below one |
| ErrorInjection.Conservation | shared/autosre_shared/chaos.py:74-77 | what n decisions gained is what they injected plus what is left |
| ErrorInjection.ErrorsAreFloor | shared/autosre_shared/chaos.py:70-78 | n decisions inject the whole part of the fraction they started from plus n times the rate |
| ErrorInjection.ErrorsSinceConfigured | shared/autosre_shared/chaos.py:208-212 | since the rate was set, exactly floor(n * r) errors |
| ErrorInjection.DisabledNeverInjects | shared/autosre_shared/chaos.py:71-72 | a disabled injector injects nothing and does not move |
| ErrorInjection.RunConserves | shared/autosre_shared/chaos.py:70-78 | in every run of decisions, settings and resets the rate is the percentage in force, zero when off, and what was gained since is what was injected plus the fraction |
| ErrorInjection.NoneWhileOff | shared/autosre_shared/chaos.py:208-212 | from a disabling or a reset until the next enabling no decision injects |
| ErrorInjection.ErrorsOverRuns | shared/autosre_shared/chaos.py:70-78 | at every moment of every such run the errors since the last control step are floor(n * rate in force) |
| ErrorInjection.EvenSpread | shared/autosre_shared/chaos.py:70-78 | any k consecutive decisions inject floor(k * r) or ceil(k * r) errors |
| ErrorInjection.Periodic | shared/autosre_shared/chaos.py:70-78 | at rate p/q the decisions repeat every q with p errors |
| Chaos.ChaosState.ShouldInjectError | shared/autosre_shared/chaos.py:70-78 | the in-place decision is the accumulator's step |
| Chaos.ChaosState.SetErrors | shared/autosre_shared/chaos.py:208-212 | enabling sets the rate, disabling sets it to zero, both clear the accumulator |
| Chaos.ChaosState.TriggerMemory | shared/autosre_shared/chaos.py:244-263 | accepts if and only if the accounted bytes and the size truncated to bytes come to at most 256 MiB, and then leaves just that task to start |
| Chaos.ChaosState.Allocate | shared/autosre_shared/chaos.py:171-173 | the block of the size asked holds a one at every 4096th byte and zeroes elsewhere |
| Chaos.ChaosState.StartHold | shared/autosre_shared/chaos.py:170-176 | a started task lists and accounts its block and sets the gauge |
| Chaos.ChaosState.RemoveBlock | shared/autosre_shared/chaos.py:181-184 | removes the first equal block, whichever hold it was for, or none |
| Chaos.ChaosState.FinishHold | shared/autosre_shared/chaos.py:180-188 | an ended hold gives back its bytes, never below zero, and clears the gauge at zero |
| Chaos.ChaosState.Reset | shared/autosre_shared/chaos.py:273-284 | back to defaults with the hold tasks left running |
| MemoryHolds.StaysSandwiched | shared/autosre_shared/chaos.py:170-188 | every step keeps the accounted bytes, the listed blocks and the gauge within what is held |
| MemoryHolds.Sandwich | shared/autosre_shared/chaos.py:170-188 | over every interleaving 0 <= bytes <= listed <= held, and all is zero once nothing is held |
| MemoryHolds.ExactAfterStep | shared/autosre_shared/chaos.py:273-281 | a step keeps the three totals equal if and only if it is not a reset with something held |
| MemoryHolds.ExactOverRuns | shared/autosre_shared/chaos.py:170-188 | without such resets the three totals are equal in every state |
| MemoryHolds.ResetForgetsHolds | shared/autosre_shared/chaos.py:280-281 | a run in which a reset lets twice the cap be held |
| MemoryHolds.GaugeAfterStart | shared/autosre_shared/chaos.py:175-176 | a start leaves the gauge exact if and only if the block or what was accounted has a byte |
| MemoryHolds.GaugeIsExact | shared/autosre_shared/chaos.py:176-188 | with no empty request the gauge is one exactly when bytes are accounted |
| MemoryHolds.CapKept | shared/autosre_shared/chaos.py:246-247 | when every accepted request fits with what is still to start, the cap holds throughout |
| MemoryHolds.CapKeptOneAtATime | shared/autosre_shared/chaos.py:246-263 | when each task starts before the next request the code's check keeps the cap |
| MemoryHolds.AcceptedIffHeldFits | shared/autosre_shared/chaos.py:246-247 | when resets find nothing held, a request is left pending if and only if it fits under 256 MiB with all that is really held |
| MemoryHolds.AcceptedOneAtATime | shared/autosre_shared/chaos.py:246-263 | so it is in runs of requests, starts and expiries with each task started before the next request |
| MemoryHolds.CapExactlyWhenCommittedFits | shared/autosre_shared/chaos.py:246-263 | once all accepted tasks have started the cap holds if and only if what was committed fits |
| MemoryHolds.CapOvertaken | shared/autosre_shared/chaos.py:246-263 | two requests accepted before either starts reach twice the cap |
| ChaosMeetsBreaker.NeverTrips | shared/autosre_shared/resilience/circuit_breaker.py:148-171 | at F * (1 - r) >= 1 no number of calls opens the breaker |
| ChaosMeetsBreaker.EightyPercentNeverTripsFive | api/main.py:40-41 | 80 percent never opens the auth breaker of threshold five |
| ChaosMeetsBreaker.Spiral | shared/autosre_shared/chaos.py:70-78 | each cycle is one success and F - 1 failures and raises the accumulator by 1 - F * (1 - r) |
| ChaosMeetsBreaker.TripsExactlyAt | shared/autosre_shared/resilience/circuit_breaker.py:148-171 | strictly between (F - 1)/F and 1 the breaker opens, for the first time, at call F * ceil((1 - r)/(1 - F * (1 - r))) + 1 |
| ChaosMeetsBreaker.CertainFailure | shared/autosre_shared/resilience/circuit_breaker.py:159-165 | at rate 1 it opens exactly when the count is full |
| ChaosMeetsBreaker.TripsIffAbove | shared/autosre_shared/clients/service_client.py:42-46 | some number of calls opens the breaker if and only if F * (1 - r) < 1 |
| ChaosMeetsBreaker.TripsWithin | shared/autosre_shared/resilience/circuit_breaker.py:148-171 | from F/(F + 1) up it opens within the first F + 1 calls |
| ChaosMeetsBreaker.CallsAreARun | shared/autosre_shared/clients/service_client.py:42-46 | from every state of the breaker the calls are a run of it, and decisions are made for the calls let through and no others |
| FailureLog.FileFailureStore.WriteEvent | shared/autosre_shared/storage/failure_store.py:79-82 | appends the encoded event, all four fields, and a newline, creating the file |
| FailureLog.FileFailureStore.ReadEvents | shared/autosre_shared/storage/failure_store.py:84-102 | the loop over lines is the parse of the text, filter and limit included; no file reads as no events |
| FailureLog.FileFailureStore.ClearEvents | shared/autosre_shared/storage/failure_store.py:104-107 | empties an existing file and creates none |
| FailureLog.LinesAreBetweenBreaks | shared/autosre_shared/storage/failure_store.py:91-92 | lines woven with the breaks of the text give it back, and no line holds a break |
| FailureLog.StripCutsSpace | shared/autosre_shared/storage/failure_store.py:92 | stripping removes only white space, and all of it at both ends |
| FailureLog.PartialObjectRead | shared/autosre_shared/storage/failure_store.py:50-57 | missing keys read as "unknown", an empty map and an empty time, and a missing source matches no source asked for |
| FailureLog.RaisesIff | shared/autosre_shared/storage/failure_store.py:95-101 | a read raises if and only if some line is JSON but no object |
| FailureLog.TextOfAppend | shared/autosre_shared/storage/failure_store.py:81-82 | a write keeps the file a sequence of whole lines |
| FailureLog.RoundTrip | shared/autosre_shared/storage/failure_store.py:79-102 | reading gives exactly the written events of the source in order, all of them when none is asked for, the last n for a limit n, past blank and non-JSON lines |
| FailureLog.TailKeepsLatest | shared/autosre_shared/storage/failure_store.py:102 | the result is a suffix: the latest n for a limit n, everything for zero, all but the oldest n for -n; so its length is within the limit if and only if the limit is positive or drops everything |
| AuditReplay.LogMirrorsBreakers | shared/autosre_shared/resilience/circuit_breaker.py:122-171 | among other writers the persisted events of a name are that breaker's trail |
| AuditReplay.TrailReadBack | shared/autosre_shared/storage/failure_store.py:84-102 | reading the log by source gives every breaker's exact trail, in a legal order |
| AuditReplay.ReplayRebuilds | shared/autosre_shared/storage/failure_store.py:84-102 | replaying what was read rebuilds the breaker's state and its counter of openings |
| AuditReplay.TailTellsState | shared/autosre_shared/storage/failure_store.py:145-148 | any limited read that shows an event of the breaker tells its present state |
| AuditReplay.OthersReadBack | shared/autosre_shared/storage/failure_store.py:134-139 | reading any other source gives exactly what was recorded under it, in order, whatever the breakers did |
| AuditReplay.OneTripLogged | shared/autosre_shared/resilience/circuit_breaker.py:122-171 | one trip and recovery as logged: "opened" with its count, "half_open", "closed", each with the name |
| LazySingleton.InvHolds | shared/autosre_shared/resilience/rate_limiter.py:105-113 | one thread at a time between lock and unlock, and the instance set only by the first |
| LazySingleton.OneInstance | shared/autosre_shared/storage/failure_store.py:120-126 | under every schedule at most one instance is built and every caller returns that one |
| LazySingleton.NeverStuck | shared/autosre_shared/resilience/rate_limiter.py:105-113 | while a caller has not returned some thread can take a step |
| LazySingleton.MovesBounded | shared/autosre_shared/resilience/rate_limiter.py:105-113 | no schedule, however long, makes more than seven moves a caller |
| LazySingleton.StillIffFinished | shared/autosre_shared/resilience/rate_limiter.py:105-113 | nobody can move if and only if every caller has returned the one instance built |
| LazySingleton.Completes | shared/autosre_shared/resilience/rate_limiter.py:105-113 | every schedule extends, by at most seven steps a caller, to one in which all have returned it |
| LazySingleton.FairRunsFinish | shared/autosre_shared/storage/failure_store.py:120-126 | under any schedule with seven rounds a caller, each with every caller in it, all have returned it |
| LazySingleton.AloneReturns | shared/autosre_shared/storage/failure_store.py:120-126 | from any reachable state a caller that no other keeps from the lock returns it in seven steps of its own |
| LazySingleton.FastPath | shared/autosre_shared/resilience/rate_limiter.py:105-113 | once there is an instance a new caller returns it in two steps without the lock, whoever holds it |

## Left out

- Floating-point rounding: rates, levels and times are exact reals; the floor and threshold results are about exact rates.
- The JSON codec: a parameter that decodes what it encoded and encodes to one stripped, non-empty line (`Faithful`); object fields are missing or of their usual type, never null.
- Writes that fail: `record_event` swallows errors; the replay results are for writes that succeed, made atomically with the breaker's step, with the log never cleared.
- Event order across OS threads: events are emitted after the lock is released, so replay is for atomic steps.
- A last line without a newline: a write that follows one would join it; the round trip is for files of whole lines.
- OutageBound: is for outages in which no call is cancelled; a cancelled trial records nothing and leaves HALF_OPEN admitting without limit.
- GreedyIsOptimal: is for requests of one token, the only ones the limiter makes; for mixed sizes a first-come policy is not optimal.
- LazySingleton.OneInstance: is for runs in which no setter replaces the global.
- Several breakers over one store, and the `get_or_create` registry: a dictionary lookup under a lock.
- Latency and CPU chaos: `cpu_running` is one flag shared by overlapping burns; latency is one assignment.
- `snapshot`, status endpoints, `active_keys` and `sample`: rounded views of the state.
- Request routing, client keys and excluded paths, payload validation, the HTTP client, logging and metric labels.
- The Go servers, dashboards, alert rules and the frontend.
