# Verified model of the request throttle and the ephemeral store

Two stateful parts of the hockey-tools server decide who gets in and which one-time codes are
good: the sliding-window rate limiter of `internal/web/throttle`, and the in-memory key/value
store of `internal/services` with the code-issuing loops of `cmd/authorizer.go` on top of it.
This project models both in Dafny and proves what they keep over every run and every
interleaving.

`dafny verify dfyconfig.toml` checks everything.

## The rate limiter

| file | content |
|---|---|
| `WindowTime.dfy` | instants, fixed windows, and the millisecond stamps that name windows |
| `SlidingWindow.dfy` | the counter table as a value, the log of increments it compresses, the refinement, whole runs |
| `LocalTracker.dfy` | the tracker object: counter records updated in place, the lazy purge loop, bounded memory |
| `Admission.dfy` | burst bound and its tightness, fairness, estimate against truth, Get and Increment coherence |
| `Throttler.dfy` | the middleware's defaults and its count-then-compare decision |

The tracker keeps two counts and a stamp per id and forgets old records from inside unrelated
calls. The reference is the full log of increments. The central fact is that every answer equals
what the log gives, on any purge schedule (`SlidingWindow.AnswersInFull` states it in terms of
the calls alone); purge invisibility, independence of ids and the admission bounds follow from it.

Time is an integer number of nanoseconds since Go's zero time. The mutex makes each call one
step. A call reads its clock before it takes the lock, so the model does not assume ordered
clock readings, only that the windows of successive calls do not go back; within a window the
readings may come in any order. For a call in an earlier window,
`SlidingWindow.IncrementMatchesLogExactlyWhen` and `GetMatchesLogExactlyWhen` say exactly when its
answer is still the log's, and `SweepShowsExactlyWhen` when a purge makes the difference;
`PurgeShowsOutOfOrder` and `GoingBackForgets` give, for every configuration, runs in which the
answer is not the log's.

The decay `uint(float64(pv) * decay)` is a function parameter of the configuration, with these
properties named where they are used: `Valid` (never more than `pv`), `Fading` (not increasing
in the elapsed time), `Steady` (of more requests no less survives, and at most as many more as
there were more), `Near(slack)` (at most `slack` below the exact quotient). Exact arithmetic has
all four, with slack 0 (`Admission.ExactIsSound`, and `ExactConfigIsExact` for its existence).
float64 is meant to have them at counts far below 2^53, with slack 1 because its product can fall
just below an integer. What the limit comes to over a window length is settled for any such
arithmetic (`SharpBurstBound`, `BurstBoundIsTight`, `LimitKeptExactlyWhen`); the closed forms
with exact arithmetic follow.

## The store

| file | content |
|---|---|
| `AtomicStore.dfy` | the reference: an atomic object with one effect per call and a log of effects |
| `StoreMachine.dfy` | the running store: every `sync.Map` call and clock reading is a step, any number of threads and collection passes interleave |
| `Linearization.dfy` | forward simulation of the machine by the atomic object; Refresh |
| `ExpiredAnswers.dfy` | when a read's ExpiredItem answer can be believed |
| `WaitFreedom.dfy` | every call answers within five steps of its own |
| `Ledger.dfy` | conservation, single consumption, provenance and collector safety of any legal history |
| `Guarantees.dfy` | those results read back on runs of the machine |
| `Races.dfy` | schedules in which calls get in each other's way |
| `CollectorPass.dfy` | what an interleaved collection pass must clear and must spare |
| `SoloPass.dfy` | an uninterrupted pass of the machine is the serial collection |
| `SerialStore.dfy` | operations of a lone caller as functions; collection and readers |
| `MemStore.dfy` | the store object with nested maps mutated in place, and the collector loop |
| `SoloCall.dfy` | every uninterrupted call of the machine is the serial operation |
| `Authorizer.dfy` | the two bounded retry loops |
| `IssuedCodes.dfy` | any number of retry loops interleaved with every other use of the store |
| `CodeGuarantees.dfy` | what the loops' results are worth: answered calls, uniqueness, single use |
| `Options.dfy` | values that may be missing |

A history has one entry for each call, made at the step where the call acts, plus an entry when
a namespace is opened and one for each item the collector deletes. A namespace is opened by an
earlier step than the write that needs it, so a concurrent reader can see `InvalidKey` before
the write has acted; the history shows this as a separate `Opened` entry. Reads compare with the
clock after they have loaded the item, so their verdict belongs to a later instant than their
effect. A Refresh loads and swaps in two steps; the atomic object may answer it ItemChanged only
if the loaded item was there at some moment of the call and is there no longer.
`Guarantees.AnswersAreEarned` shows that these are the only two answers that speak of a span of
time: ItemChanged, and then the key was given another item or none during the call; and
ExpiredItem, when an item that was live at the load expires before the clock is read. The latter
is the serial answer of some moment since the load, in every run, if and only if the key holds no
live item at the load (`ExpiredAnswers.ExpiredIsExpiredExactlyWhen`). Otherwise a Read can be
scheduled to answer ExpiredItem although the key always holds a live item, and a ReadAndRemove to
destroy a live item that nobody receives.

The Range of a pass is as permissive as the documentation of `sync.Map` allows: it visits every
key present throughout, may visit others, and may present a mapping from any moment of its run.

## Model

| member | source | states |
|---|---|---|
| WindowTime.StampsIdentifyWindows | internal/web/throttle/local.go:62-86 | for every window length of at least 1ms, whole milliseconds or not, comparing Unix-millisecond stamps decides "same window" and "window before" exactly |
| WindowTime.CutoffIsStale | internal/web/throttle/local.go:140-151 | the purge cut-off never reaches the current or the previous window, and always reaches windows three or more back |
| WindowTime.CutoffIsExact | internal/web/throttle/local.go:140-151 | of windows of whole milliseconds it reaches exactly those three or more back |
| SlidingWindow.IncrementRefinesLog | internal/web/throttle/local.go:101-128 | from a table that compresses the log, an increment answers c+1+decayed(p), c and p being the log's counts in the call's window and the one before, and the new table compresses the longer log |
| SlidingWindow.GetRefinesLog | internal/web/throttle/local.go:72-86 | Get answers c+decayed(p) when c>0, and the undecayed p when c=0 |
| SlidingWindow.LogAnswersInFull | internal/web/throttle/local.go:72-138 | what the log answers, spelled out: c+1+decay(p, ms) to an increment, c+decay(p, ms) to a Get, or p undecayed when c is 0, ms being the whole milliseconds since the window began |
| SlidingWindow.SweepConsistent | internal/web/throttle/local.go:140-154 | a purge keeps the table a compression of the whole log, whatever its clock reading |
| SlidingWindow.SweepTakesExactly | internal/web/throttle/local.go:140-151 | with windows of whole milliseconds a sweep takes exactly the counters of windows three or more back |
| SlidingWindow.IncrementMatchesLogExactlyWhen | internal/web/throttle/local.go:101-128 | for a call in any window, earlier ones included, after an ordered history: the answer is the log's if and only if the id has a counter and the window does not lie before its latest one, or the log has nothing to add; a call that finds no counter or a later one starts afresh and is answered 1 |
| SlidingWindow.GetMatchesLogExactlyWhen | internal/web/throttle/local.go:72-86 | likewise for Get: the answer is the log's if and only if the id has a counter and the window does not lie before its latest one, or the log has nothing in the two windows; otherwise it is 0 |
| SlidingWindow.RunRefinesLog | internal/web/throttle/local.go:61-128 | every answer of every run, on every purge schedule, is the one the full log gives |
| SlidingWindow.AnswersInFull | internal/web/throttle/local.go:61-138 | in any run whose windows do not go back, on any purge schedule, an answer is c+1+decay(p, ms), c+decay(p, ms) or p, where c and p are the numbers of increment calls of that id so far in the call's window and the one before |
| SlidingWindow.PurgeIsInvisible | internal/web/throttle/local.go:140-154 | trackers purging on any two schedules, never included, answer every run alike |
| SlidingWindow.SweepShowsExactlyWhen | internal/web/throttle/local.go:101-154 | a sweep at any clock reading changes the answer of the next increment, in any window, if and only if it takes a counter that the increment would have continued and the log's answer is not 1 |
| SlidingWindow.PurgeShowsOutOfOrder | internal/web/throttle/local.go:101-154 | not so when a window comes after a later one: in every configuration a purge on behalf of another id makes the second increment of a window answer 1 instead of 2 |
| SlidingWindow.GoingBackForgets | internal/web/throttle/local.go:112-128 | on any purge schedule, an id that goes one window back is answered 1 where the log says 2 |
| SlidingWindow.IdsAreIndependent | internal/web/throttle/local.go:61-154 | the shared tracker answers the calls of one id, one by one and in order, as a tracker of that id's own would |
| LocalTracker.Counter.Count | internal/web/throttle/local.go:112-126 | the in-place update of one record counts on, rolls over or starts afresh |
| LocalTracker.Tracker.Get | internal/web/throttle/local.go:61-87 | the object's Get answers from the log, purges only what is due, and counts nothing |
| LocalTracker.Tracker.Increment | internal/web/throttle/local.go:89-129 | the object's Increment answers from the log, logs one request, and leaves no counter stamped at or before now - purgeDelay - 3 windows |
| LocalTracker.Tracker.Purge | internal/web/throttle/local.go:140-154 | purges exactly when the purge time has come, deleting exactly the records at or before the cut-off |
| LocalTracker.Tracker.CountersAreBounded | internal/web/throttle/local.go:140-154 | no more counters than distinct ids incremented since the horizon |
| Admission.WindowCap | internal/web/throttle/throttler.go:96-113 | a fixed window admits at most the limit, although rejected requests are counted too |
| Admission.BurstBound | internal/web/throttle/throttler.go:92-113 | any window length ending e of W milliseconds into a window admits at most limit + ceil(limit*e/W) + slack, and at most twice the limit |
| Admission.SharpBurstBound | internal/web/throttle/throttler.go:92-113 | with any steady decay, any window length ending at t admits at most twice the limit less the decay of a full window at t |
| Admission.BurstBoundIsTight | internal/web/throttle/local.go:134-138 | with any decay some run attains exactly that, at every instant but a window's last nanosecond |
| Admission.ExactCeiling | internal/web/throttle/local.go:134-138 | with exact decay that number is limit + ceil(limit*e/W) |
| Admission.LimitKeptExactlyWhen | internal/web/throttle/throttler.go:80-83 | "at most the limit in any window length", as the policy header reads, holds of all runs, with any steady decay, if and only if the interval ends at a window's last nanosecond or at an instant at which the decay of a full window is still the limit |
| Admission.ExactLimitKeptExactlyWhen | internal/web/throttle/throttler.go:80-83 | with exact decay and a limit above zero: if and only if it ends in a window's first millisecond or at its last nanosecond |
| Admission.ModerateIdsAreNeverRejected | internal/web/throttle/throttler.go:108-113 | an id with at most limit/2 requests in every fixed window is never rejected |
| Admission.ReturningIdsStartAfresh | internal/web/throttle/local.go:101-128 | after two silent windows the next request is answered 1 |
| Admission.EstimateNearTruth | internal/web/throttle/local.go:128-138 | the returned rate and the true count of the last window length lie in the same span, the previous window's count wide |
| Admission.GetsFade | internal/web/throttle/local.go:77-86 | unless the id itself is incremented in between, whatever other ids do, later Gets never return more, within and across windows |
| Admission.GetIncrementCoherence | internal/web/throttle/local.go:77-128 | Increment is at most Get+1, equal when the id already counts in this window, and Get right after agrees |
| Throttler.Throttle.Handler | internal/web/throttle/throttler.go:38-83 | a zero limit means 100 and a missing tracker means a fresh one of 60s windows that first purges after 5min |
| Throttler.Handler.ServeHTTP | internal/web/throttle/throttler.go:85-114 | a request is served exactly when it is admitted as the newest log entry, and is logged either way; an unmappable one leaves no trace |
| StoreMachine.StepKeepsInv | internal/services/memory-store.go:78-188 | in every interleaving a published namespace object is allocated, belongs to one namespace only, and is the one each call and pass on that namespace holds |
| StoreMachine.ScopesAreForever | internal/services/memory-store.go:129-151 | a published namespace object is never replaced, racing creators or not |
| AtomicStore.StepKeepsInv | internal/services/memory-store.go:93-188 | the atomic object's log is legal, names only items present during the call in its ItemChanged entries, replays to its contents, and backs every call in flight or answered |
| Linearization.EveryStepSimulates | internal/services/memory-store.go:78-188 | every step of the running store is a step of the atomic object or invisible |
| Linearization.EveryRunLinearizes | internal/services/memory-store.go:78-188 | every run refines a run of the atomic object with the same contents and calls |
| Linearization.ContentsAreReplayed | internal/services/memory-store.go:78-188 | a reachable store holds what its legal history, replayed one entry at a time, leaves |
| Linearization.EachCallActsOnce | internal/services/memory-store.go:93-188 | over any run a thread leaves one history entry per finished call, plus one if the call in flight has acted |
| Linearization.RefreshNeverClobbers | internal/services/memory-store.go:161-182 | no step of a Refresh changes the key set or a value; its swap hits exactly when the loaded item is still there, and otherwise it reports the change and does nothing |
| ExpiredAnswers.ExpiredIsExpiredExactlyWhen | internal/services/memory-store.go:93-127 | for a Read or ReadAndRemove about to load: in every run that ends in ExpiredItem the serial operation would have answered ExpiredItem at some moment since the load, if and only if the key holds no live item at the load |
| ExpiredAnswers.ExpiredWithoutExpiry | internal/services/memory-store.go:93-109 | any Read about to load a live item can be scheduled to answer ExpiredItem while the key holds a live item at every moment |
| ExpiredAnswers.LiveItemCanBeLost | internal/services/memory-store.go:111-127 | any ReadAndRemove about to take a live item can be scheduled to delete it and answer ExpiredItem: no other thread moves, the item is gone and nobody has received it |
| Races.RefreshCanMiss | internal/services/memory-store.go:161-182 | any Refresh about to load an item can be scheduled to answer ItemChanged |
| Races.CreatorsCanRace | internal/services/memory-store.go:129-151 | two writers can both find their namespace missing; both go on with the object published first |
| Ledger.Conservation | internal/services/memory-store.go:111-188 | insertions minus removals of a key is 1 while it is held and 0 while it is free |
| Ledger.ConsumedAtMostOnce | internal/services/memory-store.go:111-127 | two removals of a key take items of different insertions, the later made in between |
| Ledger.ReadsAreGenuine | internal/services/memory-store.go:93-182 | a returned value was written under that key and not overwritten since; the expiry check came no later than the ttl after the stamp of the write or refresh |
| Ledger.LiveItemsLeaveByCallsOnly | internal/services/memory-store.go:78-188 | a live item disappears or changes value only by ReadAndRemove, Remove or Set |
| Ledger.ChangesAreReal | internal/services/memory-store.go:161-182 | before an ItemChanged entry, and during its call, the item the Refresh had loaded was under the key and an entry gave the key another item or none |
| Guarantees.EveryCallHasABeginning | internal/services/memory-store.go:93-188 | every run with a thread in a call splits at the beginning of that call, so the next three results apply to every call of every run |
| Guarantees.AnswersAreEarned | internal/services/memory-store.go:93-188 | between its beginning and its answer a call makes exactly one history entry, and the answer is the verdict on it at a clock reading between the entry and now; it is also the verdict at the entry's own time, unless a live item expired between the two; and if it is ItemChanged, an earlier entry made during the call gave the key another item or none |
| Guarantees.CallsDoWhatTheySay | internal/services/memory-store.go:93-188 | in every interleaving each call does what its operation says, spelled out for all six: from the contents its one entry finds to those it leaves and the answer it gives, with clock readings taken during the call |
| Guarantees.GotMeansWritten | internal/services/memory-store.go:93-159 | a returned value was under the key at the call's one entry, made during the call: written earlier, not removed or overwritten since, and not over age |
| Guarantees.FailedCallsChangeNothing | internal/services/memory-store.go:93-182 | the one entry of a call that reports an error leaves the contents as they were, unless it is a ReadAndRemove that took an item it then found expired |
| Guarantees.CollectorSparesTheLiving | internal/services/memory-store.go:78-91 | on any run, an item the collector deletes had expired strictly before its pass read the clock, whatever ran in between, and no other key changes |
| Guarantees.EachItemLeavesOnce | internal/services/memory-store.go:111-127 | on any run, two removals of a key have an insertion between them |
| Guarantees.ItemsAreConserved | internal/services/memory-store.go:111-188 | on any run, insertions and removals of a key balance with its presence |
| CollectorPass.PassClearsExpired | internal/services/memory-store.go:78-91 | an item expired when a pass begins and touched by nobody else is gone when it ends, whatever interleaves |
| CollectorPass.PassSparesLive | internal/services/memory-store.go:84-86 | a pass changes a key only by deleting an item that expired before the pass began |
| SoloPass.SoloPassIsSerial | internal/services/memory-store.go:78-91 | from any reachable state a pass run without interference that has ended leaves exactly what the serial collection leaves, and no call has moved |
| SoloPass.SoloPassEnds | internal/services/memory-store.go:78-91 | and it does end: some such run does |
| SerialStore.SerialRead | internal/services/memory-store.go:93-127 | answers and contents of Read and ReadAndRemove spelled out, missing namespace, missing key and expired item included |
| SerialStore.SerialWrite | internal/services/memory-store.go:129-159 | answers and contents of CheckAndSet and Set spelled out |
| SerialStore.SerialRefresh | internal/services/memory-store.go:161-182 | answers and contents of an undisturbed Refresh spelled out |
| SerialStore.SerialRemove | internal/services/memory-store.go:184-188 | contents after a Remove spelled out |
| SerialStore.SerialIsAtomic | internal/services/memory-store.go:93-188 | the serial operations are legal calls of the atomic object |
| SerialStore.CollectionIsInvisible | internal/services/memory-store.go:78-159 | in runs of Read, ReadAndRemove, Set and Remove, passes inserted anywhere change no returned value |
| SerialStore.CollectionShowsExactlyWhen | internal/services/memory-store.go:78-188 | a pass changes the answer of a call if and only if it is neither a Set nor a Remove and the key holds an item the pass collects |
| SerialStore.ExpiredItemsLinger | internal/services/memory-store.go:129-182 | a store where it shows: until a pass comes by, an expired item makes CheckAndSet refuse and is revived by Refresh, though a Read reports it expired |
| MemStore.MemStore.Read | internal/services/memory-store.go:93-109 | answers what the serial operation answers and changes nothing |
| MemStore.MemStore.ReadAndRemove | internal/services/memory-store.go:111-127 | answer and new contents are those of the serial operation |
| MemStore.MemStore.CheckAndSet | internal/services/memory-store.go:129-145 | answer and new contents are those of the serial operation |
| MemStore.MemStore.Set | internal/services/memory-store.go:147-159 | answer and new contents are those of the serial operation |
| MemStore.MemStore.Refresh | internal/services/memory-store.go:161-182 | answer and new contents are those of the serial operation |
| MemStore.MemStore.Remove | internal/services/memory-store.go:184-188 | new contents are those of the serial operation |
| MemStore.MemStore.Collect | internal/services/memory-store.go:78-91 | removes exactly the expired items of every namespace |
| WaitFreedom.AnswersWithinFiveSteps | internal/services/memory-store.go:93-188 | in every interleaving a call takes at most five steps of its own, can take the next one at any moment, and has answered after five |
| SoloCall.SoloCallIsSerial | internal/services/memory-store.go:93-188 | from any reachable state, every run of a call without interference that comes to its answer ends with the serial operation's answer and contents |
| SoloCall.SoloCallEnds | internal/services/memory-store.go:93-188 | and there is such a run: a call left alone comes to its answer |
| Authorizer.EndingIsFirst | cmd/authorizer.go:70-80 | a loop issues a key that was free, after colliding on every earlier try, within ten tries |
| Authorizer.ExhaustedExactlyWhen | cmd/authorizer.go:67-83 | a loop runs out, which GenerateAuthorizationRequest reports as no code and no error, if and only if all ten draws collide |
| Authorizer.IssuedExactlyWhen | cmd/authorizer.go:67-80 | a loop issues a draw if and only if it is one of the first ten, names a free key, and all before it name held ones |
| Authorizer.ExhaustionHappens | cmd/authorizer.go:67-83 | and it does run out: once a code is issued, a call whose ten draws all repeat it ends with neither code nor error and changes nothing |
| Authorizer.IssuingDisturbsNothing | cmd/authorizer.go:67-106 | a call adds at most the one key it issues and leaves every held key as it was |
| Authorizer.FixedAuthorizer.GenerateAuthorizationRequest | cmd/authorizer.go:67-83 | the returned code has 32 characters, is the key inserted under "auth_code", and is bound to the call's data; no code and no error if and only if ten draws collide |
| Authorizer.FixedAuthorizer.GenerateQRRequest | cmd/authorizer.go:85-116 | on success the token is the key inserted, and the hash is the MAC, under the secret the store holds for that token, of the returned timestamp followed by the token; ten collisions give the last error, and every error empties all three strings |
| IssuedCodes.EveryMoveKeepsInv | cmd/authorizer.go:67-106 | with any number of concurrent loops, each finished call made exactly the tries it names, at most ten, all refused but the one that inserted the code it returned for the value it was given; no two calls share a creating entry |
| CodeGuarantees.CallsAreAnsweredInOrder | cmd/authorizer.go:67-106 | over any run with any number of loops, the calls a thread started are, in order, those it has results of and then the one under way, with the same namespace, value, ttl and beginning |
| CodeGuarantees.KeysAreDrawn | cmd/authorizer.go:71-98 | the keys a thread tried are the strings it drew, in order |
| CodeGuarantees.ResultsAreEarned | cmd/authorizer.go:67-106 | every result has its account: each try a CheckAndSet of what its call was started with; a code by the last of at most ten, all others refused; giving up after exactly ten |
| CodeGuarantees.CodesCanBeIssued | cmd/authorizer.go:67-80 | for every call and every string there is a run in which that call is issued that string |
| CodeGuarantees.IssuedKeysAreUnique | cmd/authorizer.go:67-106 | over any run, when a key is issued twice the first was removed before the second was created |
| CodeGuarantees.RedeemedOnceForItsValue | internal/services/memory-store.go:111-127 | a consuming read that takes an issued key, not overwritten by a Set meanwhile, gets the value its call was started with, and no other removal takes that issuance |

## Left out

- LocalTracker.Tracker.Increment: window lengths under 1ms are excluded (the decay divides by whole milliseconds), and so are calls whose window lies before an earlier call's; `SlidingWindow.IncrementMatchesLogExactlyWhen` says what the latter are answered.
- LocalTracker.Tracker.Get: the same two exclusions.
- float64 bit for bit, and the wrap-around of 64-bit counters and durations: the decay is a parameter with named properties, counts are unbounded.
- The monotonic part of Go's clock readings: one number stands for an instant, in comparisons as well as in item equality.
- HTTP headers of the throttle: on rejected requests the remaining count wraps around, and the reset value is elapsed time rather than time left, so nothing is claimed of either.
- Request mappers and the hash that turns a string into an id: ids are given.
- Internals of `sync.Map` and `sync.Mutex`, the ticker and cancellation of the collector's goroutine: their documented atomicity is the step relation, and any thread may start a pass at any time.
- Termination of a collection pass and fairness of scheduling: of passes only what holds when they end is stated, of calls that five own steps suffice.
- SerialStore.CollectionIsInvisible: compares values, not error kinds: a read of a collected item answers InvalidKey where it would have answered ExpiredItem.
- MemStore methods are proved for a caller that is alone; the interleavings are the subject of StoreMachine and Linearization, joined to them by SoloCall.
- Quality of random strings, and the password and client comparisons: strings come from an oracle.
- Authorizer.FixedAuthorizer.GenerateQRRequest: HMAC-SHA256 with its hex encoding and decimal formatting are function parameters; the clock reading behind the timestamp is a parameter too.
- Everything else of the server: OAuth2 handlers, QR images, templates, routing, configuration and the SQLite data layer.
