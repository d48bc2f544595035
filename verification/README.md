# Verified model of the sonnet caches, RPC stack, router and breaker

A Dafny model of the parts of the repository that carry linked structures, arithmetic and concurrency, with proofs
of what they keep over every input, run or interleaving. `dafny verify dfyconfig.toml` checks all of it.

Objects that the Go code updates in place are classes here, with the same fields and loops; every method is proved
against a function on values, and the theorems are about those functions. Code whose point is the interleaving of
goroutines is a step system: an event for each section that runs under a lock or at one channel operation, a function
for the next state, and theorems about every sequence of events.

- Two-level LRU store: `Recency` and `RecencyLaws` (recency lists as values), `Ring` (the linked list in arrays),
  `Lru2Cache` (one cache), `Lru2Runs` (inclusion, deleted slots), `Lru2Order` (order and victims), `Bucketing` (hash and
  mask), `Lru2Model` and `Lru2Freshness` (the store on values, what a hit returns), `Lru2Observed` (hits and callbacks
  as a caller sees them), `Lru2Survival` (how long a key is safe), `Lru2Store` (the store).
- Smooth weighted round robin: `WeightedRR`.
- RPC client and server: `CallTable`, `ClientRuns`, `ClientOutcomes` (what becomes of a call), `ServerRuns`, `ServerClose`.
- Router: `Paths`, `RouteTree`, `Routes`, `RouteParams`, `RouteClash`, `RoutePriority`, `RouteList`, and as linked objects `Trie` and `Router`.
- Packet framing: `Message`, `Framing`.
- Consistent-hash rings: `RingPoints`, `HashRing1`, `HashRing2`.
- Byte-bounded LRU caches: `ByteList`, `ByteElements`, `ByteLru1`, `ByteStore`, `ByteRuns`, `ByteOrder`, `ByteLru2`,
  and for its list as Go's `container/list` keeps it, with links and the list each element names, `ElementChain` and
  `ElementRuns`.
- Single flight and circuit breaker: `SingleFlight`, `Breaker`.

Where a promise is not kept by the code, the model follows the code, a lemma shows the input, and another lemma says
exactly when the promise is kept:

- A hit of the two-level store can be an older value (`OlderReappears`; exact in `HitIsLatestIff`).
- A cleanup pass can drop an unexpired entry (`CleanupDropsUnexpired`; exact in `CleanInLive`).
- Deleted slots of a second-level list are not reused first (`SecondLevelWastes`; exact for a list in
  `ReusesDeletedFirstIff`, and for the `get` that spoils it in `TouchDeadLast`).
- A reused wildcard child gives wrong answers (`ClashMisleads`; exact in `AlwaysMatchesIff`) and misses matches
  (`ClashMisses`; exact in `AlwaysFindsIff`); registering the empty string can hide the root route (`EmptyHidesRoot`;
  exact in `AllRoutesIff`).
- Parameters do not rebuild the path when a name is used twice or a catch-all has none (`SameNameLoses`,
  `UnnamedStarLoses`; exact in `RoundTripsIff`).
- A frame of 2^32 bytes or more is corrupt (`FrameOverflows`; exact in `FrameCarriesIff`).
- Removing a node that was added twice leaves a ring without owners (`AddedTwice`; exact in `RemoveLeavesNoHoleIff`).
- In the first ring different nodes share points under every hash function (`NamesClash`; exact in `ShareAlwaysIff`),
  and then the order of adding decides who serves a position (`AddOrderMatters`; exact in `AddOrderIff`).
- An in-place update can exceed the byte limit (`UpdateExceedsBound`; exact in `SetWithinBoundIff`), and the deletion
  scheduled by an expired read can drop a fresh value (`LateDeleteDropsFreshValue`; exact in `LateDeleteIff`).
- The second section of a `Get` of the byte-bounded cache can spoil its list: `Clear` resets the list, but not the
  elements it drops (`SpoiledRun`; exact in `StaysInOrderIff`).
- A half-open breaker admits two requests where its comment says one (`EpisodeAdmits`, `EpisodeAdmitsTwo`).

Time, hash functions, header codec, compressor and the outcomes of reads and writes are parameters.

## Model

| member | source | states |
|---|---|---|
| Ring.Links.constructor | sonnet-cache-v2/store/lru2.go:242-249 | a new list is one ring through the sentinel that visits no slot |
| Ring.Links.Adjust | sonnet-cache-v2/store/lru2.go:322-331 | the six assignments of `adjust`, in either direction: the slot is cut out and spliced in behind the sentinel; a slot that is already there stays |
| Ring.Links.Refresh | sonnet-cache-v2/store/lru2.go:255 | `adjust(idx, p, n)` is move-to-front on the order of slots, and the links stay one circular doubly linked list that visits each of the slots 1 to `last` exactly once |
| Ring.Links.Demote | sonnet-cache-v2/store/lru2.go:304 | `adjust(idx, n, p)`, with the directions swapped, is move-to-back on the same order |
| Ring.Links.Push | sonnet-cache-v2/store/lru2.go:272-285 | the first unused slot is threaded in at the head |
| Ring.LinkedMoved | sonnet-cache-v2/store/lru2.go:322-331 | linking after the splice is the linking of the moved order, slot by slot and in both directions |
| Ring.ToBackReverse | sonnet-cache-v2/store/lru2.go:320-331 | move-to-back is move-to-front on the list read backwards, which is why one routine serves both |
| Lru2Cache.Cache.constructor | sonnet-cache-v2/store/lru2.go:242-249 | an empty cache of capacity 1 to 65534 |
| Lru2Cache.Cache.Put | sonnet-cache-v2/store/lru2.go:252-288 | `put` is "remove the key, drop the oldest if full, add in front" on the recency list; it returns whether the key is new, and the callback fires exactly for a live entry that is pushed out; map and slots stay a bijection |
| Lru2Cache.Cache.Get | sonnet-cache-v2/store/lru2.go:291-297 | `get` returns the entry, live or deleted, and moves it to the front |
| Lru2Cache.Cache.Del | sonnet-cache-v2/store/lru2.go:300-309 | `del` marks a live entry, moves it to the back and returns it with the deadline it had; on anything else nothing changes |
| Lru2Cache.Cache.Walk | sonnet-cache-v2/store/lru2.go:312-318 | `walk` terminates and shows the live entries in list order up to the first one the walker declines |
| Lru2Cache.ReplaceRefines | sonnet-cache-v2/store/lru2.go:259-269 | taking over the tail slot is dropping the last entry of the recency list |
| Lru2Cache.AppendRefines | sonnet-cache-v2/store/lru2.go:272-287 | filling the next slot is adding in front of a list that is not full |
| Lru2Cache.EntriesDistinct | sonnet-cache-v2/store/lru2.go:252-287 | no two slots hold the same key |
| RecencyLaws.PutLookup | sonnet-cache-v2/store/lru2.go:252-288 | after `put`, the key maps to the new entry, and any other key to what it did before or, if it was pushed out, to nothing |
| RecencyLaws.PutSound | sonnet-cache-v2/store/lru2.go:252-288 | `put` keeps keys distinct and the list within its capacity |
| RecencyLaws.BuryLookup | sonnet-cache-v2/store/lru2.go:300-309 | `del` changes the entry of its key only |
| RecencyLaws.TouchLookup | sonnet-cache-v2/store/lru2.go:291-297 | `get` changes no entry |
| Lru2Runs.Inclusion | sonnet-cache-v2/store/lru2.go:252-309 | LRU inclusion: after any common run of `put`, `get` and `del`, the recency list of a smaller cache is a subsequence of that of a larger one, equal to it until the smaller is full, and every key in it has the same entry in the larger |
| Lru2Runs.RunIncluded | sonnet-cache-v2/store/lru2.go:252-309 | the same from any two included lists |
| Lru2Runs.TouchDeadLast | sonnet-cache-v2/store/lru2.go:291-297 | `get` keeps deleted entries behind live ones if and only if it meets a live one or nothing is live |
| Lru2Runs.ReusesDeletedFirstIff | sonnet-cache-v2/store/lru2.go:252-269 | a full list gives up every deleted slot before a live entry, whatever new keys are stored, if and only if its deleted entries come last |
| Lru2Runs.FirstLevelDeadLast | sonnet-cache-v2/store/lru2.go:252-309 | runs of `put` with deadlines and `del` keep deleted slots a suffix of the list |
| Lru2Runs.EvictsOnlyWhenAllLive | sonnet-cache-v2/store/lru2.go:259-269 | on such a list a live entry is pushed out only when every slot is live |
| Lru2Runs.SecondLevelWastes | sonnet-cache-v2/store/lru2.go:291-309 | with `get` in the run this fails: a live entry is pushed out while a deleted one keeps its slot |
| Lru2Order.RunRanked | sonnet-cache-v2/store/lru2.go:252-309 | after every run of `put`, `get` and `del` the list is in this order: the later a key was stored or read the further in front, the later it was deleted the further back |
| Lru2Order.VictimIff | sonnet-cache-v2/store/lru2.go:259-269 | a new key pushes out another if and only if the cache is full, and then exactly the last one in that order |
| Bucketing.HashBKRD | sonnet-cache-v2/store/lru2.go:205-211 | the loop computes the 32-bit wrapping hash |
| Bucketing.AndOnes | sonnet-cache-v2/store/lru2.go:54 | masking with 2^b - 1 is the residue modulo 2^b, for negative hashes too |
| Bucketing.MaskLeast | sonnet-cache-v2/store/lru2.go:214-225 | for 1 to 32768 buckets the mask is one less than the least power of two that is enough, and mask + 1 does not wrap; above 32768, exactly, it wraps to 0 |
| Bucketing.HashIsPolynomial | sonnet-cache-v2/store/lru2.go:205-211 | the hash is the sum of every byte times 131 to the number of bytes after it, but for a multiple of 2^32 |
| Bucketing.IdxIsResidue | sonnet-cache-v2/store/lru2.go:54 | the bucket of a key is the residue of that sum modulo the number of buckets, a power of two up to 2^32 |
| Lru2Model.CleanInLive | sonnet-cache-v2/store/lru2.go:366-403 | what a cleanup pass leaves for each key: nothing if a copy on either level has expired, otherwise what was there; no live entry with a deadline that has passed is left |
| Lru2Freshness.CleanupDropsUnexpired | sonnet-cache-v2/store/lru2.go:376-398 | set, read, set again, clean up: the run in which an unexpired first-level entry is gone because its second-level copy has expired |
| Lru2Freshness.ApplyOk | sonnet-cache-v2/store/lru2.go:53-403 | every operation keeps every key in its own bucket, both lists distinct and within capacity |
| Lru2Freshness.RunOk | sonnet-cache-v2/store/lru2.go:53-403 | so does every run |
| Lru2Freshness.DeleteKeysLive | sonnet-cache-v2/store/lru2.go:149-151 | deleting a list of keys removes those keys from both levels of their buckets and nothing else |
| Lru2Freshness.LiveKeysIff | sonnet-cache-v2/store/lru2.go:128-147 | the keys `Clear` collects are exactly the live ones |
| Lru2Freshness.DeleteKeysFires | sonnet-cache-v2/store/lru2.go:346-364 | during bulk deletion the callback hears of a key exactly if it is listed and was live |
| Lru2Freshness.CleanFires | sonnet-cache-v2/store/lru2.go:366-403 | during a cleanup the callback hears of a key exactly if one of its live copies has expired |
| Lru2Freshness.ClearEmpties | sonnet-cache-v2/store/lru2.go:125-154 | `Clear` leaves `Len() == 0` |
| Lru2Freshness.LenBound | sonnet-cache-v2/store/lru2.go:157-176 | `Len` is at most buckets times the two capacities |
| Lru2Freshness.HitIsFresh | sonnet-cache-v2/store/lru2.go:53-113 | every hit of every run with positive times to live: an unexpired value stored for the key since its last `Delete` or `Clear`, the latest one unless that was pushed out of the first level unread, and an older one then |
| Lru2Freshness.HitIsLatestIff | sonnet-cache-v2/store/lru2.go:53-113 | with distinct stored values, a hit is the latest exactly when it was not pushed out unread |
| Lru2Freshness.HitIff | sonnet-cache-v2/store/lru2.go:53-91 | when a `Get` hits, from the copy it looks at and its readings of the clock |
| Lru2Freshness.UndisturbedHits | sonnet-cache-v2/store/lru2.go:53-113 | a key that was stored after its last deletion, and since then neither pushed out of a level nor met expired by a `Get` or a cleanup, hits with its latest value at every time before the deadline |
| Lru2Observed.HitComesFromSet | sonnet-cache-v2/store/lru2.go:53-113 | every hit of every run with positive times to live has the value of a `Set` of the key that no deletion followed, and comes before the time of that `Set` plus its time to live; it is the last `Set`, unless that was pushed out unread |
| Lru2Observed.SetHitsUntil | sonnet-cache-v2/store/lru2.go:53-113 | as long as nothing disturbs the key after its last `Set`, it hits with the value of that `Set` before the time of the `Set` plus its time to live, and misses from then on |
| Lru2Observed.SetFires | sonnet-cache-v2/store/lru2.go:97-113 | the callback of a `Set` hears of exactly the live entry of another key that it takes out of the first level, with its value |
| Lru2Observed.DeleteFires | sonnet-cache-v2/store/lru2.go:346-364 | the callback of a deletion hears of the key if it was live, with the first-level value if there is one |
| Lru2Observed.GetFires | sonnet-cache-v2/store/lru2.go:53-91 | exactly whom the callback of a `Get` hears of: the live entry of another key that a promotion takes out of the second level, or, if the key has expired, its live second-level copy |
| Lru2Survival.QuietHits | sonnet-cache-v2/store/lru2.go:53-113 | what a caller can count on: after its last `Set` a key that is not deleted hits with that value until its deadline, as long as fewer other keys are stored than the first level holds, fewer are read than the second level holds, and no cleanup comes after the deadline of an earlier `Set` of the key |
| Lru2Survival.QuietSafe | sonnet-cache-v2/store/lru2.go:252-309 | the invariant behind it: the copy that `Get` looks at has at most as many entries in front of it on its level as other keys were stored, or read, since |
| Lru2Freshness.OlderReappears | sonnet-cache-v2/store/lru2.go:53-113 | a run in which the older second-level copy comes back |
| Lru2Freshness.RunFresh | sonnet-cache-v2/store/lru2.go:53-403 | the invariant behind it: what the live copies on the two levels are in terms of the history of the key |
| Lru2Freshness.FirstLevelDeadLast | sonnet-cache-v2/store/lru2.go:53-403 | in every run of the store, deleted slots of a first-level list come last |
| Lru2Freshness.FirstLevelReusesDeleted | sonnet-cache-v2/store/lru2.go:259-269 | so a full first-level `put` reuses a deleted slot before it pushes out a live entry |
| Lru2Store.Store.constructor | sonnet-cache-v2/store/lru2.go:18-51 | the defaults for zero options, and one pair of empty caches for each bucket |
| Lru2Store.Store.Get | sonnet-cache-v2/store/lru2.go:53-91 | promotion, expiry and second-level lookup: result, callbacks and all buckets after it |
| Lru2Store.Store.SetWithExpiration | sonnet-cache-v2/store/lru2.go:97-113 | stores the entry in the first level of the bucket of the key, with the deadline `now + ttl` for a positive time to live; the whole store and the callbacks |
| Lru2Store.Store.Delete | sonnet-cache-v2/store/lru2.go:116-122 | marks both copies and says whether one was live |
| Lru2Store.Store.Len | sonnet-cache-v2/store/lru2.go:157-176 | the number of live entries on both levels of all buckets |
| Lru2Store.Store.Clear | sonnet-cache-v2/store/lru2.go:125-154 | collects the live keys, then deletes each, with the callbacks of the deletions: the state that `ClearEmpties` is about |
| Lru2Store.Store.Cleanup | sonnet-cache-v2/store/lru2.go:366-403 | one round of the cleanup loop over all buckets, with its callbacks: the state that `CleanInLive` is about |
| Lru2Store.Store.CleanBucket | sonnet-cache-v2/store/lru2.go:370-400 | the round in one bucket |
| Lru2Store.Store.DeleteAt | sonnet-cache-v2/store/lru2.go:346-364 | marks the key on both levels of a bucket; the callback gets the first-level value, or else the second-level one |
| Lru2Store.Store.GetSecondLevel | sonnet-cache-v2/store/lru2.go:333-344 | a second-level entry that is neither deleted nor expired; the slot moves to the front either way |
| WeightedRR.WeightedRR.constructor | sonnet-rpc-v2/internal/load_balance/weighted_rr.go:18-36 | weights are copied, current weights zero, negative weights count as zero in the total |
| WeightedRR.WeightedRR.AddWeights | sonnet-rpc-v2/internal/load_balance/weighted_rr.go:52-60 | the loop adds every weight and finds the first place of the largest current weight |
| WeightedRR.WeightedRR.Select | sonnet-rpc-v2/internal/load_balance/weighted_rr.go:38-65 | picks the first instance whose current weight plus weight is largest and takes the total from its current weight alone; nothing happens for an empty or mismatched list |
| WeightedRR.PickUnique | sonnet-rpc-v2/internal/load_balance/weighted_rr.go:57-59 | the first largest entry is unique |
| WeightedRR.PicksLargest | sonnet-rpc-v2/internal/load_balance/weighted_rr.go:52-64 | from any current weights and at every prefix, the instance picked is the first with the largest sum of current weight and weight, and it alone pays the total |
| WeightedRR.SumStaysZero | sonnet-rpc-v2/internal/load_balance/weighted_rr.go:52-64 | conservation: the current weights add up to zero after every prefix |
| WeightedRR.ConservedIff | sonnet-rpc-v2/internal/load_balance/weighted_rr.go:25-33 | for any weights: they add up to zero after every prefix if and only if no weight is negative |
| WeightedRR.LowerBound | sonnet-rpc-v2/internal/load_balance/weighted_rr.go:52-64 | no current weight reaches minus the total |
| WeightedRR.Ledger | sonnet-rpc-v2/internal/load_balance/weighted_rr.go:52-64 | a current weight is k times the weight minus picks times the total |
| WeightedRR.ReturnsToZero | sonnet-rpc-v2/internal/load_balance/weighted_rr.go:52-64 | after total-many selects all current weights are zero again |
| WeightedRR.Proportional | sonnet-rpc-v2/internal/load_balance/weighted_rr.go:38-65 | from every reachable state, the next total-many selects pick each instance exactly as often as its weight says and lead back to that state |
| WeightedRR.NearlyFair | sonnet-rpc-v2/internal/load_balance/weighted_rr.go:52-64 | at every prefix no instance is a whole turn ahead, and none lags by more than (n-1)(T-1) |
| CallTable.Client.RegisterCall | sonnet-rpc/client.go:75-85 | numbers the call and files it, unless the client is closing or shut down |
| CallTable.Client.RemoveCall | sonnet-rpc/client.go:87-93 | takes out the call with the number, if it is there, and no other |
| CallTable.Client.TerminateCalls | sonnet-rpc/client.go:95-105 | shuts the client down and completes every pending call once more with the error, in any order, leaving them in the table |
| CallTable.Client.Close | sonnet-rpc/client.go:58-66 | closes the codec once and returns its answer; a second `Close` reports the error and leaves it alone |
| CallTable.Client.IsAvailable | sonnet-rpc/client.go:69-73 | neither closing nor shut down |
| CallTable.RegisterRemove | sonnet-rpc/client.go:75-93 | a registered call can be taken out exactly once, and that restores the table |
| ClientRuns.RunSound | sonnet-rpc/client.go:75-195 | in every interleaving of senders, write failures, the receive loop, cancellation, `Close` and shutdown: a call with a number is in exactly one place (table, receive loop, its own `send`, done), and numbers are unique |
| ClientRuns.TableKept | sonnet-rpc/client.go:75-105 | every step keeps each pending call under its own number, below the next one |
| ClientRuns.UniqueKept | sonnet-rpc/client.go:75-85 | no two calls ever get the same number |
| ClientRuns.LockKept | sonnet-rpc/client.go:95-135 | exactly the goroutine that holds `sending` is between locking and unlocking, and after shutdown nothing is being sent |
| ClientRuns.CallKeptSend | sonnet-rpc/client.go:107-135 | each step of `send`, and a cancellation, leaves the call it is about in exactly one place |
| ClientRuns.CallKeptRest | sonnet-rpc/client.go:95-164 | and so do the steps of the receive loop and `terminateCalls` for all calls |
| ClientRuns.AtMostOnce | sonnet-rpc/client.go:33-35 | `done` fires at most once for each call |
| ClientRuns.Delivered | sonnet-rpc/client.go:137-164 | a reply completes only the call that carries its number |
| ClientRuns.OneCallPerReply | sonnet-rpc/client.go:137-164 | replies with one number complete at most one call, once |
| ClientRuns.AllCompleted | sonnet-rpc/client.go:95-195 | after `terminateCalls` every call whose `send` has returned was completed exactly once, unless its own context took it out |
| ClientRuns.Provenance | sonnet-rpc/client.go:107-195 | every completion is accounted for by what happened: a header with its number and error flag, a failed write, a refusal or the termination; only its own cancellation drops a call |
| ClientRuns.ClosedForGood | sonnet-rpc/client.go:75-85 | after `Close` or shutdown nothing enters the table |
| ClientRuns.HolderMoves | sonnet-rpc/client.go:95-135 | whoever holds `sending` has a step of its own, and these run out |
| ClientRuns.LockReleased | sonnet-rpc/client.go:95-135 | from every reachable state the lock can be given up |
| ClientOutcomes.ReplyCompletes | sonnet-rpc/client.go:137-164 | in every reachable state in which the loop waits, any reply can be received; it takes the call with its number out of the table and completes it with the error of the server, else with the answer, or with the error of reading the body; it leaves all other calls alone, and the loop goes on exactly if the body could be read |
| ClientOutcomes.TakenCompletes | sonnet-rpc/client.go:137-164 | and so whatever other goroutines do between its steps |
| ClientOutcomes.SendFiles | sonnet-rpc/client.go:75-135 | whenever the lock is free, a new call of an open client is filed under the next number and `send` returns; on a closed one it is refused and the table stays |
| ClientOutcomes.WriteErrorCompletes | sonnet-rpc/client.go:107-135 | after a failed write the own steps of `send` complete a pending call with the error; if its reply was there first, they leave it alone |
| ClientOutcomes.FailedWriteSettles | sonnet-rpc/client.go:107-164 | in every interleaving, once `send` is back from a failed write, its call is out of the table and was completed once, with the error or by its reply, unless the loop is about to complete it |
| ClientOutcomes.CancelledStaysQuiet | sonnet-rpc/client.go:186-195 | a pending call whose context is cancelled before the loop ends is never completed, however the run goes on |
| ClientOutcomes.TerminateCompletes | sonnet-rpc/client.go:95-105 | the end of the loop shuts the client down and completes exactly the pending calls |
| ClientOutcomes.LoopCanEnd | sonnet-rpc/client.go:95-164 | from every state in which the loop waits, an error in reading a header leads to its end: whoever holds the lock gives it up |
| ClientOutcomes.ClosedSendsNothing | sonnet-rpc/client.go:58-85 | no call begun after `Close` or the end of the loop is ever numbered, in whatever interleaving; it is refused once |
| ServerRuns.RunInv | sonnet-rpc/server.go:74-195 | in every interleaving of the serve loop, handlers, workers and timers: which states the two goroutines of a request can be in together, and what has been written for it |
| ServerRuns.OwnKept | sonnet-rpc/server.go:166-195 | every step of a request, on the side of the timer or of the worker, keeps it in order |
| ServerRuns.OtherKept | sonnet-rpc/server.go:158-164 | steps of other requests leave it alone |
| ServerRuns.BusyKept | sonnet-rpc/server.go:87-90 | the wait group counts the handlers that have not returned |
| ServerRuns.AnsweredOnce | sonnet-rpc/server.go:166-195 | a handler that has returned has written exactly one response, told from the events of the run: the timeout if its timer fired, else no error and the reply if its method returned well, else the error |
| ServerRuns.RunTracked | sonnet-rpc/server.go:74-195 | accepted, refused, timed out and what the method returned: what the state says about a request is what happened in the run |
| ServerRuns.ReturnsOnce | sonnet-rpc/server.go:170-171 | the method of a request returns at most once |
| ServerRuns.NothingFollows | sonnet-rpc/server.go:166-195 | no single step writes anything more for it |
| ServerRuns.NeverAgain | sonnet-rpc/server.go:166-195 | however the run goes on, its one response stays the only one, and who won the race stays decided |
| ServerRuns.LateWorkerStuck | sonnet-rpc/server.go:170-181 | the worker of a timed-out request never gets past offering its result; every other one finishes |
| ServerRuns.ClosedAfterAll | sonnet-rpc/server.go:74-92 | the codec is closed only after each accepted or refused request has its one response, told from the events of the run; nothing is written for any other |
| ServerRuns.ClosedIsSilent | sonnet-rpc/server.go:90-91 | no step writes anything after that |
| ServerRuns.ClosedForever | sonnet-rpc/server.go:90-91 | however the run goes on, the loop stays closed and the wire silent |
| ServerRuns.RunUnbroken | sonnet-rpc/server.go:158-164 | the wire carries whole responses and at most one that is under way: they never interleave |
| ServerRuns.NobodyStuck | sonnet-rpc/server.go:166-195 | a handler that has not returned can move, or waits for a lock whose holder can move |
| ServerClose.CanClose | sonnet-rpc/server.go:74-195 | from every reachable state some continuation closes the connection, with every request answered: no order of events leaves a handler, the loop or the lock stuck |
| ServerClose.CanTimeOut | sonnet-rpc/server.go:183-194 | with a time limit, a request that waits for its method can end with the timeout response |
| ServerClose.CanAnswer | sonnet-rpc/server.go:166-195 | a request whose method is at work can end with whatever the method comes to return |
| ServerClose.NoLimitNoTimeout | sonnet-rpc/server.go:183-187 | without a time limit no timer fires |
| Paths.ParsePattern | sonnet-web/router.go:22-35 | non-empty segments up to and including the first one with a star |
| Paths.KeepsAllIff | sonnet-web/router.go:22-35 | a path keeps all its segments exactly when at most the last starts with a star |
| Paths.SegmentsConcat | sonnet-web/router.go:22-31 | the segments of a path are those before and those after any of its slashes, however many slashes there are |
| Paths.UpToStarStops | sonnet-web/router.go:25-33 | the parts are a beginning of the segments, and end with a star if anything is left out |
| Paths.UpToStarForm | sonnet-web/router.go:22-35 | parts are never empty and only the last can start with a star |
| Paths.PartsOfJoin | sonnet-web/router.go:22-35 | every list of that form is what some string parses to |
| Paths.JoinTail | sonnet-web/router.go:66 | joining the tail of a list first makes no difference |
| Trie.TrieNode.MatchChild | sonnet-web/trie.go:60-67 | the first child that is equal or wild |
| Trie.TrieNode.MatchChildren | sonnet-web/trie.go:69-77 | all of them, in order |
| Trie.TrieNode.Insert | sonnet-web/trie.go:19-32 | insertion into the linked nodes is insertion into the tree they represent, and touches no other memory |
| Trie.TrieNode.Search | sonnet-web/trie.go:34-51 | the search terminates and finds the node that the search on values finds |
| Trie.TrieNode.Travel | sonnet-web/trie.go:53-58 | appends the nodes with a pattern, parents first |
| Trie.SearchIsFirst | sonnet-web/trie.go:41-48 | trying the selected children in order is searching among all children |
| RouteTree.InsertShaped | sonnet-web/trie.go:19-32 | whatever is inserted, only a last child is wild and siblings differ |
| RouteTree.InsertDepth | sonnet-web/trie.go:19-32 | a node that holds a pattern has the depth of its number of parts |
| RouteTree.InsertGet | sonnet-web/trie.go:19-32 | without a clash an insertion stores the pattern under its kinds and changes nothing else |
| RouteTree.SearchSafe | sonnet-web/trie.go:34-51 | whatever was inserted, a search returns a node with a registered pattern of no more parts than the path has |
| RouteTree.SearchSound | sonnet-web/trie.go:34-51 | the node found lies at kinds that match the path |
| RouteTree.SearchComplete | sonnet-web/trie.go:34-51 | in every trie, if stored kinds match, the backtracking search finds a node |
| Routes.SearchRegistered | sonnet-web/router.go:48-74 | for every route table, clashing or not, the pattern found is registered and never has more parts than the path, so no index is out of range |
| Routes.RouteSound | sonnet-web/router.go:48-74 | without a clash the pattern returned is registered and matches the path |
| Routes.RouteComplete | sonnet-web/router.go:48-74 | without a clash a matching route is found |
| Routes.RouteIff | sonnet-web/router.go:48-74 | without a clash a route is found for a path exactly when a registered pattern matches it and, for the empty path, the empty string has not replaced the root route |
| Routes.AllRoutesIff | sonnet-web/router.go:48-74 | so it is found for all paths that match exactly when the last registration without parts, if any, is not the empty string |
| Routes.EmptyHidesRoot | sonnet-web/trie.go:34-39 | registering the empty string hides the root route |
| RoutePriority.SearchPrefers | sonnet-web/trie.go:34-51 | in every trie, of all stored kinds that match a path the search finds those that have a literal segment where they first differ from the others |
| RoutePriority.RoutePrefers | sonnet-web/router.go:48-74 | without a clash, the route found is the one preferred to all current ones that match: literals before wildcards, from left to right |
| RoutePriority.PrefersOne | sonnet-web/trie.go:34-51 | of two different lists of kinds that match a path only one is preferred |
| RouteList.ListedIff | sonnet-web/trie.go:53-58 | in every trie the patterns listed are exactly those stored somewhere |
| RouteList.RoutesListed | sonnet-web/router.go:76-84 | without a clash, a pattern is listed if and only if it is current and not empty, and each once |
| RouteList.CurrentIff | sonnet-web/router.go:37-46 | a pattern is current exactly if it was registered and no later registration has the same kinds |
| RouteClash.ClashMisleads | sonnet-web/trie.go:60-67 | a literal stored under a parameter answers for every other segment |
| RouteClash.ClashMisses | sonnet-web/trie.go:60-67 | a catch-all stored under a parameter no longer catches longer paths |
| RouteClash.AlwaysMatchesIff | sonnet-web/trie.go:19-51 | for every route table, clashing or not: all answers match if and only if every pattern a search can reach sits where its own parts allow it |
| RouteClash.AlwaysFindsIff | sonnet-web/trie.go:19-51 | for every route table, clashing or not: no match is missed if and only if every registered pattern, its catch-all spelled out to any length, is covered by a stored place |
| RouteParams.RoundTrip | sonnet-web/router.go:58-69 | with distinct names and a named star, putting the parameters back into the pattern rebuilds the path |
| RouteParams.ParamsExact | sonnet-web/router.go:58-69 | bound are exactly the names of the pattern, each to what the last part with that name is matched with |
| RouteParams.SameNameLoses | sonnet-web/router.go:61-62 | of two parameters with one name the later value wins |
| RouteParams.UnnamedStarLoses | sonnet-web/router.go:65-68 | a catch-all without a name is lost |
| RouteParams.RoundTripsIff | sonnet-web/router.go:58-69 | the round trip works for all paths that match if and only if the names are distinct and a catch-all has a name |
| RouteParams.RouteRoundTrip | sonnet-web/router.go:48-74 | the same for whatever `getRoute` returns on a clash-free table |
| Router.HandlerKeyInjective | sonnet-web/router.go:40 | handler keys of methods without a dash never run into each other |
| Router.Router.AddRoute | sonnet-web/router.go:37-46 | inserts into the trie of the method only, files the handler, and every registered pattern keeps a handler; the tries share no memory |
| Router.Router.GetRoute | sonnet-web/router.go:48-74 | the node and parameters, or nothing; the node has a registered pattern with a handler |
| Router.Router.Collect | sonnet-web/router.go:59-69 | the loop that binds the parameters, within bounds |
| Router.Router.GetRoutes | sonnet-web/router.go:76-84 | all nodes with a pattern |
| Message.Encode | sonnet-rpc-v2/internal/protocol/message.go:16-59 | the buffer filled in place, with 32-bit lengths, truncating copies, and the slice bounds that fail |
| Message.FrameFits | sonnet-rpc-v2/internal/protocol/message.go:42-58 | below 2^32 bytes the buffer is prefix, header and body |
| Message.FrameCarriesIff | sonnet-rpc-v2/internal/protocol/message.go:42-58 | a frame carries its two parts exactly when its length is below 2^32 |
| Message.FrameOverflows | sonnet-rpc-v2/internal/protocol/message.go:42-58 | a body ten bytes short of 2^32 makes a frame that cannot be built; a body of 2^32 bytes comes out empty |
| Message.DecodeEncoded | sonnet-rpc-v2/internal/protocol/message.go:16-117 | decoding an encoded message gives it back, if header codec and compressor round-trip |
| Message.PrefixBytes | sonnet-rpc-v2/internal/protocol/message.go:42-52 | an encoded message starts with 0x12, 0x34 and the two lengths, most significant byte first, and has the length they announce |
| Message.EncodeRejectsIff | sonnet-rpc-v2/internal/protocol/message.go:16-38 | exactly when `Encode` gives up, and why |
| Message.DecodeRejectsIff | sonnet-rpc-v2/internal/protocol/message.go:72-89 | exactly when `Decode` finds its input too short, with another magic value, or incomplete |
| Message.DecodeAcceptsIff | sonnet-rpc-v2/internal/protocol/message.go:91-117 | and exactly which message it gives otherwise, below 2^32 bytes |
| Message.Int4BE4 | sonnet-rpc-v2/internal/protocol/message.go:61-69 | the decoded length is the encoded one |
| Framing.PacketBuffer.Write | sonnet-rpc-v2/internal/transport/tcp_connection.go:19-23 | appends |
| Framing.PacketBuffer.Read | sonnet-rpc-v2/internal/transport/tcp_connection.go:25-48 | the packet in front and the rest, or nothing and no change |
| Framing.DrainParts | sonnet-rpc-v2/internal/transport/tcp_connection.go:25-48 | all packets and the leftover are the input, and no whole packet is left over |
| Framing.DrainConcat | sonnet-rpc-v2/internal/transport/tcp_connection.go:19-48 | draining early and going on is draining everything at the end |
| Framing.CallsOnTrack | sonnet-rpc-v2/internal/transport/tcp_connection.go:19-48 | for every interleaving of writes and reads: packets returned and buffer are all bytes written, in order, and the packets are those of the one-shot parser |
| Framing.ChunksDoNotMatter | sonnet-rpc-v2/internal/transport/tcp_connection.go:19-48 | the packets depend on the concatenated bytes only |
| Framing.ReadyPacketComesOut | sonnet-rpc-v2/internal/transport/tcp_connection.go:25-48 | a whole packet is returned by the next read |
| Framing.Connection.ReadMessage | sonnet-rpc-v2/internal/transport/tcp_connection.go:69-89 | the read loop returns the next packet of the stream, decoded, however it is chunked, or fails with nothing consumed |
| Framing.StreamOfMessages | sonnet-rpc-v2/internal/transport/tcp_connection.go:19-48 | a stream of encoded messages in any chunks comes out as those messages in order |
| RingPoints.Search | sonnet-cache/consistent_hash/consistent_hash.go:53-55 | binary search for the first point at or after the hash |
| RingPoints.SearchFindsSuccessor | sonnet-cache/consistent_hash/consistent_hash.go:51-57 | the point found is the clockwise successor, wrapping to the first |
| RingPoints.SuccessorUnique | sonnet-cache/consistent_hash/consistent_hash.go:51-57 | the successor is unique |
| RingPoints.SortIs | sonnet-cache/consistent_hash/consistent_hash.go:42 | sorting orders the points and keeps every occurrence |
| RingPoints.ItoaReads | sonnet-cache/consistent_hash/consistent_hash.go:37 | a replica number is written in decimal without leading zeros: read as a decimal it is the number |
| HashRing1.Map.Add | sonnet-cache/consistent_hash/consistent_hash.go:34-43 | points and owners after adding nodes; the ring stays sorted and every point has an owner |
| HashRing1.Map.Get | sonnet-cache/consistent_hash/consistent_hash.go:46-58 | the owner of the successor of the hash; the empty name on an empty ring |
| HashRing1.AddMovesOnlyToNew | sonnet-cache/consistent_hash/consistent_hash.go:34-58 | after `Add` every key keeps its owner or moves to an added node, for every hash function |
| HashRing1.NamesClash | sonnet-cache/consistent_hash/consistent_hash.go:37 | two different nodes share a virtual name, so a point, under every hash function |
| HashRing1.NamesCollideIff | sonnet-cache/consistent_hash/consistent_hash.go:37 | exactly when two virtual names are the same |
| HashRing1.ShareAlwaysIff | sonnet-cache/consistent_hash/consistent_hash.go:34-43 | two nodes share a point under every hash function if and only if two of their virtual names are the same |
| HashRing1.AddOrderIff | sonnet-cache/consistent_hash/consistent_hash.go:34-43 | the order of adding two nodes makes no difference to any position if and only if they share no point |
| HashRing1.AddOrderMatters | sonnet-cache/consistent_hash/consistent_hash.go:34-43 | with 12 or more replicas the order of adding decides who serves some position |
| HashRing2.VirtualNameInjective | sonnet-cache-v2/consistent_hash/consistent_hash.go:96 | in the second version a virtual name tells its node and replica |
| HashRing2.Map.Add | sonnet-cache-v2/consistent_hash/consistent_hash.go:58-78 | the whole ring after adding; empty names are skipped, no name at all is an error |
| HashRing2.Map.Remove | sonnet-cache-v2/consistent_hash/consistent_hash.go:81-109 | the whole ring after removing, and the two errors |
| HashRing2.Map.Get | sonnet-cache-v2/consistent_hash/consistent_hash.go:112-141 | the owner of the successor, and the two counters |
| HashRing2.RemoveLeavesNoHoleIff | sonnet-cache-v2/consistent_hash/consistent_hash.go:94-104 | after a removal every point has an owner exactly when the node had no more copies of its points in the ring than the removal takes away |
| HashRing2.AddedTwice | sonnet-cache-v2/consistent_hash/consistent_hash.go:58-109 | a node added twice and removed once leaves a ring that answers the empty name everywhere |
| HashRing2.LookupIsNode | sonnet-cache-v2/consistent_hash/consistent_hash.go:112-141 | a clean ring with points never answers the empty name |
| HashRing2.RemoveMovesOnlyItsOwn | sonnet-cache-v2/consistent_hash/consistent_hash.go:81-109 | removing a node moves only the keys it served |
| HashRing2.RemoveUndoesAdd | sonnet-cache-v2/consistent_hash/consistent_hash.go:58-109 | removing an added node restores the ring |
| HashRing2.RunClean | sonnet-cache-v2/consistent_hash/consistent_hash.go:58-151 | rings whose nodes share no virtual hash and are added only while absent stay clean and sorted through every run |
| ByteLru1.Cache.Add | sonnet-cache/lru/lru.go:36-50 | terminates for a non-negative limit and restores it; the new entry is newest, the oldest go as far as needed, and the callbacks get exactly those, in order |
| ByteLru1.Cache.Get | sonnet-cache/lru/lru.go:53-60 | a hit makes the entry the newest |
| ByteLru1.Cache.RemoveOldest | sonnet-cache/lru/lru.go:63-74 | the oldest entry goes, with its bytes and its callback |
| ByteLru1.Cache.MapAndList | sonnet-cache/lru/lru.go:6-18 | map and list hold the same keys |
| ByteList.TrimIs | sonnet-cache/lru/lru.go:47-49 | what is left is the longest most recent run that fits |
| ByteList.TrimLongest | sonnet-cache/lru/lru.go:47-49 | every most recent run that fits is part of it |
| ByteLru2.LruCache.SetWithExpiration | sonnet-cache-v2/store/lru.go:95-132 | the whole store after it: deletion for nil, in-place update, or insertion and eviction; bytes are accounted for, and the callbacks get what leaves |
| ByteLru2.LruCache.RemoveElement | sonnet-cache-v2/store/lru.go:173-183 | list, two maps, bytes and callback for one element |
| ByteLru2.LruCache.EvictAll | sonnet-cache-v2/store/lru.go:186-204 | expired entries first, then the oldest as far as needed; what leaves is what the callbacks get |
| ByteLru2.LruCache.DeleteKey | sonnet-cache-v2/store/lru.go:135-144 | removes the key, if it is there, with its callback |
| ByteLru2.LruCache.ClearAll | sonnet-cache-v2/store/lru.go:147-163 | empties everything, with a callback for each entry; the elements dropped still name the list as theirs |
| ByteLru2.LruCache.UpdateDeadline | sonnet-cache-v2/store/lru.go:267-282 | sets or drops the deadline of a stored key |
| ByteLru2.LruCache.SetMax | sonnet-cache-v2/store/lru.go:299-307 | a positive limit is enforced at once, with the callbacks |
| ByteLru2.LruCache.Find | sonnet-cache-v2/store/lru.go:55-76 | the section under the read lock: the value and its element, or a miss; exactly an expired entry gets its deletion scheduled |
| ByteLru2.LruCache.PromoteElement | sonnet-cache-v2/store/lru.go:78-84 | the section under the write lock, whenever it comes: an element of the list becomes the newest, one that was removed is left alone, and one that `Clear` dropped, if its key is stored again, ends at the back of a list that no order of the map describes any more |
| ByteLru2.LruCache.Lookup | sonnet-cache-v2/store/lru.go:55-87 | both sections with nothing in between |
| ByteLru2.LruCache.ValidIsGood | sonnet-cache-v2/store/lru.go:10-21 | one entry per key, and deadlines only for stored keys |
| ByteStore.EvictIs | sonnet-cache-v2/store/lru.go:186-204 | an eviction keeps only unexpired entries, within the limit |
| ByteStore.EvictKeepsLongestRun | sonnet-cache-v2/store/lru.go:186-204 | an eviction keeps all entries whose deadline has not passed, or, under a limit, the longest most recent run of these that fits |
| ElementChain.MoveToBackRepresents | sonnet-cache-v2/store/lru.go:78-84 | moving an element of the ring to the back |
| ElementChain.RemoveRepresents | sonnet-cache-v2/store/lru.go:173-178 | removing an element, which then names no list |
| ElementChain.PushBackRepresents | sonnet-cache-v2/store/lru.go:122-126 | pushing a new element |
| ElementChain.KeepsInit | sonnet-cache-v2/store/lru.go:159 | `Init` leaves the ring empty, and every element of it still naming the list |
| ElementChain.StraySpoils | sonnet-cache-v2/store/lru.go:81-82 | moving such an element to the back of a list that is not empty makes it the back, and no order without it describes the links |
| ElementChain.ClearedElementSpoils | sonnet-cache-v2/store/lru.go:81-82 | after that the length is 1, but the front is the root |
| ElementRuns.StepSane | sonnet-cache-v2/store/lru.go:55-307 | every operation, and every second section that meets no dropped element, keeps list, map and accounting in order |
| ElementRuns.StepSpoils | sonnet-cache-v2/store/lru.go:78-84 | a second section that meets one whose key is stored again does not |
| ElementRuns.StaysInOrderIff | sonnet-cache-v2/store/lru.go:55-307 | in every run list, map and accounting stay in order if and only if no second section meets an element that `Clear` dropped while its key is stored again |
| ElementRuns.SpoiledRun | sonnet-cache-v2/store/lru.go:78-163 | set, clear, set, and the second section of an older `Get`: the list has length 1, a dropped element at the back and the root in front, where the next eviction finds no entry |
| ElementRuns.CarefulHitIff | sonnet-cache-v2/store/lru.go:55-307 | in every run without such a second section: one entry and element per key, deadlines only for stored keys; a `Get` hits exactly if the key was stored after its last removal, not pushed out since, and its latest deadline has not passed, and returns the latest value |
| ElementRuns.CarefulLateDeleteIff | sonnet-cache-v2/store/lru.go:64-71 | in such a run, exactly when the deletion that an expired `Get` scheduled loses a value |
| ElementRuns.CarefulStaleKept | sonnet-cache-v2/store/lru.go:55-307 | an expired or absent key stays so under every careful move that does not refresh it |
| ByteRuns.StoredIff | sonnet-cache-v2/store/lru.go:95-204 | on values: a key is stored exactly if it was stored after its last removal and not pushed out since |
| ByteRuns.EvictTakesIff | sonnet-cache-v2/store/lru.go:186-204 | whom an eviction takes: who has expired, and, under a limit, who is not in a most recent run of the others that fits |
| ByteRuns.HitIff | sonnet-cache-v2/store/lru.go:55-307 | on values: exactly when a `Get` hits, and that it returns the latest value |
| ByteRuns.HitIsLatest | sonnet-cache-v2/store/lru.go:55-307 | on values: a hit is the value of the last `Set`, not deleted or cleared since, with its deadline not passed |
| ByteRuns.RunGood | sonnet-cache-v2/store/lru.go:55-307 | on values: one entry per key and deadlines only for stored keys |
| ByteRuns.SetWithinBoundIff | sonnet-cache-v2/store/lru.go:95-132 | a `Set` ends within the limit exactly when the key is new or its new value still fits |
| ByteRuns.UpdateExceedsBound | sonnet-cache-v2/store/lru.go:114-120 | an update that ends above the limit |
| ByteRuns.StaleKept | sonnet-cache-v2/store/lru.go:55-307 | on values: an expired or absent key stays so under everything that does not refresh it |
| ByteRuns.LateDeleteIff | sonnet-cache-v2/store/lru.go:64-71 | on values: after any run and any operations in between, the scheduled deletion loses a value if and only if one of them refreshed the key, it is still stored, and its latest deadline has not passed |
| ByteRuns.LateDeleteDropsFreshValue | sonnet-cache-v2/store/lru.go:64-71 | one `Set` in between is enough |
| ByteOrder.RunSorted | sonnet-cache-v2/store/lru.go:78-132 | on values: in every run the entries are in the order in which their keys were last stored or found by a `Get` |
| ByteOrder.EvictsOldestFirst | sonnet-cache-v2/store/lru.go:195-203 | so an eviction that takes an unexpired entry keeps only entries that were used later |
| ByteOrder.LimitIs | sonnet-cache-v2/store/lru.go:299-307 | the limit in force is the one set last |
| ByteOrder.OthersStay | sonnet-cache-v2/store/lru.go:95-307 | only an eviction, a `Set` of a new key and a positive new limit push anything out |
| SingleFlight.Group.Enter | sonnet-cache/single_flight/single_flight.go:24-36 | joins the call in flight or becomes its leader |
| SingleFlight.Group.Store | sonnet-cache/single_flight/single_flight.go:38 | stores the result in the call |
| SingleFlight.Group.Release | sonnet-cache/single_flight/single_flight.go:39 | releases the followers |
| SingleFlight.Group.Forget | sonnet-cache/single_flight/single_flight.go:41-43 | takes the key out of the map and nothing else |
| SingleFlight.RunOk | sonnet-cache/single_flight/single_flight.go:23-46 | in every interleaving the map holds exactly the calls whose leaders are between insertion and deletion |
| SingleFlight.OneLeader | sonnet-cache/single_flight/single_flight.go:23-46 | at most one leader per key between inserting and deleting |
| SingleFlight.ReturnsLeadersResult | sonnet-cache/single_flight/single_flight.go:28-45 | every caller, leader or follower, returns what the leader of its call computed for the same key |
| SingleFlight.ComputesOnce | sonnet-cache/single_flight/single_flight.go:38-39 | a leader runs the function once |
| SingleFlight.LeaderMoves | sonnet-cache/single_flight/single_flight.go:28-45 | a caller that has not returned can move, or waits for a leader that can |
| Breaker.CircuitBreaker.Allow | sonnet-rpc-v2/internal/breaker/breaker.go:45-73 | answer and new state |
| Breaker.CircuitBreaker.RecordSuccess | sonnet-rpc-v2/internal/breaker/breaker.go:74-91 | new state; what it means in a run is in `ClosedCounts`, `OpenUntilTimeout` and `HalfOpenEndsIff` |
| Breaker.CircuitBreaker.RecordFailure | sonnet-rpc-v2/internal/breaker/breaker.go:92-121 | new state |
| Breaker.ClosedCounts | sonnet-rpc-v2/internal/breaker/breaker.go:74-138 | while closed, in every run, the counters are the outcomes recorded since the breaker was new, closed, or let a full window pass, whichever came last |
| Breaker.FailuresBelowWindow | sonnet-rpc-v2/internal/breaker/breaker.go:98-112 | failures stay below the window size |
| Breaker.OpensIff | sonnet-rpc-v2/internal/breaker/breaker.go:98-112 | a closed breaker opens exactly on a failure that completes a window whose failure share reaches the threshold |
| Breaker.OpeningIsPaid | sonnet-rpc-v2/internal/breaker/breaker.go:92-127 | in every run an opening from closed comes after at least a window of recorded outcomes with that share |
| Breaker.NothingAdmittedWhileOpen | sonnet-rpc-v2/internal/breaker/breaker.go:54-61 | until the timeout has passed nothing is admitted and nothing changes |
| Breaker.OpenUntilTimeout | sonnet-rpc-v2/internal/breaker/breaker.go:54-127 | in every run, behind an open breaker is the failure that opened it: a request is admitted, and the breaker becomes half-open, exactly if more than the timeout has passed since that failure, and nothing else ends the open phase |
| Breaker.HalfOpenEndsIff | sonnet-rpc-v2/internal/breaker/breaker.go:83-117 | in every run, a half-open breaker closes if and only if a success is recorded, with empty counters and everything admitted, and opens if and only if a failure is recorded |
| Breaker.ReopenedBlocks | sonnet-rpc-v2/internal/breaker/breaker.go:113-127 | after such a failure nothing is admitted until the timeout has passed since that failure |
| Breaker.EpisodeAdmits | sonnet-rpc-v2/internal/breaker/breaker.go:54-70 | each half-open episode admits one or two requests |
| Breaker.EpisodeAdmitsTwo | sonnet-rpc-v2/internal/breaker/breaker.go:54-70 | and two are reached by every open breaker past its timeout, where the comment in the code says one |
| Breaker.SilentProbeBlocks | sonnet-rpc-v2/internal/breaker/breaker.go:63-70 | if neither reports back, nothing is ever admitted again |
| Breaker.UnblockedByOutcomeIff | sonnet-rpc-v2/internal/breaker/breaker.go:63-117 | from there another request can come to be admitted if and only if an outcome is recorded |

## Left out

- Lru2Store.Store.Get: requires bucket counts up to 32768 and capacities up to 65534 through its constructor; beyond them `mask + 1` and `cap + 1` wrap around in 16 bits and the Go code does not work.
- Lru2Freshness.HitIsFresh: positive times to live only; a non-positive one stores the mark that means deleted.
- Lru2Freshness.RunOk: deadlines are unbounded integers, so the overflow of an `int64` deadline is not modelled.
- Lru2Store.Store.DeleteAt: a callback is always set and values are never nil; the calls a method makes to it are a result of the method.
- Ring.Links.Adjust: the array of pairs `dlnk` is kept as one array per direction.
- WeightedRR.Proportional: non-negative weights with a positive sum; with negative weights the total is not the sum (`ConservedIff`).
- ClientRuns.RunSound: the sequence number does not wrap, and a `done` channel has room for its one completion.
- ServerRuns.RunInv: a request either resolves or is rejected; where an unresolved request leaves the stream position is not modelled, and neither are write errors, which the code only logs.
- Router.Router.GetRoute: returns an empty map where the code returns nil.
- Message.Decode: a nil body and an empty one are the same.
- HashRing1.Map.Add: `sort.Ints` is an insertion sort here; the default hash is a parameter.
- HashRing2.RunClean: rebalancing is not modelled; it calls `Remove` while it holds the same lock.
- ElementRuns.StaysInOrderIff: expired elements leave in list order there; `ByteLru2` proves the same for any order.
- ByteRuns.HitIsLatest: runs on values, in which the list is taken to be in order; `ElementRuns` says when it is.
- ByteLru1.Cache.Add: a negative limit, with which the loop never ends.
- Breaker.OpeningIsPaid: the failure share is a real number; rounding of `float64` is not modelled.
- SingleFlight.RunOk: the function returns; if it panics its followers wait for ever.
- Locks and atomic sections are taken as given; memory ordering below them is not modelled.
- `GetWithExpiration` of the byte-bounded cache, which moves list elements under a read lock.
- HTTP, JSON, gob, gzip, gRPC, etcd, sockets, reflection and logging.
- The second single flight, whose load-then-store keeps no such guarantee, and the RPC futures of the second client.
- `sonnet-orm`, `sonnet-ai`, the middleware chain, plain round robin, random choice, token bucket and connection pool.
