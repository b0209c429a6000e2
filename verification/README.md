# Fenced leases in Dafny

A model of a fenced, time-bounded lease library and proofs about it. Clients acquire a lease on a key
from one authoritative store, keep a local handle that closes itself when in doubt, renew it in the
background, and write to protected resources under the token of their acquisition.

## How it is modelled

- Text is bytes, an instant is a number of nanoseconds, and an error is the set of sentinels that
  `errors.Is` would find in it.
- `AbstractStore` is the vacant/owned machine of one key, as a relation `Serves` over atomic steps.
  `MemoryStore`, `PostgresStore` and `ValkeyStore` are the three stores: one function per operation,
  and a class whose methods change the fields step by step and are proved equal to those functions.
  A SQL statement or Lua script is one atomic step at one reading of the server's clock. A Valkey hash
  is taken to be gone as soon as its `PEXPIRE` time has elapsed.
- `Handles` is the local state machine, one function per section under the handle's lock, with the
  class `Handle` proved equal to it.
- `Protocol` puts any number of clients and handles around one store. A request is sent, may be run at
  any later step, any number of times or never, even after its caller has given up, and may be answered
  late, with an error, or never. There is the store's clock, a monotonic clock per client, and an
  injected clock that shows arbitrary values. Owners are arbitrary and may collide.
- `Deployments` runs that protocol on each real store; `Fencing` runs the stores without any assumption
  on clocks, next to a resource that compares fences.
- `Acquisition`, `Renewal`, `GuardedRun`, `Managers`, `ManagerRuns`, `ManagerResults` and `Shutdowns` are the
  client's retry loop, the managed renewers, the guarded callback and the service manager. All but the first interleave
  goroutines as nondeterministic steps; channels are their buffered values and the number of times they
  were closed.

## Main results

- `Deployments.SafeIffMarginsCover`: on every store, in every run in which the store's clock never
  gains on a client's clock, at most one handle per key is Active before its real-time deadline with no
  release dispatched, if and only if every policy's safety margin covers what the store's granularity
  takes off the lifetime: nothing in memory, TTL mod 1 ms on PostgreSQL, and TTL mod 1 ms plus 1 ms less
  1 ns on Valkey, which also floors its start. That Valkey needs the whole margin rests on its hash being
  gone at the millisecond its `PEXPIRE` time has elapsed. `ReleaseWindow` shows, on every store, why a
  release must not be in flight.
- `Fencing.TokensIncrease`, `SuccessorProtected`, `AcceptedInOrder`: without any clock assumption,
  tokens order acquisitions, a predecessor cannot touch its successor, and accepted writes follow
  acquisition order.
- `Lifetimes.NoRevival`, `ActiveWithinBudget`, `LastRecord`, `LeavesActive`, `OneCallAndAcknowledgedRelease`:
  what every history of a handle keeps, whatever its clock and backend answer.
- `Backends.ExecDefinite` and `RejectsFirst`: the reply of each store to every request, as one function of
  the abstract cell of its key.
- `Acquisition.Client.Acquire` and `ClosesInTime`: what the retry loop returns for every behaviour of its
  dependencies, and that a handle it opens closes before the record it was opened on expires.
- `Conformance.NeverUncertain`: with replies delivered as given and a store clock that does not go back, no
  store ever leaves a handle Uncertain.
- `ManagerRuns.ShutdownLeaksNothing`, `ManagerResults.ShutdownResult`, `Shutdowns.ShutdownTerminates`,
  `Renewal.RenewersBehave`, `RenewersLeaveForCause`, `GuardedRun.GuardedCallback`, `LossCancels` and
  `Terminates`: the small concurrent protocols.

## Where code and documentation differ

- `docs/state-machine.md` lets a deadline that passes during any operation end in expired. `Release` does
  not consult the deadlines (handle.go:198-227), so the rule holds if and only if the operation is not a
  release: `Lifetimes.LateEnd`. `Lifetimes.LateReleaseFails` is a run that ends Lost or Uncertain instead.
- The same table lets contention leave the fence alone. `Backends.ContentionCounts`: PostgreSQL consumes a
  fence on contention, and it alone.
- The same table rejects every stale release. `Backends.ReleaseAcknowledged` gives the exact condition on
  what the store retains: memory acknowledges only the retained record, PostgreSQL also any record where
  no row is retained, and Valkey also any record where no live hash is left; none acknowledges against
  live ownership of another. `Backends.LateReleaseDiffers` shows four stores with the same vacant cell that
  differ on one stale release: memory and a PostgreSQL row of the successor reject it, a cleaned PostgreSQL
  table and Valkey acknowledge it.
- The same table lets every renewal of live ownership succeed. `Backends.RenewalAccepted`: it is granted
  for the same acquisition if and only if the new expiry lies after the acquisition. A clock that has gone
  back can break that; then PostgreSQL's table check aborts the statement, Valkey carries the renewal out
  and its client reports it unavailable, and memory grants a record whose expiry is not after its
  acquisition. `Conformance.RenewalKeepsActive` and `RollbackMakesUncertain`: exactly then the handle ends
  Uncertain, and on every store it can happen.

## Model

| member | source | states |
|---|---|---|
| `Exclusion.MutualExclusion` | handle.go:155-227 | In every state of every protocol run, at most one handle per key admits work and the store still holds its owner and token unexpired |
| `Exclusion.StepKeepsInv` | handle.go:259-318 | Every step of any client, handle or store keeps each waiting acquisition and each Active handle backed by the store up to its deadline |
| `Exclusion.RunKeepsBacked` | memory/store.go:58-123 | A store step takes away no claim but the one it releases, and renewing it backs it for the whole new lifetime |
| `Exclusion.HandlesDiffer` | memory/store.go:197-199 | Two handles never share key, owner and token |
| `Exclusion.DeadlineMoves` | handle.go:274-299 | Exactly a renewal of this handle whose grant of the same acquisition arrives before both deadlines moves them, to one budget after the start of its call; a new deadline equal to Go's zero time counts as none |
| `Deployments.SafeIffMarginsCover` | handle.go:89-97 | On each store exclusion holds in all runs exactly when every policy's margin covers the store's granularity |
| `Deployments.MarginsNeeded` | docs/resource-budgets.md:30-37 | A smaller margin has a run in which two handles of one key admit work at once |
| `Deployments.StoreStillHolds` | handle.go:79-99 | The real store holds every admitting handle's owner and token, unexpired |
| `Deployments.StepSimulates` | client.go:138-150 | A step on a real store, cleanup and expiry included, is a step of the abstract protocol |
| `Deployments.ReleaseWindow` | handle.go:212-225 | On every store, under any policy whose lifetime it accepts, two handles of one key can both be Active before their deadlines while a release is in flight |
| `Lifetimes.NoRevival` | handle.go:312-329 | A handle once out of Active never returns; only Active and Expired still change; key, owner, token and acquisition time never do |
| `Lifetimes.ActiveWithinBudget` | handle.go:301-318 | A handle is found Active only within one budget, on both clocks, of the readings taken when its last success was sent: the acquisition or renewal whose grant a step delivered to it, with none delivered since and none started later |
| `Lifetimes.LastSuccess` | handle.go:290-298 | The deadlines of a handle always count from the start of the last success delivered to it |
| `Lifetimes.RecordMoves` | handle.go:293-293 | A renewal or validation that ends Active stores the granted record, and nothing else changes a handle's record |
| `Lifetimes.LastRecord` | handle.go:281-298 | The record of a handle is always the one granted in the last success delivered to it |
| `Lifetimes.RecordsWellFormed` | client.go:237-243 | The record of a handle names the key and owner its acquisition asked for, with a nonzero token and ordered times |
| `Lifetimes.SentAt` | handle.go:160-164 | The readings from which a budget counts were taken when the call was sent |
| `Lifetimes.ToldExactly` | handle.go:165-189 | Success is reported exactly if the handle is Active; otherwise the backend's error, a foreign reply by the kind of operation, or a late success as lost |
| `Lifetimes.OpensOnce` | client.go:140-150 | A call that was given up or has opened a handle opens no other |
| `Lifetimes.DeadlineGrows` | handle.go:155-173 | The real-time deadline of a handle never moves back |
| `Lifetimes.StepMoves` | handle.go:274-299 | A success that arrives after a deadline does not keep the handle Active |
| `Lifetimes.LeavesActive` | handle.go:281-329 | For each state exactly when a step moves an Active handle there: a passed deadline comes before any reply, and in time the reply decides between Active, loss and uncertainty |
| `Lifetimes.LateEnd` | handle.go:218-227 | An operation that ends after the real-time deadline leaves its handle Expired if and only if it is not a release |
| `Lifetimes.LateReleaseFails` | handle.go:212-225 | A run in which a release dispatched in time fails after the deadline and the handle ends Lost or Uncertain |
| `Lifetimes.ReservesExactly` | handle.go:198-214 | Exactly when an operation may start: none under way and Active in time, or for a release also Expired |
| `Lifetimes.OneCallAndAcknowledgedRelease` | handle.go:259-272 | At most one backend call of a handle is in flight, and Released is reached only through an acknowledged release |
| `Handles.Handle.constructor` | handle.go:79-99 | The two deadlines lie one budget after the readings taken before the call |
| `Handles.Handle.CurrentState` | handle.go:142-147 | Observing expires the handle, and Active is reported only before both deadlines |
| `Handles.Handle.BeginActiveOperation` | handle.go:259-272 | Reserves exactly while Active before both deadlines and idle, and says lost or invalid otherwise |
| `Handles.Handle.FinishActiveOperation` | handle.go:274-299 | Expires against the old deadlines first; succeeds exactly if still Active, and exactly then stores the reply's record and new deadlines; otherwise tells the error or a late success as lost |
| `Handles.Handle.ReserveRelease` | handle.go:198-214 | Released repeats succeed, lost and uncertain handles and overlaps are rejected, deadlines are not consulted |
| `Handles.Handle.EndRelease` | handle.go:218-227 | Acknowledgement releases; a failure closes an Active handle |
| `Handles.Handle.FailLocked` | handle.go:320-329 | Stale and lost errors mark loss, others uncertainty, only from Active |
| `Handles.Handle.MarkManaged` | handle.go:234-257 | A renewer starts only on an Active idle unmanaged handle of a renewing policy with a free slot |
| `Handles.BeginsExactly` | handle.go:301-310 | Exactly when an operation may begin, and which error it is refused with |
| `Handles.ReleasesExactly` | handle.go:198-214 | Exactly when a release is dispatched, succeeds as a repetition, or is refused |
| `Handles.ManagesExactly` | handle.go:234-257 | Exactly when a renewer may start, and which error it is refused with |
| `AbstractStore.StepKeepsFence` | docs/state-machine.md:56-77 | Tokens stay at or below the retained fence, the fence never falls, and ownership changes hands only above it |
| `Backends.ExecRefines` | docs/state-machine.md:56-70 | Every operation of every store is a step of the vacant/owned machine of its own key and none on others |
| `Backends.UpkeepRefines` | postgres/store.go:92-101 | Cleanup and expiry touch no live ownership and no fence, and remove exactly what is over |
| `Backends.ExecDefinite` | backend.go:26-41 | Uncanceled and with room, the reply is the one the abstract cell determines, on any clock: granted exactly when the cell allows it, and for a release what the store retains |
| `Backends.RejectsFirst` | memory/store.go:177-195 | On every store a canceled call and then a malformed request are rejected as such, before and without any effect |
| `Backends.CapacityRefuses` | memory/store.go:74-77 | A full map refuses unknown keys without effect and serves known ones as ever |
| `Backends.RenewalAccepted` | memory/store.go:117-122 | A renewal of matching live ownership is granted for the same acquisition exactly when its new expiry lies after the acquisition |
| `Backends.ReleaseAcknowledged` | postgres/store.go:74-90 | A release is acknowledged exactly when the store recognizes the record: always the current one, never against other live ownership |
| `Backends.LateReleaseDiffers` | memory/store.go:157-169 | Stores with one and the same vacant cell reject or acknowledge a stale release by what they retain |
| `Backends.ContentionCounts` | postgres/store.go:25-58 | Contention changes nothing but one fence on PostgreSQL |
| `AbstractStore.AcceptedAnswers` | client.go:240-243 | Granted acquisitions pass the client's check; renewals and validations pass the handle's check exactly when the expiry lies after the acquisition |
| `Backends.ExhaustionRefuses` | postgres/store.go:51-58 | An exhausted fence refuses a free key and never wraps |
| `MemoryStore.Refines` | memory/store.go:58-175 | The map refines the vacant/owned machine |
| `MemoryStore.Definite` | memory/store.go:69-175 | The map answers as its cell determines, and acknowledges exactly the release of the record it retains |
| `MemoryStore.Store.TryAcquire` | memory/store.go:58-87 | Cancellation, malformed input, contention, capacity and exhaustion refuse in that order and without effect; otherwise the next token is installed |
| `MemoryStore.Store.Renew` | memory/store.go:93-123 | A canceled call changes nothing; only matching live ownership gets a new expiry |
| `MemoryStore.Store.Validate` | memory/store.go:126-146 | Rejects a canceled call; reports the stored record of matching live ownership |
| `MemoryStore.Store.Release` | memory/store.go:151-175 | A canceled call changes nothing; deactivates matching ownership and keeps its record |
| `PostgresStore.Refines` | postgres/store.go:25-90 | The two tables refine the vacant/owned machine |
| `PostgresStore.CleanupRefines` | postgres/store.go:92-101 | Deleting old inactive rows changes no key's cell |
| `PostgresStore.CleanupSpares` | postgres/store.go:92-101 | No row that is active, locked or touched within the last hour is deleted, and no more than the batch |
| `PostgresStore.ReleaseIsRemembered` | postgres/store.go:74-101 | For an hour after a release, whatever cleanup does, exactly its repetition is acknowledged |
| `PostgresStore.RowReported` | postgres/store.go:280-294 | A row is granted as it stands exactly if its token is positive and its times are in order |
| `PostgresStore.Definite` | postgres/store.go:25-90 | Statements answer as the cell determines, and acknowledge a release exactly of the retained record or where none is retained |
| `PostgresStore.Store.TryAcquire` | postgres/store.go:25-58 | The fence grows even on contention, and exhaustion is judged on the fence before the statement |
| `PostgresStore.Store.Renew` | postgres/store.go:60-66 | Only a matching live row gets a new expiry |
| `PostgresStore.Store.Validate` | postgres/store.go:68-72 | Reports a matching live row |
| `PostgresStore.Store.Release` | postgres/store.go:74-90 | Deactivates a matching row; missing and already inactive rows succeed |
| `PostgresStore.Store.Cleanup` | postgres/store.go:254-269 | Deletes the oldest unlocked stale rows up to the batch, or nothing when canceled or out of range |
| `PostgresStore.ReadsOwnOnly` | postgres/store.go:190-220 | A row with another token is never granted: ambiguous for a renewal, unavailable for a validation |
| `ValkeyStore.Refines` | valkey/scripts.go:7-57 | The hash and counter refine the vacant/owned machine |
| `ValkeyStore.Definite` | valkey/store.go:115-211 | Scripts and decoder answer as the cell determines, and acknowledge a release exactly of the current record or where none is current |
| `ValkeyStore.HoldsMeansMatches` | valkey/scripts.go:22-27 | Text comparison in the scripts is equality of owner and token of live ownership |
| `ValkeyStore.DecodeExact` | valkey/store.go:235-265 | Decoding a reply recovers token and times exactly; only disorder and overflow are refused |
| `ValkeyStore.ReadsNothingElse` | valkey/store.go:235-265 | Whatever words a server sends, what is granted, what is the expected refusal and what is unavailable |
| `ValkeyStore.ReadsOwnOnly` | valkey/store.go:152-183 | A reply with another token is never granted: ambiguous for a renewal, unavailable for a validation |
| `ValkeyStore.Server.Acquire` | valkey/scripts.go:7-20 | Contention leaves everything alone, overflow writes nothing, otherwise counter and hash are written |
| `ValkeyStore.Server.Renew` | valkey/scripts.go:22-35 | Only a live hash with this owner and token text gets a new expiry |
| `ValkeyStore.Server.Validate` | valkey/scripts.go:37-45 | Reads back a live matching hash |
| `ValkeyStore.Server.Release` | valkey/scripts.go:47-57 | Deletes a live matching hash and keeps the counter |
| `Decimals.FormatInjective` | valkey/scripts.go:3-6 | Decimal texts are equal exactly when the numbers are |
| `Decimals.ParseUintExact` | valkey/store.go:242-242 | Unsigned parsing inverts formatting within 64 bits |
| `Decimals.ParseUintAccepts` | valkey/store.go:242-242 | It accepts exactly the decimal texts of numbers in range, with leading zeros or without |
| `Decimals.ParseIntExact` | valkey/store.go:243-244 | Signed parsing inverts formatting within 64 bits |
| `Decimals.ParseIntSigns` | valkey/store.go:243-244 | It accepts digits with or without one sign and nothing else |
| `Fencing.TokensIncrease` | memory/store.go:78-86 | Each acquisition's token is above all earlier ones of its key, on every store and any clock |
| `Fencing.SuccessorProtected` | docs/state-machine.md:72-77 | After a successor's acquisition the predecessor's record is never granted anything and changes nothing live |
| `Fencing.AcceptedInOrder` | docs/fencing.md:6-20 | Accepted writes follow acquisition order however late they arrive |
| `Fencing.HighestFenceWins` | examples/protectedwrite/main.go:24-33 | The write with the highest fence decides the final value wherever it arrives |
| `Fencing.ArrivalOrderIrrelevant` | docs/protected-writes.md:20-21 | With distinct nonzero fences the final value does not depend on arrival order |
| `Fencing.Protected.Write` | examples/protectedwrite/main.go:24-33 | Accepts exactly strictly higher fences and then stores fence and value together |
| `Conformance.NeverUncertain` | handle.go:155-190 | With faithful delivery, room and a store clock that does not go back, replies are the same acquisition or stale, and no handle is Uncertain |
| `Conformance.RenewalKeepsActive` | handle.go:164-172 | On any clock the delivered answer to a renewal of live ownership leaves the handle Active exactly when the new expiry lies after the acquisition, and Uncertain otherwise |
| `Conformance.RollbackMakesUncertain` | memory/store.go:89-92 | On every store and under every policy it accepts, a clock that goes back far enough makes such a renewal leave its handle Uncertain |
| `Policies.AcceptsExactly` | policy.go:71-100 | In wrapping arithmetic exactly the documented options are accepted, and copied |
| `Policies.ArithmeticIsSafe` | client.go:207-209 | Budget, managed interval and retry delay of an accepted policy do not overflow and are ordered, and jitter is clamped to its range |
| `Policies.WrapExact` | policy.go:78-82 | Durations wrap modulo 2^64 into the signed range |
| `Acquisition.Client.Acquire` | client.go:160-219 | The slot is returned on every exit and one owner is used; a handle is returned exactly if the last reply is a valid grant, on that record with both deadlines one budget after the readings before that call; each error has its exact condition, and exactly contended attempts with time left were retried |
| `Acquisition.ClosesInTime` | client.go:186-199 | A handle whose store granted no earlier than the reading before the call, under a covering margin, closes no later than its record expires |
| `Acquisition.DelayExact` | client.go:207-207 | The delay is the retry interval plus the jitter clamped to its range |
| `Acquisition.GoesOnExactly` | client.go:201-218 | The loop goes on exactly after contention with attempts, wait and delay left and a completed sleep |
| `Acquisition.Bounded` | client.go:186-218 | At most MaxAttempts calls, one without a wait, and only contention is retried |
| `Acquisition.WaitBounds` | client.go:207-211 | With a steady clock the delays slept stay below the wait |
| `Renewal.RenewersBehave` | managed.go:41-73 | Slots equal live renewers and managed handles; one loss at most; no send or slot receive blocks; channels close once; an Active loss was an overlap |
| `Renewal.SlotsKeep` | handle.go:234-257 | Starting and leaving keep slots, renewers and managed handles in one-to-one correspondence |
| `Renewal.RenewersLeaveForCause` | managed.go:60-72 | A renewer reports only a failed renewal, sends only what it reported, and leaves exactly after sending or after its sleep failed |
| `Renewal.RoundEnds` | managed.go:66-71 | A renewal that leaves its handle Active, and no other, sends the renewer back to sleep; any other is reported with its error |
| `Renewal.RoundBegins` | managed.go:66-66 | A round begins exactly on an Active idle handle in time, and is reported as an overlap exactly if another operation was in flight |
| `Renewal.StartsExactly` | handle.go:234-257 | A renewer and a slot are taken exactly under the start conditions |
| `Renewal.LossTellsState` | managed.go:67-69 | A loss carries the handle's state at the time it is sent and the renewal's error |
| `Renewal.RenewerNeverStuck` | managed.go:51-72 | A renewer can always take its next step until both channels are closed, and gets nearer to it |
| `GuardedRun.GuardedCallback` | internal/guard/guard.go:22-64 | One release, after the renewer exited; one callback, none if renewal failed to start; the result joins what the steps of callback or failed start, loss and release said |
| `GuardedRun.CancellationExact` | internal/guard/guard.go:43-56 | While the callback runs its context is canceled exactly by the watcher, and a loss the watcher is done with has canceled it |
| `GuardedRun.LossCancels` | internal/guard/guard.go:43-50 | After a loss the watcher alone can cancel the running callback's context |
| `GuardedRun.NeverStuck` | internal/guard/guard.go:43-62 | In every reachable state until Run returns some party can move, and moving brings the end nearer |
| `GuardedRun.Terminates` | internal/guard/guard.go:55-64 | Every run has at most eleven steps |
| `Managers.Manager.TryReserve` | adapters/service/manager.go:67-81 | Closed and full managers refuse; otherwise one reservation, and a new channel if it is the first |
| `Managers.Manager.GiveBack` | adapters/service/manager.go:204-209 | Returns a reservation and closes the channel with the last one |
| `Managers.Manager.Append` | adapters/service/manager.go:97-119 | Turns a reservation into an entry and says whether shutdown had begun |
| `Managers.Manager.StartShutdown` | adapters/service/manager.go:143-152 | Only the first call starts cleanup |
| `Managers.Manager.EndCleanup` | adapters/service/manager.go:185-191 | Caches the result, drops the entries and their count, and closes the completion channel |
| `ManagerRuns.AccountsAddUp` | adapters/service/manager.go:164-192 | Counters add up within the bound and never underflow, channels close once, cleanup waits on the last channel |
| `ManagerRuns.ShutdownLeaksNothing` | adapters/service/manager.go:83-121 | Every handle ever obtained is released exactly once, after its renewer is gone; shutdown ends with nothing counted and one answer for all |
| `ManagerResults.ShutdownResult` | adapters/service/manager.go:177-186 | Shutdown's result, for everyone told, is the ordered join of all outcomes of stopping and releasing, so nil exactly if all were |
| `ManagerResults.CollectedKeeps` | adapters/service/manager.go:177-183 | The join loses and invents no sentinel |
| `ManagerResults.CallersExplained` | adapters/service/manager.go:83-95 | A denied call carries its acquisition's error, or the join of the failed start and of the rollback release |
| `ManagerResults.EntersExactly` | adapters/service/manager.go:67-81 | Closed and full managers refuse with their own errors, and only they |
| `ManagerResults.LateCallersGetNoHandle` | adapters/service/manager.go:97-120 | A call that hands over before closing returns its handle; a late one returns an error that says closed |
| `ManagerResults.ToldOrGaveUp` | adapters/service/manager.go:103-115 | A caller or waiter ends told exactly by seeing the end, and given up exactly by its own context |
| `Shutdowns.ShutdownNeverStuck` | adapters/service/manager.go:164-183 | In every reachable state from the start of Shutdown to the end of cleanup a caller or cleanup can take a step, and it lowers the rank |
| `Shutdowns.ShutdownTerminates` | adapters/service/manager.go:132-192 | Once closed, callers, cleanup and renewers take no more steps than the rank, whatever new calls and waiters do |
| `ManagerRuns.ShutdownIsFinal` | adapters/service/manager.go:138-162 | Closed admission, the list of channels and the cached result never change again |
| `Keys.ParseExact` | key.go:33-39 | Parsing accepts exactly the clean valid texts whose first slash is neither first nor last, and keeps their bytes |
| `Keys.NewKeyExact` | key.go:23-29 | Construction accepts exactly two nonempty parts whose joined text is valid, short and free of NUL, CR and LF |
| `Keys.ValidIsEncoded` | key.go:46-49 | Valid texts are exactly the encodings of sequences of Unicode scalar values (section 3 of RFC 3629) |
| `Keys.RoundTrip` | key.go:23-39 | Parsing a constructed key's text returns the key exactly when the namespace does not start with a slash |
| `Keys.ValidAcrossSlash` | key.go:46-49 | UTF-8 validity (section 4 of RFC 3629) survives cutting and joining at a slash |

## Left out

- Driver plumbing, connection pools, TLS, script caching and server inspection: calls into foreign code.
- PostgreSQL isolation, replication, failover, restore and flush: the model stays in one continuity epoch.
- SHA-256 key digests and the derived storage keys with their hash tags: taken as injective.
- Random owners and jitter: arbitrary values.
- Lua's formatting of timestamps: taken as exact decimals.
- PostgreSQL's encoding check on `text` owners and the microsecond resolution of its clock.
- Separate readings of `clock_timestamp()` within one statement: one reading per statement.
- `Client.TryAcquire`: the steps `Ask`, `Run` and `Admit` of `Protocol` are one such attempt.
- Observation decorators, event hashing, outcome labels and error text: transparent and easy.
- Queue and scheduler adapters, service hooks, example programs, test support and migrations: thin wrappers.
- `Managed.Stop`: its cancellation is a failing sleep in `Renewal`, and its wait is the step `Joins` in `GuardedRun`.
- Goroutine fairness and panics: steps are nondeterministic, and nothing is said after a panic.
- `Manager.Acquire` and `Shutdown` with a nil or ended context: they return before the first section.
