# Admission and feedback control plane: a verified model

The gateway spreads requests over several upstream API keys. A Rust kernel decides which keys a request
may use (`/reserve`) and learns from the results (`/report`): it holds a token bucket, a sliding success
window and a circuit breaker for each key, orders the admitted keys by the active strategy and persists
the breakers. The Go scheduler has a degrade path that is meant to take the same decisions when no
kernel is attached. Around this control plane sit a first-success dispatch race, a circuit for each
model, a batched log writer, the Auto-Pilot's executor, cursor paging of logs and the SSE forwarder.

This project models that code and proves what it keeps over whole runs. Objects whose methods update
their fields are classes whose methods are proved against a specification function; the laws are lemmas
about those functions. Clocks, random draws, upstream replies and the scheduling of goroutines are
parameters, so every statement is about all of them.

## Main results

- **Breakers.** In any interleaving of reserves, reports, restarts and strategy switches only four status
  edges occur, a breaker that is not open stays below the threshold, memory and table agree on the
  status, and a key that opened is not reserved before the deadline persisted with the opening
  (`RunSafe`, `OpeningDeadlineHolds`). A deadline extended meanwhile holds exactly as long as no event
  forgets it (`ExtendedDeadlineHoldsIff`). Between restarts every single result moves the breaker as the
  key's own history says, with the cooldown written out (`ResultsMove`).
- **Reserves.** A reserve refuses nothing it could serve: the viable keys are exactly the candidates that are
  not cooling, not a second probe, and have a token above the floor (`ViableExactly`, `ServablesAre`). They
  are handed out in the strategy's order up to the width (`ReservedInOrder`, `ReservedByWeight`), and every
  reserve of every run is accounted for token by token (`ReserveAccounting`, `AccountingOverRun`).
- **Rate.** A bucket, and the kernel as a whole, hand out at most one full bucket plus the rate times the
  elapsed time (`RateBound`, `KernelKeepsRate`): a key of at most n requests a minute is handed out at most
  n * (1 + elapsed / 60) times (`KernelKeepsLimit`). An emptied bucket refills in exactly a minute
  (`EmptiedRefills`).
- **Scores.** Over any run between restarts the score a reserve gives a key is max(1, percent * boost / 2^n),
  with the percentage of successes among the key's reported results inside the window and its n failures
  since the last success or promotion (`ScoreIsHistory`).
- **Change log.** The Go side writes the kernel's responses into its own copy of the breaker rows, late, in
  any order or never. Whenever the row written last is such an echo, copy and table agree if and only if
  the response echoed last moved the key to the same status as the latest one that names it, and, for an
  opening, in the same second (`CopyAgreesIff`). With no other writer they agree at every request if and
  only if every response that names the key is echoed before the next request (`AgreesThroughoutIff`).
- **Refinement.** From matching states the Go degrade path promotes, admits, orders, hands out and spends
  exactly as the kernel does, if and only if the concurrency is wide enough
  (`DegradePathRefinesKernel`), which it always is under the presets (`PresetsRefine`); a whole dispatch's
  replies keep the sides matching if and only if every key follows (`DispatchAgreesIff`). Runs of
  selections and settlements in any order stay in lock step exactly as long as every turn is agreeable
  (`RunsAgreeIff`), and requests one after the other until the first transport error (`RequestsAgree`).
- **Selection.** Stable sorting is unique, round robin is exactly fair, the weighted shuffle gives each place
  to the one remaining key whose share of the remaining weight holds the draw (`ShuffledExactly`), and the
  two priority orders never pass over a better key.
- **Race.** No worker blocks, the collector returns the earliest success, and the in-flight counters are
  exact over all concurrent dispatches.
- **Executor.** Requests that approve or reject suggestions overlap. A suggestion is run by exactly those
  approvals that read it between its writing and its first deletion, once by each
  (`RunsAreApprovalsInTime`); every effect is authorised and recorded in every interleaving
  (`ExecutorSafety`), no decision is skipped (`EffectsAreDecisions`) and the latest effect holds
  (`LatestEffectHolds`).
- **Model circuit.** Count, permanence and deadline are functions of a model's history, so at any time a model is
  blocked exactly when the history says so (`HistoryExact`, `BlockedExactly`).
- **Logs.** In every interleaving that commits, row i of the table carries accepted entry i (`NothingLost`), and
  on exit there are no others (`ExitIsComplete`).
- **Paging and SSE.** Following the cursor reads every row asked for once (`WholeTable`), and what is written as a
  stream is read back exactly under the condition of `RoundTripIff`.

## Where the code does not do what one might expect

Each of these is a lemma; the code is modelled as it is.

- Go doubles a cooldown before capping it, in 64-bit nanoseconds: from the 29th doubling of 30 seconds on
  it can turn negative, and from 55 doublings on it is zero. `GoBackoffAgreesIff` and `DeadlinesAgreeIff`
  say exactly when the two sides agree.
- A breaker deadline that failures have extended while the breaker was open lives in memory only. It is
  brought forward by a restart that finds an earlier deadline in the table, and by a failure that takes a
  count zeroed by a late success back to the threshold; a late success alone moves nothing
  (`RestartForgetsIff`, `ResultForgetsIff`, `ExtensionsAreForgotten`).
- The comment on the report call says lost feedback converges again with later reports. A lost opening does
  not: reports on an open breaker list no change, so the copy keeps its row until a promotion is heard of
  (`ReportsDoNotRepair`, `LostOpeningStays`). Nor do two responses that both arrive, if the earlier one is
  written last (`NextNamingMoves`, `SwappedEchoesStay`).
- With a fan-out of two or more and a smaller effective concurrency the kernel hands out more keys than
  Go (`FanoutBeyondConcurrency`). No preset has such a fan-out.
- Without a kernel, transport errors never reach the health tracker. With one, `DispatchCap` reports them
  as failures and `DispatchStream` does not report them (`FeedbackAgreesIff`, `StreamReportsIff`).
- Without a kernel a stream never opens a breaker, because only `DispatchCap` checks the counts
  (`StreamsNeverOpen`).
- Go closes a key by the status it had when selected, so a late success can close a key another dispatch
  has opened again (`ClosesAlike` in `FeedbackAgreesIff`); and its check gives a new deadline to any
  selected key at or above the threshold, also one that was not answered (`CheckRestamps`).
- The log message and the comments speak of consecutive sub-floor sweeps; mid-range sweeps in between do
  not reset the count, only healthy ones do (`HistoryExact`). A healthy sweep in turn keeps the count of
  passive failures (`HealthySweepKeepsFailures`).
- Approving reads, executes and deletes without a lock. Two approvals that both read before either deletes run
  the suggestion twice (`OverlappingApprovalsRunTwice`), and an approval that read it before a rejection
  deleted it still runs it (`RejectedStillRuns`). Requests that do not overlap run it at most once
  (`SerialRunsOnce`).
- A suggestion is lost exactly when a different one is written in the same nanosecond while it is pending
  (`SuggestionsKeptIff`, `SameNanosecondLosesSuggestion`); rejecting a suggestion deletes any setting of that name
  (`RejectDeletesAnySetting`).
- A cursor whose time is not positive is ignored, so paging restarts at the first page
  (`NonPositiveTimeRestarts`); a cursor without an id skips the rest of a second, so such a
  reader gets everything only if no page but the last ends in the middle of one (`TimeOnlyLosesIff`).
- The SSE writer counts the 14 bytes of the done marker's frame as 12 (`StreamToWriter`).

## Model

| member | source | states |
|---|---|---|
| Backoff.CircuitCheck | kernel-rs/src/compute.rs:247-275 | opens iff the count has reached the threshold; the early-exit loop gives min(600, base * 2^excess), within ten doublings and never holding more than max(base, 1198) |
| Backoff.NextCooldown | kernel-rs/src/compute.rs:183-195 | the same closed form and bounds for the sweep backoff |
| Backoff.CappedLoop | kernel-rs/src/compute.rs:183-195 | leaving the doubling loop at the cap is unobservable, and it is left within ten doublings |
| Backoff.CooldownMonotone | kernel-rs/src/compute.rs:247-275 | more failures never give a shorter cooldown |
| Backoff.GoBackoff | internal/scheduler/scheduler.go:853-863 | the double-then-cap loop on wrapping 64-bit nanoseconds equals the capped wrapped product |
| Backoff.GoBackoffAgreesIff | internal/modelhealth/sweeper.go:261-270 | Go and kernel cooldowns agree iff the product still fits an int64 or wraps to a value above the cap |
| Backoff.GoBackoffWrapsAt29 | internal/scheduler/scheduler.go:853-863 | with the default 30 seconds they agree up to 28 doublings; at 29 Go's cooldown is negative |
| Backoff.GoBackoffShiftsOut | internal/scheduler/scheduler.go:853-863 | Go applies no cooldown at all from 55 doublings of whole seconds on, and from 64 doublings of any base |
| Backoff.GoBackoffAt54 | internal/scheduler/scheduler.go:853-863 | 54 doublings are not enough: one second has become the least int64 |
| Backoff.DeadlinesAgreeIff | internal/scheduler/scheduler.go:863-866 | the deadlines in whole seconds agree iff the product fits an int64 or its wrapped value, with the clock's fraction of a second, reaches the cap |
| TokenBuckets.TokenBucket.constructor | kernel-rs/src/state.rs:32-40 | a new bucket is full and stamped with its time, holds at least one token and refills its capacity in sixty seconds |
| TokenBuckets.TokenBucket.RefillNow | internal/ratelimit/tokenbucket.go:92-103 | the lazy refill: rate times elapsed time, capped at the capacity; nothing for a clock that did not advance (its amounts are those of `TakeableIff`) |
| TokenBuckets.TakeableIff | kernel-rs/src/state.rs:42-66 | n tokens can be taken iff n is at most the capacity and at most the level plus rate * elapsed |
| TokenBuckets.EmptiedRefills | internal/ratelimit/tokenbucket.go:92-103 | an emptied bucket of rpm requests a minute gives n tokens after d seconds iff n is at most rpm and at most rpm * d / 60, and is full again iff a minute has passed |
| TokenBuckets.TakenExactly | kernel-rs/src/state.rs:56-66 | taking costs exactly what was granted: m more tokens can be taken after n iff n + m could before |
| TokenBuckets.TokenBucket.Allow | internal/ratelimit/tokenbucket.go:34-43 | takes n tokens iff that many are there after the refill, else takes none |
| TokenBuckets.TokenBucket.HasAdmission | internal/ratelimit/tokenbucket.go:61-70 | admits iff a token is there that leaves the level at or above the floor, a headroom above full counting as full; spends nothing |
| TokenBuckets.AdmitsIff | kernel-rs/src/state.rs:69-85 | admission is exactly: a token can be taken now, and taking it leaves at least capacity * (1 - headroom) |
| TokenBuckets.TokenBucket.Calibrate | internal/ratelimit/tokenbucket.go:82-89 | lowers the level to what upstream reported, never raises it |
| TokenBuckets.CalibratedExactly | kernel-rs/src/state.rs:87-94 | after calibration n tokens can be taken iff they could before and upstream reported at least n |
| TokenBuckets.Potential | kernel-rs/src/state.rs:42-94 | over any run 0 <= tokens <= capacity, and granted plus left never exceeds the start plus rate * elapsed |
| TokenBuckets.RateBound | internal/ratelimit/tokenbucket.go:34-103 | between any two calls of any run at most capacity + rate * elapsed tokens are granted |
| TokenBuckets.RefillTwice | kernel-rs/src/state.rs:42-53 | refilling at an intermediate time cannot be observed later |
| TokenBuckets.PeekUnobservable | kernel-rs/src/state.rs:69-85 | inserting a peek anywhere in a run changes no grant and no final bucket |
| TokenBuckets.AdmittedCanBeSpent | kernel-rs/src/state.rs:56-85 | an admitted bucket can still be charged one token later, and stays at or above the floor |
| HealthWindows.SlidingWindow.EvictNow | kernel-rs/src/state.rs:114-124 | drops exactly the expired prefix |
| HealthWindows.SlidingWindow.Record | internal/ratelimit/sliding.go:29-34 | appends the outcome, then evicts |
| HealthWindows.SlidingWindow.SuccessRate | kernel-rs/src/state.rs:132-139 | one hundred times the successes over all entries left, 0 without traffic; drops the expired entries |
| HealthWindows.RateBounds | internal/ratelimit/sliding.go:45-62 | the rate lies in 0..100 and is 100 iff every entry is a success |
| HealthWindows.RateIsFraction | kernel-rs/src/state.rs:132-139 | the rate of the entries since a cutoff, times their number, is one hundred times the number of successes among them; both counted as positions in the history |
| HealthWindows.WindowIsRecentHistory | internal/ratelimit/sliding.go:29-74 | with a clock that does not run backwards the stored entries are the suffix of the full history that begins at the cutoff |
| HealthWindows.CountIsFailingSuffix | internal/ratelimit/sliding.go:107-138 | the counter is the length of the failing suffix since the last success or reset |
| HealthWindows.CountersArePerKey | internal/ratelimit/sliding.go:107-138 | interleaved keys do not disturb each other's counters |
| HealthWindows.HealthTracker.Record | internal/ratelimit/sliding.go:107-117 | one window and one counter updated, no other key touched |
| HealthWindows.HealthTracker.SuccessRate | internal/ratelimit/sliding.go:120-122 | the fraction of the key's trimmed window; counters unchanged |
| HealthWindows.HealthTracker.ConsecutiveFailures | internal/ratelimit/sliding.go:125-131 | the key's counter, 0 for an unknown key |
| HealthWindows.HealthTracker.ResetConsecutive | internal/ratelimit/sliding.go:134-138 | zeroes one counter, leaves the windows |
| Selection.WeightedScore | kernel-rs/src/compute.rs:236-243 | every score is at least 1 |
| Scores.ScoreExact | kernel-rs/src/compute.rs:236-243 | each consecutive failure halves what rate and boost earn, down to the floor of one |
| Selection.StableSortCorrect | kernel-rs/src/reserve.rs:179-211 | the ordering is a stable sort of the same keys |
| Selection.StableSortUnique | internal/scheduler/scheduler.go:752-772 | two stable sorts of the same keys are equal, whatever library sorted them |
| Selection.SortedExactly | kernel-rs/src/reserve.rs:179-211 | of two distinct items the later one comes out first iff it precedes the other, and otherwise they keep their order |
| Selection.PrefixIsHit | kernel-rs/src/reserve.rs:182-197 | after rotation a key is among the first f iff its distance from the pointer is below f |
| Selection.FairRound | kernel-rs/src/reserve.rs:182-197 | in any n consecutive calls each of n positions is taken exactly f times |
| Selection.FairAlways | internal/scheduler/scheduler.go:775-791 | after any number of calls no position is more than one partial round ahead |
| Selection.Pick | kernel-rs/src/reserve.rs:219-229 | the scan returns the first item whose running total reaches the draw |
| Selection.WeightedShuffle | kernel-rs/src/reserve.rs:215-233 | the removal loop computes the shuffle determined by the draws, whose order `ShuffledExactly` states |
| Selection.ShuffledIsPermutation | internal/scheduler/scheduler.go:794-847 | for any draws the result is a permutation of the input |
| Selection.ShuffledExactly | kernel-rs/src/reserve.rs:215-233 | the i-th place goes to the one item not placed before whose share of the remaining weight, in the order of the list, holds draw i; no other item qualifies |
| Selection.ChosenInterval | internal/scheduler/scheduler.go:794-847 | for a draw in [0,1) item i is chosen iff the draw lies in an interval of length score/total, positive for every item |
| Selection.OrderIsPermutation | kernel-rs/src/reserve.rs:179-211 | all four algorithms only reorder |
| Kernel.Kernel.constructor | kernel-rs/src/store.rs:58-76 | at start the breakers are those of the table; buckets, windows and pointer are fresh |
| Kernel.Kernel.SelectByAlgo | kernel-rs/src/reserve.rs:179-211 | orders by the active algorithm; only round robin advances the pointer, by one |
| Kernel.Kernel.ReserveInner | kernel-rs/src/reserve.rs:75-172 | the whole handler: new state, reserved keys and change list |
| Kernel.Kernel.Examine | kernel-rs/src/reserve.rs:90-135 | one candidate: promotion with persistence and change, probe budget, admission |
| Kernel.Kernel.PeekAndScore | kernel-rs/src/reserve.rs:119-135 | one candidate's bucket peek and score, without spending |
| Kernel.Kernel.Consume | kernel-rs/src/reserve.rs:157-163 | one token for each reserved key, in order |
| Kernel.Kernel.ReportInner | kernel-rs/src/report.rs:65-149 | the whole handler: new state, and the sorted listing of the last change of each key |
| Kernel.Kernel.Absorb | kernel-rs/src/report.rs:79-139 | one result: measurement, breaker transition, and persistence only on a change of status |
| Kernel.Kernel.RecordAndCalibrate | kernel-rs/src/report.rs:80-92 | one result's window entry and calibration |
| Kernel.Kernel.SetStrategy | kernel-rs/src/state.rs:203-205 | switches the strategy and nothing else |
| Kernel.SortedChanges | kernel-rs/src/report.rs:142-144 | the response lists exactly the changed keys in strictly ascending order |
| Kernel.ListingUnique | kernel-rs/src/report.rs:142-144 | that listing is determined by the map, so hash order does not matter |
| KernelSafety.StepIsPerKey | kernel-rs/src/report.rs:94-139 | each event acts on one key's breaker and row as a small machine; keys not offered are untouched |
| KernelSafety.ReserveCell | kernel-rs/src/reserve.rs:91-112 | what a reserve does to one key's breaker in memory and table |
| KernelSafety.PromotesExactly | kernel-rs/src/reserve.rs:91-112 | a reserve makes a key half-open, in memory and table, iff it is offered, open and its deadline has come; every other breaker and row is unchanged |
| KernelSafety.ReportCell | kernel-rs/src/report.rs:94-137 | what a whole report does to one key's breaker and row |
| KernelSafety.EventSafe | kernel-rs/src/reserve.rs:91-121 | every event keeps the invariant and moves along one of the four edges; open is left only by a reserve after the deadline |
| KernelSafety.RunSafe | kernel-rs/src/report.rs:94-115 | the same over whole runs with restarts and strategy switches |
| KernelSafety.FirstStartSafe | kernel-rs/src/store.rs:58-76 | an empty table is a safe start |
| KernelSafety.OpeningDeadlineHolds | kernel-rs/src/reserve.rs:94-97 | a key is never reserved before the deadline persisted when it opened, whatever happens meanwhile |
| KernelSafety.ResultForgetsIff | kernel-rs/src/report.rs:94-115 | one result brings an open key's deadline forward iff it is a failure that takes the count from just below the threshold to it, and the base cooldown ends earlier |
| KernelSafety.RestartForgetsIff | kernel-rs/src/store.rs:58-76 | a restart brings it forward iff the table holds an earlier one |
| KernelSafety.EventHoldsIff | kernel-rs/src/report.rs:79-139 | one event keeps a deadline after each of its results iff it does not forget it |
| KernelSafety.ExtendedDeadlineHoldsIff | kernel-rs/src/report.rs:105-118 | over any run a deadline holds throughout iff no event forgets it |
| KernelSafety.ExtendedDeadlineHolds | kernel-rs/src/report.rs:105-115 | a key is not handed out before an extended deadline that no event has forgotten |
| KernelSafety.ExtensionsAreForgotten | kernel-rs/src/report.rs:117-118 | a concrete history in which a restart, and a failure after a late success, forget an extension; the success alone does not |
| KernelAccounting.ViableEntry | kernel-rs/src/reserve.rs:90-135 | each viable key comes from one candidate that is not open and was admitted |
| KernelAccounting.ViableDistinct | kernel-rs/src/reserve.rs:90-135 | viable keys are distinct |
| KernelAccounting.OneProbe | kernel-rs/src/reserve.rs:113-118 | at most one viable key is half-open |
| KernelAccounting.ServablesAre | kernel-rs/src/reserve.rs:90-135 | a candidate can be served iff it is not cooling, is not half-open behind an earlier half-open candidate, and a token can be taken from its bucket without going below the floor |
| KernelAccounting.ViableExactly | kernel-rs/src/reserve.rs:90-135 | the keys the scan finds viable are exactly those that can be served, in the order offered; nothing is refused that could be served |
| KernelAccounting.BestAreTaken | kernel-rs/src/reserve.rs:199-211 | under strict priority and least in-flight no key left behind is better than one handed out |
| KernelAccounting.ReservedInOrder | kernel-rs/src/reserve.rs:137-211 | of any two viable keys the better one by score, by in-flight count and score, or by rotated id stands first, ties in the order offered; a key is handed out iff its place is within the width |
| KernelAccounting.ReservedByWeight | kernel-rs/src/reserve.rs:215-233 | under weighted random the i-th key handed out is the viable key, not handed out before, whose share of the remaining weight holds draw i |
| KernelAccounting.ReserveAccounting | kernel-rs/src/reserve.rs:137-164 | the reserved keys are distinct and can be served, as many as the width or all that can be served; one token from each reserved bucket above the floor, none from any other; at most one is half-open |
| ChangeLog.ToldIsTable | kernel-rs/src/report.rs:117-138 | a response lists exactly the rows its event wrote to the table |
| ChangeLog.ListedOnce | kernel-rs/src/reserve.rs:91-112 | no reserve lists a key twice |
| ChangeLog.EchoKeepsRows | internal/scheduler/scheduler.go:980-1002 | writing one whole response keeps a whole copy equal to the table |
| ChangeLog.DeliveredNames | internal/scheduler/scheduler.go:665-675 | a response written as a whole makes the rows it names agree whatever the copy held, and touches no other row |
| ChangeLog.NamedMoves | kernel-rs/src/report.rs:117-138 | a response names a key iff its event changed the key's status, in memory and in the table |
| ChangeLog.CopyIsLastWritten | internal/scheduler/scheduler.go:995-1001 | after any writes in any order the copy's row is the one written last |
| ChangeLog.TableIsLastNamed | kernel-rs/src/store.rs:79-95 | the table's row is that of the latest response that names the key |
| ChangeLog.CopyAgreesIff | internal/scheduler/scheduler.go:978-1002 | for any losses, delays and order of the echoes, whatever was overwritten before: copy and table agree iff the response echoed last moved the key to the status of the latest that names it and, if open, in the same second |
| ChangeLog.NextNamingMoves | internal/scheduler/scheduler.go:990-1001 | two responses in a row that name the key move it to different statuses, so an echo overtaken by the next one spoils the row |
| ChangeLog.AgreesThroughoutIff | internal/scheduler/scheduler.go:980-1002 | with no other writer and no older echo under way, the copy agrees whenever the kernel takes a request iff every response that names the key is echoed before the next request |
| ChangeLog.ReportsDoNotRepair | internal/scheduler/scheduler.go:978-995 | while a key is open no number of reports, echoed or not, changes the copy's row |
| ChangeLog.LostOpeningStays | internal/scheduler/scheduler.go:992-995 | a concrete history: table open, copy active, although the later report arrived |
| ChangeLog.SwappedEchoesStay | internal/scheduler/scheduler.go:990-1001 | a concrete history: both responses arrive in swapped order, and copy and table disagree through any number of later reports |
| ChangeLog.StatusesAgree | kernel-rs/src/store.rs:79-95 | memory and table agree on every status after every event, so a restart preserves it |
| KernelHistory.FailsAfterIsSuffix | kernel-rs/src/report.rs:94-106 | a counter is the length of the failing suffix of results and promotions; the count at the start matters only while everything fails |
| KernelHistory.CounterIsHistory | kernel-rs/src/report.rs:94-115 | over any run between restarts the kernel's count for a key is that of the key's results and promotions |
| KernelHistory.ResultsMove | kernel-rs/src/report.rs:94-115 | every single result of every report moves the breaker exactly: the count is the failing suffix n; a success closes a half-open key and no other; a failure opens iff n reaches the threshold, until now + min(600, base * 2^(n - threshold)) |
| KernelHistory.WindowTracks | kernel-rs/src/state.rs:114-139 | over any run between restarts the kernel's window of a key holds the key's full history since some time not inside the window |
| KernelHistory.ScoreIsHistory | kernel-rs/src/reserve.rs:119-135 | over any run between restarts a reserve's score is max(1, percent * boost / 2^n), with the percentage of successes among the key's reported results inside the window and n its failures since the last success or promotion |
| KernelFairness.ReserveIsHit | kernel-rs/src/reserve.rs:182-197 | a round-robin reserve hands out a key iff its sorted position is hit by the pointer |
| KernelFairness.ReservesAreHits | kernel-rs/src/reserve.rs:182-197 | over a run with reports between the reserves, reservations of a key are counted by the hits |
| KernelFairness.RoundRobinFair | kernel-rs/src/reserve.rs:182-197 | over full rounds of reserves, whatever reports come between, each key is reserved exactly f times a round; otherwise floor or ceiling |
| KernelRate.StepKeepsReady | kernel-rs/src/state.rs:42-94 | every event leaves every bucket between empty and full and no later than the clock |
| KernelRate.AccountingOverRun | kernel-rs/src/reserve.rs:81-164 | every reserve of every run is accounted for |
| KernelRate.EventMoves | kernel-rs/src/report.rs:86-92 | one event moves a key's bucket, or creates it, by what it hands out and at most what flows in |
| KernelRate.KernelKeepsRate | kernel-rs/src/reserve.rs:81-164 | from the kernel's start or any state, over any run without a restart, a key is handed out at most capacity + rate * elapsed times, and never without a bucket |
| KernelRate.KernelKeepsLimit | kernel-rs/src/reserve.rs:81-164 | the same in requests per minute: a key offered and met with limits of at most `limit` is handed out at most limit * (1 + elapsed / 60) times |
| KernelRate.ReportedLevel | kernel-rs/src/report.rs:86-92 | after a report's results n tokens can be taken from a key's bucket iff they could before and every remaining count reported for it is at least n |
| KernelRate.StartIsReady | kernel-rs/src/state.rs:183-196 | the kernel's own start is such a state |
| GoScheduler.Scheduler.SelectKeysGo | internal/scheduler/scheduler.go:691-735 | the degrade path's selection: promotions, admitted keys and their order |
| GoScheduler.Scheduler.Examine | internal/scheduler/scheduler.go:696-726 | one row: enabled and due, promotion, probe budget, admission |
| GoScheduler.Scheduler.SelectByStrategy | internal/scheduler/scheduler.go:752-772 | orders by the mirrored strategy; trims windows on the way |
| GoScheduler.Scheduler.ScoreAll | internal/scheduler/scheduler.go:738-749 | every key's score is that of the state before any of them was scored |
| GoScheduler.Scheduler.ScoreNext | internal/scheduler/scheduler.go:738-749 | one key's score; trimming earlier windows has not changed it |
| GoScheduler.Scheduler.RoundRobinSelect | internal/scheduler/scheduler.go:775-791 | sorts and rotates the array in place, advances the counter |
| GoScheduler.RotateInPlace | internal/scheduler/scheduler.go:780-788 | the copying loop is a rotation |
| GoScheduler.Scheduler.ObserveReply | internal/scheduler/scheduler.go:335-377 | calibration, health record and closing by the status at selection; nothing for a transport error |
| GoScheduler.Scheduler.CheckCircuitBreaker | internal/scheduler/scheduler.go:850-869 | opens the row iff the tracker's count has reached the threshold, with the deadline rounded down to seconds |
| GoScheduler.Scheduler.Settle | internal/scheduler/scheduler.go:331-392 | all replies of a dispatch in order, then the check of every selected key, which streams leave out |
| GoScheduler.Scheduler.constructor | cmd/gateway/main.go:297-305 | at start every stored key has a full bucket of its rate |
| GoScheduler.Scheduler.Dispatchable | internal/scheduler/scheduler.go:280-294 | the dispatched prefix and its token consumption |
| GoScheduler.TrimmedStill | internal/ratelimit/sliding.go:65-74 | trimming windows early is invisible to anyone who trims later |
| GoRefinement.MatchLater | internal/scheduler/scheduler.go:691-735 | matching states still match when time has passed |
| GoRefinement.ColdStartMatches | cmd/gateway/main.go:297-305 | a kernel just started matches a scheduler that has registered its keys |
| GoRefinement.OffersExactly | internal/scheduler/scheduler.go:623-650 | the candidates offered to a kernel are exactly the enabled rows that are not open before their deadline, in order, each with its limit, boost and in-flight count |
| GoRefinement.LoopsInStep | internal/scheduler/scheduler.go:696-726 | after the same rows both candidate loops have promoted, admitted and scored the same |
| GoRefinement.SortIdsOnly | internal/scheduler/scheduler.go:775-778 | sorting bare keys is sorting scored keys by key |
| GoRefinement.OrdersAgree | internal/scheduler/scheduler.go:752-791 | both sides order the same keys the same way, for equal draws |
| GoRefinement.WidthsAgreeIff | internal/scheduler/scheduler.go:280-287 | the dispatched prefixes have the same length iff the concurrency covers the fan-out or the keys |
| GoRefinement.FanoutBeyondConcurrency | internal/scheduler/scheduler.go:280-287 | from matching states with two fresh keys, fan-out two and concurrency one the kernel hands out two keys and Go one |
| GoRefinement.DegradePathRefinesKernel | internal/scheduler/scheduler.go:691-791 | from matching states both sides hand out the same keys in the same order iff the concurrency is wide enough, and then end in matching states |
| GoRefinement.SelectedAreReady | internal/scheduler/scheduler.go:691-735 | after a selection every selected key is enabled, not open, and has a bucket on both sides |
| GoFeedback.FeedbackAgreesIff | internal/scheduler/scheduler.go:335-392 | for any status and count, a dispatch keeps one key matching iff it follows: no transport error unless streamed, a success closed by the current status, a failure below the threshold or without overflow, an idle check that moves nothing |
| GoFeedback.DispatchAgreesIff | internal/scheduler/scheduler.go:331-392 | all replies of a dispatch and the check keep the whole states matching iff every enabled key follows |
| GoFeedback.OverflowParts | internal/scheduler/scheduler.go:853-863 | an open key failing with 29 doublings of 30 seconds due does not follow |
| GoFeedback.CheckRestamps | internal/scheduler/scheduler.go:382-385 | a dispatch gives a selected open key a new deadline without any reply from it, while the kernel hears nothing of it; the sides still match iff it is the deadline the key has |
| GoFeedback.StreamsNeverOpen | internal/scheduler/scheduler.go:510-552 | without a kernel no row becomes open through a stream |
| GoFeedback.CheckOpensExactly | internal/scheduler/scheduler.go:382-385 | the check over all selected keys opens exactly those at or above the threshold, open ones anew, and leaves every other row alone |
| RequestRuns.TurnAgreesIff | internal/scheduler/scheduler.go:257-395 | one selection or settlement keeps outputs and states matching iff it is agreeable |
| RequestRuns.RunsAgreeIff | internal/scheduler/scheduler.go:257-395 | runs of both, in any order and with the boosts and in-flight counts of each moment, stay in lock step iff every turn is agreeable |
| RequestRuns.RunsAgree | internal/scheduler/scheduler.go:257-395 | agreeable runs hand out the same keys in the same order throughout |
| RequestRuns.PromptAgrees | internal/scheduler/scheduler.go:257-395 | a request settled before the next selection, without transport errors, is agreeable in both its turns |
| RequestRuns.RequestsAgree | internal/scheduler/scheduler.go:257-395 | requests one after the other hand out the same keys until the first transport error; no cooldown overflows |
| GoConfig.ById | kernel-rs/src/strategy.rs:179-181 | finds a preset of that id, or there is none |
| GoConfig.Settings.UpdateConfig | internal/scheduler/scheduler.go:138-175 | accepts iff the merged configuration is consistent; a refused patch changes nothing |
| GoConfig.Settings.EffectiveConcurrency | internal/scheduler/scheduler.go:178-193 | the override wins when positive, up to the maximum |
| GoConfig.EffectiveInRange | internal/scheduler/scheduler.go:138-193 | after any patches and for any override the concurrency is between one and the maximum |
| GoConfig.LatestPatchHolds | internal/scheduler/scheduler.go:138-175 | after any patches every field is that of the latest accepted patch that sets it, or the first configuration |
| GoConfig.PresetsRefine | kernel-rs/src/strategy.rs:83-173 | under every reachable configuration and every preset the degrade path refines the kernel |
| DispatchRace.Collect | internal/scheduler/scheduler.go:331-378 | the receive loop returns the earliest success, or all attempts failed; its report list is that of what it received |
| DispatchRace.StepConsistent | internal/scheduler/scheduler.go:310-395 | every step of any number of dispatches keeps each dispatch consistent |
| DispatchRace.CountersExact | internal/scheduler/scheduler.go:85-97 | each in-flight counter is the number of workers between increment and decrement, over all dispatches |
| DispatchRace.QuietMeansZero | internal/scheduler/scheduler.go:85-97 | with no worker under way every counter is zero |
| DispatchRace.SendNeverBlocks | internal/scheduler/scheduler.go:310-323 | the channel always has room for a worker's result |
| DispatchRace.OutcomeIsFirstSuccess | internal/scheduler/scheduler.go:331-395 | the winner is the worker of the last received attempt, the only success; failure after n attempts without one; at most one report item of success |
| DispatchRace.ReportsExactly | internal/scheduler/scheduler.go:331-395 | the report items are those of the received attempts, in order, each with its key and result; left out are exactly the transport errors of a stream |
| DispatchRace.StreamReportsIff | internal/scheduler/scheduler.go:521-552 | a stream reports one item for each received attempt iff none was a transport error |
| DispatchRace.StepUsesWork | internal/scheduler/scheduler.go:310-378 | every step uses up one of at most four per key |
| DispatchRace.UnfinishedCanStep | internal/scheduler/scheduler.go:331-333 | an unfinished dispatch can always move, so the collector never waits for nothing |
| ModelCircuit.Verdict | kernel-rs/src/compute.rs:198-232 | the kernel's sweep verdict |
| ModelCircuit.Store.ApplyVerdict | internal/modelhealth/sweeper.go:202-257 | one sweep of one model, with or without the kernel's answer |
| ModelCircuit.Store.RecordModelCircuitFailure | internal/data/model_circuit.go:113-135 | passive failure: counts, and opens at the threshold; permanent and disabled are left alone |
| ModelCircuit.Store.ResetModelCircuitConsecutive | internal/data/model_circuit.go:138-153 | passive success: zeroes the count and closes, unless permanent |
| ModelCircuit.Store.ResetModelCircuit | internal/data/model_circuit.go:156-172 | manual reset of every field that blocks |
| ModelCircuit.Store.IsModelCircuitOpen | internal/data/model_circuit.go:175-188 | blocked iff permanent, or open with a deadline ahead |
| ModelCircuit.Store.ListCircuitHiddenModels | internal/data/model_circuit.go:191-210 | lists exactly the rows with the permanent flag or a running open state |
| ModelCircuit.VerdictsAgree | internal/modelhealth/sweeper.go:231-257 | Rust and Go verdicts give the same state, count and flag for all inputs; short of permanent the records are equal iff the sweep is not mid-range or its backoff has not overflowed |
| ModelCircuit.HistoryExact | internal/modelhealth/sweeper.go:231-257 | the count is the sub-floor sweeps since the last healthy sweep or reset, and permanent iff it reached the limit since the last reset |
| ModelCircuit.DeadlineExact | internal/data/model_circuit.go:113-153 | as long as a model is not condemned, its passive count, state and deadline are functions of its history: the deadline is the latest opening plus its cooldown, cleared by a healthy sweep, a passive success or a reset |
| ModelCircuit.BlockedExactly | internal/data/model_circuit.go:175-188 | at any time a model is blocked iff it is condemned or that deadline lies ahead |
| ModelCircuit.LastSweepShown | internal/modelhealth/sweeper.go:202-257 | rate and sweep time shown are those of the latest sweep |
| ModelCircuit.TableIsPerModel | internal/data/model_circuit.go:87-110 | a model's row depends on that model's history only |
| ModelCircuit.HiddenIsBlocked | internal/data/model_circuit.go:175-210 | the hidden models are exactly the blocked ones, at every time |
| ModelCircuit.HealthySweepKeepsFailures | internal/modelhealth/sweeper.go:232-238 | a healthy sweep closes but keeps the passive count, which decides the next failure |
| ModelCircuit.SuccessGivesCleanSlate | internal/data/model_circuit.go:138-153 | after a passive success exactly `threshold` failures are needed to reopen |
| LogDrain.Logger.Send | internal/logging/logger.go:232-242 | accepted iff the channel has room; otherwise nothing changes |
| LogDrain.Logger.WriteLogBatch | internal/data/logs.go:40-62 | one transaction appends a row for each entry of the batch, all with one time, the level in lower case and all else unchanged, or appends nothing |
| LogDrain.Logger.Flush | internal/logging/logger.go:133-139 | empties the batch, written or lost |
| LogDrain.Logger.Add | internal/logging/logger.go:140-149 | takes one entry and flushes at one hundred |
| LogDrain.Logger.DrainRest | internal/logging/logger.go:162-172 | the final loop, with senders racing and writes failing, ends with channel and batch empty; with committed writes all that was accepted is written in order |
| LogDrain.RunInv | internal/logging/logger.go:127-175 | in every interleaving each accepted entry is in the batch, in the channel or has left with its transaction; the table's rows carry exactly those whose transaction committed, in order |
| LogDrain.StepStamps | internal/logging/logger.go:133-172 | a step only appends rows, only when a flush commits, empties the batch with them and stamps all of them with its time |
| LogDrain.NothingLost | internal/logging/logger.go:150-175 | with committed writes, row i of the table carries accepted entry i, unchanged but for a level in lower case, and the rest is batch and channel; the batch stays below one hundred |
| LogDrain.ExitIsComplete | internal/logging/logger.go:112-124 | when the goroutine leaves, the table has one row for each accepted entry, carrying it, in order of time |
| LogDrain.ExitedStoresNothing | internal/logging/logger.go:232-242 | entries accepted after that are never stored |
| LogDrain.RoomMeansAccepted | internal/logging/logger.go:232-242 | sends that fit the channel are all accepted, in order, however slow the writer |
| Autopilot.Executor.Apply | internal/autopilot/executor.go:43-93 | the batch loop: effects, pending entries, events, audit; returns the number executed |
| Autopilot.Executor.ApplyOne | internal/autopilot/executor.go:49-88 | one action in one mode |
| Autopilot.Executor.Execute | internal/autopilot/executor.go:96-125 | one action's effect; fails iff its kind is unknown |
| Autopilot.Executor.ApprovePending | internal/autopilot/executor.go:147-163 | undisturbed, is the read, the execution and the deletion in turn; succeeds iff the key holds an action of a known kind |
| Autopilot.Executor.RejectPending | internal/autopilot/executor.go:166-173 | undisturbed, is the read, the record of the rejection and the deletion in turn |
| Autopilot.Executor.RecordEvent | internal/autopilot/executor.go:194-210 | appends an event and keeps the last fifty |
| Autopilot.Executor.BumpDecision | internal/autopilot/executor.go:213-225 | appends the decision time and trims the expired prefix |
| Autopilot.EveryEffectAuthorised | internal/autopilot/executor.go:43-93 | over any run with mode switches and overlapping requests a destructive effect comes from a full-auto decision of confidence 0.7 or more, or from approving a suggestion with that action |
| Autopilot.OnlyAssistedSuggests | internal/autopilot/executor.go:137-144 | suggestions are written only by assisted decisions on destructive actions |
| Autopilot.ManualChangesNothing | internal/autopilot/executor.go:51-54 | manual mode records events and changes nothing |
| Autopilot.ActDecides | internal/autopilot/executor.go:43-93 | what one action in one mode does: executed iff automatic, known and, when destructive, full-auto of confidence 0.7 or more; suggested iff assisted and destructive; audited and announced accordingly |
| Autopilot.ProceedDecides | internal/autopilot/executor.go:147-173 | what a request that goes on does: an approval that read a known action executes, audits and announces it, a rejection audits and announces what it read as not applied, any other records nothing |
| Autopilot.EffectsAreDecisions | internal/autopilot/executor.go:43-93 | over any run the effects of decisions are exactly the actions that were to be executed, in order; none is skipped or added |
| Autopilot.PendingIsWrittenMinusResolved | internal/autopilot/executor.go:137-173 | with distinct keys, over any run with overlapping requests: pending is written minus deleted, unaltered; a request finds something to run iff it reads in time; each approval runs what it read once |
| Autopilot.RunsAreApprovalsInTime | internal/autopilot/executor.go:147-163 | a suggestion is run by exactly the approvals that read it between its writing and its first deletion and have gone on; at all iff there is one, at most once iff there are not two |
| Autopilot.SerialRunsOnce | internal/admin/autopilot.go:113-124 | requests that do not overlap run every suggestion at most once, and what was run is gone when no request is under way |
| Autopilot.OverlappingApprovalsRunTwice | internal/autopilot/executor.go:147-163 | two approvals that both read before either deletes run the suggestion twice |
| Autopilot.RejectedStillRuns | internal/autopilot/executor.go:147-173 | an approval that read a suggestion before a rejection deleted it still runs it |
| Autopilot.SuggestionsKeptIff | internal/autopilot/executor.go:137-144 | over any run every pending suggestion stays as it is until a request deletes it iff no assisted decision finds its key pending with a different action |
| Autopilot.SameNanosecondLosesSuggestion | internal/autopilot/executor.go:137-144 | two different suggestions in one nanosecond leave the second alone pending |
| Autopilot.RejectDeletesAnySetting | internal/autopilot/executor.go:166-173 | rejecting removes that one setting, whatever it is, and executes nothing |
| Autopilot.RecordIsTruthful | internal/autopilot/executor.go:176-210 | over any run the state is the replay of the recorded effects; audit rows and events marked applied are exactly the executed actions in order, the events with their times; the buffer is the last fifty events |
| Autopilot.EffectsAmountTo | internal/autopilot/executor.go:96-125 | keys are disabled and credentials gone exactly as the recorded effects say; nothing is ever enabled or created; overrides stay in range |
| Autopilot.LatestEffectHolds | internal/autopilot/executor.go:96-125 | concurrency, boost and cooling of a key are the values of the latest effect that sets them, or those of the start |
| Autopilot.ExecutorSafety | internal/autopilot/executor.go:43-173 | authorisation, record and ledger together, from any start, with overlapping requests |
| Autopilot.DecisionsAreLastMinute | internal/autopilot/executor.go:213-225 | the buffer is exactly the decisions of the minute up to the latest |
| Paging.QueryLogs | internal/data/logs.go:67-113 | one page: filtered, below the cursor, newest first, cut at the effective limit |
| Paging.ListAudit | internal/data/audit.go:56-87 | the same for the audit log with its own maximum |
| Paging.PageIsPage | internal/data/logs.go:67-113 | a page holds at most n rows, strictly newest first, all asked for and older than the cursor; any such row left out is older than all of them and the page is full |
| Paging.HitIsAsked | internal/data/logs.go:68-82 | a row is selected iff trace and source are the ones asked for and the level is the same up to case, an empty filter asking for all |
| Paging.NewestIsOrdered | internal/data/logs.go:96-97 | the scan is strictly newest first and a permutation |
| Paging.MatchingNewest | internal/data/logs.go:68-97 | selecting and ordering commute |
| Paging.RestAfterPage | internal/data/logs.go:83-92 | below a page's last row lies exactly the rest of the scan |
| Paging.PagesAreOneScan | internal/data/logs.go:67-113 | following the cursor ends and concatenates to one scan of the rows present at the first page, also while newer rows are written |
| Paging.WholeTable | internal/data/audit.go:56-87 | the reader gets every matching row exactly once, strictly newest first |
| Paging.NonPositiveTimeRestarts | internal/data/logs.go:83-92 | a cursor with a time that is not positive gives the first page again |
| Paging.TimeOnlyCursorSkips | internal/data/logs.go:85-91 | after a page, a cursor without id leaves the rest of the scan minus the rows of the last row's second |
| Paging.TimeOnlyLosesIff | internal/data/logs.go:83-92 | a reader who follows such cursors gets the whole scan iff no page but the last ends in the middle of a second |
| Sse.ProcessSSELine | internal/upstream/sse.go:46-70 | the chunk of one line, if it is a data line |
| Sse.ReadSSEChunks | internal/upstream/sse.go:19-44 | the reader loop yields the chunks of all lines, a last unterminated one included |
| Sse.StreamToWriter | internal/upstream/sse.go:74-99 | writes the frames up to the first done marker; byte count exact without it and two short with it |
| Sse.UpToDoneStops | internal/upstream/sse.go:76-86 | what is written ends with the first done marker, and everything before it is kept |
| Sse.FramingCost | internal/upstream/sse.go:74-99 | a chunk costs the bytes of its data and eight more |
| Sse.ParseConcat | internal/upstream/sse.go:19-44 | bodies that end in a line end can be read one after the other |
| Sse.RoundTripIff | internal/upstream/sse.go:46-99 | reading what was written returns it iff no data holds a newline, ends in CR or is the done text |
| Sse.OtherLinesAreDropped | internal/upstream/sse.go:46-70 | lines of other fields and comments between frames do not change what is read |

## Left out

- SelectByStrategy: a key's score is computed once; the source recomputes it in each comparison, at the same instant.
- Examine: the Go path's admission is the kernel's test, which Go's equals for a headroom of at most 1, as every preset has.
- RateBound: assumes one bucket object and a monotone clock; re-registering a key or a restart starts a full bucket and voids the bound.
- CopyAgreesIff: a row write that fails counts as never made; a row written last by other code agrees iff it is the table's row.
- ScoreIsHistory: between restarts; a restart empties the windows and reloads the counts of the last change of status.
- KernelKeepsRate: speaks of runs without a restart, for the same reason.
- VerdictsAgree: a permanent record keeps its old deadline in Go and gets 0 from Rust; nothing reads it.
- DegradePathRefinesKernel: one selection is one step; concurrent Go requests may interleave between peek and consumption, which the kernel's locks exclude.
- DispatchAgreesIff: the replies of one dispatch are observed at one instant, that of the report; the kernel stamps them then, Go as they arrive.
- PagesAreOneScan: rows with times or ids that are not positive are excluded; `NonPositiveTimeRestarts` shows why.
- RejectPending: a value that decodes only in part counts as not decoded, so its event carries an empty action.
- Asked: lower case, here and in the stored levels, is that of the ASCII letters; Go's lowering goes further, SQLite's does not.
- NothingLost: is about writes that commit; `RunInv` also covers transactions that fail, whose batch is dropped whole.
- Execute: an opened key's status and zeroed count are implied by its deadline; a concurrency or duration beyond 64 bits is not modelled.
- Apply: settings, audit and other database writes of the executor are assumed to succeed, and the batch loop takes one action as one step; approvals and rejections are split where they read, act and delete.
- The kernel's maps hold bucket and window values, because Rust owns them; no aliasing is lost.
- One clock reading serves a whole report, and one the candidate loop of a reserve; consuming the tokens reads it again.
- Breaker threshold, base cooldown and window length are fixed for a run; the source receives them with every request.
- SQLite writes of the breaker table are assumed to succeed; `updated_at` columns and sub-decision audit rows are not modelled.
- Rounding and NaN in scores and levels, the quality of random numbers, and the wrap of 64-bit counters other than the backoff's.
- The fail-open fallback when an attached kernel does not answer: neither side consumes tokens there.
- In-flight counts do not change while one selection is sorted.
- Closing the logger twice, which panics in Go, and the closed-channel branch of the writer, which nothing reaches.
- `FirstChunkDetector`, context cancellation and write errors of the SSE forwarder.
- Holt-Winters forecasts, whose Go and Rust versions start from different states.
- The executor's `Stats`, `AddIntervention` and `ListPending`, which only report, and the engines that propose actions.
- HTTP, RPC and SQL text, the web UI, authentication, webhooks, the model catalogue and preset texts.
