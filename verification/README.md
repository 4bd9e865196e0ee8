# Technician: a verified model of the monitoring pipeline

Technician is a monitoring worker. Its probes are network code; behind them sits a stateful pipeline,
and that pipeline is what this project models: the status store with its circular histories, streak
counters, persistence, snapshot cache and three locks; the hand-written protobuf encoder of the
Prometheus remote-write exporter; the notification manager; the scheduler's goroutine and channel
protocol with its retry loop; the history writer's queue and batching protocol; the BGP novelty
baseline; budget thresholds; NTP arithmetic; and the worker's drain loop, which joins several of them.

`dafny verify dfyconfig.toml` checks the whole project.

## How it is organised

| file | what it holds |
|---|---|
| `Ring.dfy`, `SharedHistory.dfy` | the 90-slot circular buffer against "the last 90 of everything pushed", and when a history it handed out changes afterwards |
| `Keys.dfy`, `Streaks.dfy`, `Sorting.dfy`, `Seqs.dfy`, `FixedWidth.dfy`, `Check.dfy`, `Wrappers.dfy` | keys, trailing streaks, sorting, 64-bit wrap-around, check results |
| `StoreModel.dfy`, `StoreRuns.dfy`, `StoreResults.dfy`, `StoreReference.dfy`, `StoreRestarts.dfy` | the store's operations as values, every run of them against a reference that remembers everything, and what a restart from an overlapped save brings back |
| `Latencies.dfy`, `Snapshots.dfy`, `ComputeSnapshot.dfy`, `SnapshotRuns.dfy` | percentiles, the snapshot as a function of the state, the loops that build it, and what it shows after any run |
| `Store.dfy` | the store as mutable objects, each method proved to perform its step of `StoreModel` |
| `StoreLocks.dfy`, `StoreCalls.dfy` | the three locks and the cache under any number of threads, and what a finished call has done |
| `Wire.dfy`, `RemoteWrite.dfy` | protobuf wire format with a decoder, and the remote-write encoder |
| `Notify.dfy`, `Budget.dfy`, `Retry.dfy`, `Bgp.dfy`, `Worker.dfy`, `WebhookRuns.dfy`, `WorkerScenarios.dfy` | notifications, budgets, retries, BGP novelty, the drain loop across them, what a webhook hears in a process lifetime, and concrete runs |
| `Scheduler.dfy`, `SchedulerRuns.dfy`, `History.dfy` | the two concurrent protocols as step systems, and what the scheduler does for each check |
| `Ntp.dfy` | timestamp conversion, offset and round trip |

The main theorems, and what each is measured against:

- **The store forgets nothing that matters.** `StoreRuns.RunTracks` relates every run of pushes, budget
  checks, reconciles, overlapping three-part saves and restarts to a reference with unbounded
  histories. The histories shown, the down-since instant, the budget severities and the threshold
  crossings are then stated over the full history. `StoreRestarts.RestartIsConsistentIff` says exactly
  when a restart from an overlapped save brings back a state the store was in, and
  `SnapshotRuns.RestartIsInvisible` that then no later snapshot can tell the difference.
- **Snapshots are consistent, and exactly this fresh.** `StoreLocks` proves for every interleaving that
  a snapshot is the state of one instant, that no deadlock is possible, and that a finished mutation
  is reflected from then on if no older computation was pending when it wrote
  (`StoreCalls.FinishedMutationIsReflected`); from any state where one is, a stale answer can be constructed
  (`StaleIfOnePending`), and such a state is reached (`StaleAnswer`).
- **The encoder is a printer for a parser.** Decoding what was encoded gives back exactly the eligible
  series in order; hence the encoding is injective.
- **Events are a function of the streaks.** Down and up events, certificate events, cooldowns and
  budget events are each characterised by an if-and-only-if over whole streams.
- **The concurrent protocols conserve what they carry.** Scheduler results are consumed, buffered or
  dropped, nothing is sent on a closed channel, and shutdown completes under every schedule that does
  not stall, unless checks keep ticking forever; accepted history rows are flushed, batched or queued, in order.

## What the code does that one might not expect

- A BGP check whose only finding is a new more-specific prefix records the prefix before it fails, so
  the first retry succeeds: the run ends in success with one retry and the finding is never reported
  (`Bgp.NoveltyIsMaskedByRetry` gives the exact condition, `Bgp.LostAlert` a concrete table).
- The drain loop reports budget violations to the notifier only when a streak reaches three and never
  reports the recovery, so the notifier sends at most one budget event per check and metric for the
  lifetime of the process, although its comment speaks of newly violated metrics
  (`Worker.EveryCrossingAnnouncedIff`; `WorkerScenarios.SecondStreakIsSilent` is a concrete run).
- A snapshot computed before a mutation can be stored after the mutation has cleared the cache and is
  then served for up to two seconds (`StoreLocks.StaleIfOnePending`, `StoreLocks.StaleAnswer`).
  `Reconcile` does not clear the cache at all (`Store.Store.Reconcile`).
- A save reads rings and budgets under two locks, one after the other. When pushes carry new timestamps,
  what it brings back is a state the store was in during the save if and only if the budget states at the second read are those after some of the
  records that preceded the first push (`StoreRestarts.RestartIsConsistentIff`). That holds while
  checks that pass go on passing (`StoreRestarts.PassingOverlapIsConsistent`); `StoreRestarts.TornSave`
  shows a restart with a violation on record for a check that has no history.
- `ordered()` hands out the backing array whenever the oldest entry is in the first slot, and a save
  reads it after it has released the lock. Unless append has moved the ring to a larger array meanwhile
  (`SharedHistory.ReadLater`), such a history stays intact under pushes of other entries if and only if
  these do not wrap around (`SharedHistory.IntactIff`); one push onto a full ring puts the newest
  entry in front of all older ones (`SharedHistory.NewestFirst`).
- Budget state is keyed by check name and metric only, so checks of different types with one name share
  it. The flags counted are those of one check if and only if no result of another type with that name
  records a flag (`Worker.FlagsArePerCheckIff`); the streak counted is at every moment that of one
  check if and only if every flag of another type is a pass that arrives while the check's own streak is
  0 (`Worker.StreakIsPerCheckIff`). A check that violates its budget in every run can go unannounced
  forever (`WorkerScenarios.SharedNameHidesViolations`), and two checks can cross the threshold together
  without either having three violations in a row (`WorkerScenarios.SharedNameCrossesJointly`).
- A cooldown is per check name and event type, and every condition is announced once. So a webhook that
  is cooling down at that moment never hears of it: a second metric (`WebhookRuns.PairSentIff`), a
  certificate that turns critical soon after its warning (`WebhookRuns.CriticalSentIff`), an outage soon
  after another one of the same check or of a check with the same name (`WebhookRuns.OutageSentIff`).
  `WorkerScenarios` has a concrete run of each.
- internal/check/check.go:68 describes the NTP offset as positive when the local clock is ahead; the
  formula gives server minus local, so it is positive when the server is ahead. The model follows the
  formula. Seconds past the 2036 era rollover are converted wrongly (`Ntp.ConversionIsRightIff`).
- Two key claims hold under conditions that are stated exactly: a budget key splits back into its parts
  iff the metric has no colon, and `type:name` keys are injective iff no type extends another one past
  a colon. The program's own metrics and types meet both.

## Modelling choices

Times and durations are integers in nanoseconds, with 0 for Go's zero time; integer width is written
out where it matters (retry delays, NTP arithmetic, protobuf timestamps and values). Floats are reals,
except in the encoder, where a double is its 64-bit word. Clocks, network responses, cancellation and
commit failures are parameters of the steps. JSON is the identity. Reader-writer locks appear in a
permissive form for safety and in the strictest form for deadlock freedom; Go's lies between. In the
step systems an action that is not enabled leaves the state alone, so every list of actions is a run.

## Model

| member | source | states |
|---|---|---|
| `Ring.PushHolds` | internal/status/store.go:185-195 | a push turns a ring showing the last 90 of a history into one showing the last 90 of the history with the new entry, through growth, wrap-around and the reloaded layout |
| `Ring.RingShowsLastNinety` | internal/status/store.go:185-206 | however pushes and restarts interleave, the ordered view is exactly the last min(n, 90) entries pushed, oldest first |
| `Ring.ReloadIsInvisible` | internal/status/store.go:878-895 | a reloaded ring (head 0, not full) and one never restarted show the same after every further run |
| `Store.CheckRing.Push` | internal/status/store.go:185-195 | performs the push step and touches nothing else |
| `Store.CheckRing.Ordered` | internal/status/store.go:198-206 | returns the chronological view |
| `Store.CheckRing.Absorb` | internal/status/store.go:323-338 | group, target, down-since and history of an existing ring after a result |
| `Store.CheckRing.Persist` | internal/status/store.go:681-688 | the persisted form keeps the chronological list and the trackers |
| `SharedHistory.SliceRing.Append` | internal/status/store.go:186-190 | an append in place or into a larger array performs the push and never disturbs a history handed out before |
| `SharedHistory.SliceRing.Push` | internal/status/store.go:185-195 | over a backing array: the push, and what it leaves in the array the ring had before |
| `SharedHistory.SliceRing.Ordered` | internal/status/store.go:198-206 | the chronological view; it is the backing array itself iff the ring has not wrapped or its head is 0, otherwise a copy |
| `SharedHistory.SlotsAfter` | internal/status/store.go:185-195 | which slots of a ring laid out from its first slot further pushes fill and overwrite |
| `SharedHistory.IntactIff` | internal/status/store.go:185-206 | the slots handed out still hold their history after any number of pushes of other entries iff these do not wrap around |
| `SharedHistory.NewestFirst` | internal/status/store.go:185-206 | one push onto a full ring with head 0 puts the newest entry before all older ones |
| `SharedHistory.ReadLater` | internal/status/store.go:674-704 | what a save reads after releasing the lock: the history if it was copied or the ring has moved to another array, else the ring's present slots |
| `Keys.LastColon` | internal/status/store.go:237-243 | the index is the last colon, or -1 exactly when there is none |
| `Keys.BudgetKeySplits` | internal/status/store.go:237-243 | splitting at the last colon recovers the check name iff the metric has no colon, and then the metric too |
| `Keys.BudgetKeyInjective` | internal/status/store.go:353-354 | budget keys of colon-free metrics determine check and metric |
| `Keys.CheckKeyInjectiveIff` | internal/status/store.go:231-233 | type:name keys are injective over a set of types iff no type continues another one past a colon |
| `Keys.KnownTypeKeysInjective` | internal/config/checks.go:64-81 | the declared check types meet that condition |
| `Streaks.TrailingTrueIsMaximal` | internal/status/store.go:356-366 | the trailing streak is all true and cannot be extended to the left |
| `Streaks.StreakCountsRunPositions` | internal/status/store.go:356-366 | inside a run the streak counts positions from the start of the run |
| `StoreRuns.StepTracks` | internal/status/store.go:247-367 | every operation, save part and restart keeps store and full-history reference related |
| `StoreRuns.RunTracks` | internal/status/store.go:247-367 | after every run the store is the stated function of the full history |
| `StoreResults.OrderListsTheRings` | internal/status/store.go:317-338 | after every run the key list is duplicate-free, equals the ring keys, and no ring is empty |
| `StoreResults.HistoryIsLastNinety` | internal/status/store.go:198-206 | after every run a ring shows the last 90 results of the reference history of its key, in order; the reference is everything pushed, less what a reconcile dropped or a restart rolled back |
| `StoreResults.HistoryShowsResults` | internal/status/store.go:294-313 | the entries shown have the success, infrastructure flag, time, details and the duration in milliseconds of those results |
| `StoreReference.ReferenceIsEverythingPushed` | internal/status/store.go:314-338 | until a reconcile or restart the reference history of a key is the list of all results pushed under it |
| `StoreReference.ReferenceIsEverythingRecorded` | internal/status/store.go:345-367 | until then the reference flags of a check and metric are all flags recorded for the pair, if no metric has a colon |
| `StoreReference.HistoryIsLastNinetyPushed` | internal/status/store.go:198-206 | until then a ring exists iff something was pushed under its key and shows the last 90 of it |
| `StoreResults.DownSinceIsRunStart` | internal/status/store.go:331-336 | down-since is set only if a run of real failures ends the full history; it is the timestamp of the run's first result iff that is not the zero time or all times of the run are |
| `StoreResults.FailureRunIsMaximal` | internal/status/store.go:331-336 | that run is unbroken, reaches the latest result and cannot be extended; a success or an infrastructure error ends it |
| `StoreResults.DownSinceUnsetIff` | internal/status/store.go:331-336 | unset iff no result of the trailing run of real failures has a non-zero time, so in particular iff the run is empty when times are set |
| `StoreResults.SeverityIsStreak` | internal/status/store.go:493-498 | fail, warn or pass exactly as the streak over all recorded flags is at least 3, 1 or 2, or 0 |
| `StoreResults.CrossingIsThirdInARow` | internal/status/store.go:345-367 | a crossing is reported exactly where the streak over the full flag history becomes 3 |
| `StoreResults.OneCrossingPerStreak` | internal/status/store.go:365-366 | a maximal streak has its one crossing at its third flag |
| `StoreResults.ReconcileKeepsConfigured` | internal/status/store.go:247-268 | a ring survives Reconcile iff its type and name are configured (types meeting the key condition), and survives unchanged |
| `StoreResults.ReconcileKeepsBudgets` | internal/status/store.go:270-283 | a budget state survives iff some configured check has its name, streak unchanged |
| `StoreResults.PushTouchesOneRing` | internal/status/store.go:314-338 | a push leaves the ring of every other check as it was |
| `StoreRestarts.RestartJoinsTwoReads` | internal/status/store.go:674-720 | a restart from a save brings back the rings as they were at its first read and the budgets as they were at its second, whatever pushes, budget records and reconciles overlap or follow |
| `StoreRestarts.HistoriesAreConsistentIff` | internal/status/store.go:674-702 | over everything ever pushed and recorded: what comes back are the histories and flags of one moment of the save iff no push precedes a budget record between the reads |
| `StoreRestarts.RestartIsConsistentIff` | internal/status/store.go:674-702 | on the store itself, for drain operations with new timestamps between the reads: what comes back is a state the store was in during the save iff the budget states at the second read equal those after some of the records before the first push |
| `StoreRestarts.PassingOverlapIsConsistent` | cmd/worker.go:178-191 | if everything recorded between the reads is a pass of a pair that was passing, the restart brings back exactly the first read |
| `StoreRestarts.RecordChangesNothingIff` | internal/status/store.go:353-363 | a budget record changes nothing iff it passes a pair that is on record and passing |
| `StoreRestarts.SameStoreSameFuture` | internal/status/store.go:247-367 | stores with equal budgets, key lists and ring views stay so under all further pushes, budget checks and reconciles |
| `StoreRestarts.TornSave` | cmd/worker.go:178-191 | for any first result recorded between the reads, the restarted store has no ring and one violation, and that is no state it was in |
| `StoreRestarts.HistoriesDecideRings` | internal/status/store.go:674-909 | runs with the same reference histories have the same keys, order and ring views and differ at most in ring layout |
| `StoreRestarts.FlagsDecideBudgets` | internal/status/store.go:692-702 | runs with the same reference flags have equal budget states |
| `Store.Store.constructor` | internal/status/store.go:210-228 | a new store without a file is empty and has no cached snapshot |
| `Store.Store.Push` | internal/status/store.go:291-341 | performs the push step on the objects, keeps every ring its own object, clears the cache |
| `Store.Store.RecordBudgetCheck` | internal/status/store.go:345-367 | performs the budget step, clears the cache, returns whether the threshold was just crossed |
| `Store.Store.Reconcile` | internal/status/store.go:247-288 | performs the reconcile step and leaves the cached snapshot in place |
| `Store.Prune` | internal/status/store.go:258-268 | the loop keeps the active keys in order and collects exactly the others |
| `Store.PruneBudgets` | internal/status/store.go:272-283 | the loop keeps exactly the states of active names and of keys without a colon, in any iteration order |
| `Store.Store.SaveRings` | internal/status/store.go:674-690 | the persisted rings and key list, in any iteration order of the map |
| `Store.Store.Load` | internal/status/store.go:878-909 | a store loaded from any image holds its rings with reset layout, its key list and its budgets, each ring its own object; an image whose key list lists its rings gives a valid store |
| `Store.Store.InvalidateCache` | internal/status/store.go:390-394 | no snapshot stays cached |
| `Store.Store.Serve` | internal/status/store.go:371-388 | a cached snapshot is served only within 2 s of being stored; unless Reconcile ran since, what is served is the snapshot of the present state |
| `ComputeSnapshot.CollectChecks` | internal/status/store.go:413-446 | the loop yields every check's state in order, the three counts and the types seen |
| `ComputeSnapshot.CollectGroups` | internal/status/store.go:448-460 | group names in order of first appearance and each group's members in check order |
| `ComputeSnapshot.CollectBudgets` | internal/status/store.go:482-509 | for every name the sorted list of its metrics with severities, and the number of violated states, in any iteration order |
| `ComputeSnapshot.SortingForgetsOrder` | internal/status/store.go:504-509 | sorting by metric makes the list independent of the order in which the map was read |
| `ComputeSnapshot.Compute` | internal/status/store.go:396-535 | the loops compute the snapshot function of rings and budgets |
| `SnapshotRuns.StatusIsLatestResult` | internal/status/store.go:294-444 | after every run each check of the snapshot is up, in error or down exactly as its last result is a success, an infrastructure error or a real failure; it shows name, type, latest target, the fields of that result and those of its last 90 results |
| `SnapshotRuns.SummaryCountsResults` | internal/status/store.go:404-444 | the summary counts the checks whose last result is a success, a real failure and an infrastructure error |
| `SnapshotRuns.SummaryCountsBudgets` | internal/status/store.go:482-532 | it counts the budget pairs on record and those whose last flag was a violation |
| `SnapshotRuns.CountsCoverTotal` | internal/status/store.go:525-532 | after every run up + down + error = total |
| `SnapshotRuns.OverallMeaning` | internal/status/store.go:471-480 | overall is operational, down, degraded or pending exactly as some check is up, some is down, both or neither |
| `SnapshotRuns.GroupsPartitionChecks` | internal/status/store.go:448-460 | no two groups of the snapshot have the same name, and together they hold every check of the snapshot exactly once |
| `SnapshotRuns.GroupsKeepOrder` | internal/status/store.go:448-460 | a group of the snapshot lists exactly the checks of that group, in the order of the check list, with the same states |
| `SnapshotRuns.GroupsByFirstAppearance` | internal/status/store.go:448-460 | groups are listed in the order of their first check |
| `SnapshotRuns.TypesAreThoseSeen` | internal/status/store.go:462-469 | the type list has a known type once iff some check has it, and nothing else |
| `SnapshotRuns.BudgetListShowsStreaks` | internal/status/store.go:482-517 | after every run a metric is listed iff a flag was recorded, with the severity of its streak |
| `SnapshotRuns.RestartIsInvisible` | internal/status/store.go:674-909 | when that condition holds, after any further pushes, budget checks and reconciles the snapshot is that of a process that was in that state and never restarted |
| `Latencies.PercentileInterpolates` | internal/status/store.go:556-565 | on every closed segment between two ranks, both ends included, the percentile is the linear interpolation; no index is out of range |
| `Latencies.PercentileMonotone` | internal/status/store.go:556-565 | a larger p never gives a smaller percentile, across segment boundaries |
| `Latencies.PercentileBounds` | internal/status/store.go:556-565 | a percentile lies between the smallest and the largest value |
| `Latencies.LatencyMeaning` | internal/status/store.go:537-565 | latency is present iff two durations are eligible and holds their 50, 90, 95 and 99 percent quantiles by linear interpolation between closest ranks |
| `Latencies.ComputeLatency` | internal/status/store.go:537-554 | the loop and sort compute the latency function of the eligible durations |
| `Latencies.LatencyIsOrdered` | internal/status/store.go:537-554 | min <= P50 <= P90 <= P95 <= P99 <= max for two or more eligible entries |
| `Latencies.LatencyIgnoresOrder` | internal/status/store.go:537-554 | permuting the entries changes nothing |
| `StoreLocks.TasksAreDisciplined` | internal/status/store.go:255-398 | every nested acquisition goes up the order ring lock, budget lock, cache lock, and every lock is given back |
| `StoreLocks.NoDeadlock` | internal/status/store.go:255-398 | for any number of threads at any points of their operations, some thread can take its next step, even if waiting writers keep readers out |
| `StoreLocks.StepKeeps` | internal/status/store.go:255-398 | every interleaved step keeps exclusion and the relation of everything read, cached and served to the trace |
| `StoreLocks.RunKeeps` | internal/status/store.go:255-398 | so does every run |
| `StoreLocks.SnapshotsAreConsistent` | internal/status/store.go:371-535 | in every run each snapshot served is the ring and budget state of one instant, and a cached one is less than 2 s old |
| `StoreLocks.ImageReadsAreOrdered` | internal/status/store.go:674-702 | under any interleaving a saved image has its rings from one instant and its budgets from that or a later one |
| `StoreLocks.MutationIsReflected` | internal/status/store.go:340-398 | once the cache is cleared after a mutation, with no older computation still to take the cache lock, every snapshot served shows that mutation |
| `StoreCalls.FinishedMutationIsReflected` | internal/status/store.go:291-398 | a Push or RecordBudgetCheck that has begun and finished has written its view by one of its own steps; if no older computation was pending then, every snapshot served after the call has finished shows it |
| `StoreCalls.FinishedSnapshotIsServed` | internal/status/store.go:371-388 | a finished Snapshot call was handed one snapshot: the cached one, less than 2 s old, or one no older than the start of the call |
| `StoreCalls.FinishedSaveHasImage` | internal/status/store.go:674-702 | a finished Save has one image, read no earlier than it began |
| `StoreCalls.ClockRuns` | internal/status/store.go:373-385 | the clock shows the time that has passed, whatever the threads do |
| `StoreCalls.CacheExpires` | internal/status/store.go:373-373 | a snapshot cached two seconds ago is no longer served |
| `StoreLocks.StaleIfOnePending` | internal/status/store.go:371-388 | if an older computation is still to take it, a continuation exists in which all calls finish and a later call is served a stale snapshot |
| `StoreLocks.StaleAnswer` | internal/status/store.go:371-388 | from the initial state of two threads: one Push, two Snapshot calls, and the call made after the Push is served the view from before it |
| `Wire.VarintRoundTrip` | internal/remotewrite/remotewrite.go:229-236 | reading a 64-bit varint in front of any bytes returns the value and its length |
| `Wire.FieldRoundTrip` | internal/remotewrite/remotewrite.go:220-236 | reading a tagged varint, fixed64 or length-delimited field returns the field and its length |
| `Wire.MessageRoundTrip` | internal/remotewrite/remotewrite_test.go:138-157 | parsing a list of encoded fields returns the list |
| `RemoteWrite.EncodeTimeSeries` | internal/remotewrite/remotewrite.go:199-218 | the bytes are the encoding of the series with `__name__`, the labels sorted by name, and one sample |
| `RemoteWrite.AppendFamily` | internal/remotewrite/remotewrite.go:170-179 | a matching family appends one series per metric of a scalar family, in order |
| `RemoteWrite.EncodeWriteRequest` | internal/remotewrite/remotewrite.go:163-184 | nil iff there is nothing to send; otherwise a receiver reads from the bytes, in order, one series per metric of each family with the prefix and a scalar type |
| `RemoteWrite.RequestCarriesMetrics` | internal/remotewrite/remotewrite.go:163-236 | each series read has the family's name and the metric's labels, sorted, and one sample with the given time and the word of the gauge, counter or untyped value as the type says, 0 when absent |
| `RemoteWrite.SeriesLabels` | internal/remotewrite/remotewrite.go:199-208 | the labels are sorted and are exactly `__name__` and the metric's labels |
| `RemoteWrite.SortOrderIsForced` | internal/remotewrite/remotewrite.go:208-208 | with distinct label names every sorting algorithm gives this order |
| `RemoteWrite.SeriesRoundTrip` | internal/remotewrite/remotewrite_test.go:159-216 | decoding a series returns its labels in order, its 64-bit value and its signed timestamp |
| `RemoteWrite.RequestRoundTrip` | internal/remotewrite/remotewrite_test.go:137-216 | decoding a request returns exactly the series encoded |
| `RemoteWrite.EncodeRequestInjective` | internal/remotewrite/remotewrite.go:163-184 | two different lists of series never have the same bytes |
| `RemoteWrite.EncodingIsHomomorphic` | internal/remotewrite/remotewrite.go:163-184 | encoding a concatenation of family lists concatenates the encodings |
| `RemoteWrite.NothingToSendIff` | internal/remotewrite/remotewrite.go:163-197 | nothing is eligible iff no family has the prefix, a scalar type and a metric |
| `Notify.NotifiedDownIffThree` | internal/notify/notify.go:143-213 | after every stream a check is marked down iff its counter is at least 3, and the counter is its trailing failure run after the baseline |
| `Notify.DispatchIsDebounced` | internal/notify/notify.go:143-213 | check_down exactly where the counted failure run becomes 3, check_up exactly at the success that ends a run of 3 or more, otherwise nothing |
| `Notify.EventsAlternate` | internal/notify/notify.go:143-213 | a check's events alternate beginning with down, and their parity says whether it is marked down |
| `Notify.CertEventsOnTransition` | internal/notify/notify.go:246-295 | a certificate event fires exactly when the severity differs from that of the previous result with certificate data and is not healthy |
| `Notify.CertSeverityByFields` | internal/check/check.go:159-173 | critical and warning by the days remaining against the configured numbers, 7 and 30 unless positive, and when a result carries certificate data |
| `Notify.BudgetEventsOnTransition` | internal/notify/notify.go:217-240 | a budget event is dispatched exactly when the call says violated and the previous call for the same key did not |
| `Notify.CooldownKeyInjective` | internal/notify/notify.go:317-317 | different webhooks, check names or event types never share a cooldown, whatever colons a name has; checks of different types with one name do |
| `Notify.StampedAt` | internal/notify/notify.go:306-323 | a dispatch renews exactly the send times of the webhooks that got it, for its check and type only |
| `Notify.SentToIsExact` | internal/notify/notify.go:306-323 | the event goes to exactly the webhooks that accept it and are not cooling down, in order |
| `Notify.CooldownIsExact` | internal/notify/notify.go:306-323 | over any log, a dispatch reaches a webhook iff it accepts it and got nothing about the same check and type within the cooldown |
| `Notify.ConfiguredAccepts` | internal/notify/notify.go:97-133 | a configured webhook accepts an event by the names listed, an empty list meaning all, an event without severity passes the severity filter, and the cooldown is the configured one or five minutes |
| `Notify.ConfigureAll` | internal/notify/notify.go:97-133 | one webhook per configuration, in order, with the defaults of five minutes, all events and all severities |
| `WebhookRuns.CriticalSentIff` | internal/notify/notify.go:246-323 | from a certificate turning critical on, while it stays so, a webhook is ever sent an event about it iff it accepts the one event of the change and got no certificate event of that name within the cooldown before |
| `WebhookRuns.CriticalIsLost` | internal/notify/notify.go:246-323 | so after a certificate event sent within the cooldown it is never sent |
| `WebhookRuns.OutageSentIff` | internal/notify/notify.go:143-323 | an outage that lasts is ever sent to a webhook iff it accepts the one check_down and got no check_down of that name within the cooldown before |
| `WebhookRuns.OutageIsLost` | internal/notify/notify.go:143-323 | so after a check_down of the name sent within the cooldown it is never sent |
| `WebhookRuns.NotBothOutages` | internal/notify/notify.go:317-321 | of two outages under one name that begin at one instant a webhook with a cooldown hears of at most one |
| `WorkerScenarios.EscalationIsLost` | internal/notify/notify.go:246-323 | a warning and then a critical result: the warning is sent, and nothing about the certificate while it stays critical |
| `WorkerScenarios.OneOfTwoOutagesIsLost` | internal/notify/notify.go:143-323 | a concrete run in which two checks of one name go down and at most one outage is sent |
| `Notify.Manager.constructor` | internal/notify/notify.go:80-137 | a new manager has the configured webhooks and remembers nothing |
| `Notify.Manager.HandleResult` | internal/notify/notify.go:143-213 | performs the check step and dispatches its event, if any |
| `Notify.Manager.HandleBudgetViolation` | internal/notify/notify.go:217-240 | performs the budget step and dispatches its event, if any |
| `Notify.Manager.HandleCertResult` | internal/notify/notify.go:246-295 | performs the certificate step and dispatches its event, if any |
| `Notify.Manager.Offer` | internal/notify/notify.go:308-323 | filter, severity filter and cooldown for one webhook |
| `Notify.Manager.Dispatch` | internal/notify/notify.go:306-340 | the loop offers the event to every webhook, and earlier offers do not influence later ones |
| `Budget.MergeEntry` | internal/budget/budget.go:106-109 | an entry overrides its own metrics and no others, in any iteration order of its map |
| `Budget.MergeThresholds` | internal/budget/budget.go:100-119 | both passes together give, per metric, the last named threshold, else the last starred one, with the inherited flag |
| `Budget.Report` | internal/budget/budget.go:122-135 | one result per metric that has a threshold and a measurement, strictly sorted |
| `Budget.EvaluateAll` | internal/budget/budget.go:97-138 | computes the evaluation |
| `Budget.EvaluationMeaning` | internal/budget/budget.go:97-138 | the evaluation is strictly sorted, covers a metric iff it is measured and has a threshold, and each result has the applied threshold, the actual value, the inherited flag and the right verdict |
| `Budget.EvaluationByFields` | internal/budget/budget.go:97-173 | in the result's own fields: a value is reported for a metric iff the field that belongs to the metric has it, the result is of the kind that measures it, and a threshold applies |
| `Budget.OneFieldOneMetric` | internal/budget/budget.go:140-173 | changing one measured field changes the report of its own metric and no other |
| `Budget.EvaluationIsUnique` | internal/budget/budget.go:97-138 | those properties determine the result list, so no iteration order can matter |
| `Budget.Evaluate` | internal/budget/budget.go:74-88 | the violations are the violated subsequence of the evaluation |
| `Budget.AddingEntryKeepsCoverage` | internal/budget/budget.go:90-97 | inserting an entry anywhere never removes a covered metric |
| `Budget.NamedEntryOverridesPerMetric` | internal/budget/budget.go:90-97 | a named entry overrides metric by metric and keeps the other defaults |
| `Budget.MeasuredMetricsAreColonFree` | internal/budget/budget.go:140-173 | no measured metric has a colon |
| `Sorting.SortedElements` | internal/budget/budget.go:122-122 | the sorted listing of a set of strings |
| `Sorting.LessMeaning` | internal/remotewrite/remotewrite.go:208-208 | the order of strings: a proper prefix first, otherwise by the first byte that differs |
| `Retry.RunWithRetry` | internal/scheduler/scheduler.go:201-237 | at most 1 + Count calls, stop at the first success or cancellation, the last result with the number of retries, and the waits made |
| `Retry.RetryRunIsDetermined` | internal/scheduler/scheduler.go:201-237 | the contract of the loop determines result, calls and waits |
| `Retry.DelayIsWrappedIdeal` | internal/scheduler/scheduler.go:206-234 | the k-th delay is d·2^(k-1), d + (k-1)·delay or d, reduced to 64 bits |
| `Retry.NoOverflowIff` | internal/scheduler/scheduler.go:228-234 | the first n delays are all exact iff the n-th ideal delay fits in 64 bits |
| `Retry.TotalDelayClosedForm` | internal/scheduler/scheduler.go:206-234 | closed forms of the sum of the first n ideal delays for the three backoffs |
| `Retry.WaitsAddUp` | internal/scheduler/scheduler.go:206-234 | the waits of every run add up to that closed form if the last one fits in 64 bits |
| `Bgp.BGPChecker.ObserveMoreSpecifics` | internal/check/bgp.go:82-102 | returns the prefixes absent from the baseline and replaces the baseline |
| `Bgp.BGPChecker.Run` | internal/check/bgp.go:155-259 | verdict, visibility and origin fields of a query; a failed query leaves the baseline alone |
| `Bgp.ScanMoreSpecifics` | internal/check/bgp.go:174-181 | the prefixes in order and exactly those with an unexpected origin |
| `Bgp.ScanOrigins` | internal/check/bgp.go:229-234 | exactly the unexpected origins, in order |
| `Bgp.NewIffAbsentFromPrevious` | internal/check/bgp.go:82-102 | over any queries of any checks, a prefix is new iff it is in this query, was absent from the previous completed one of this check, and there was one |
| `Bgp.VerdictMeaning` | internal/check/bgp.go:163-259 | which verdict, visibility and origin fields a completed query gives, each by an if-and-only-if over the response and the previous completed one, and which announcements, prefixes or origins it lists, with the precedence rogue, new, wrong origin, RPKI |
| `Bgp.NoveltyIsMaskedByRetry` | internal/check/bgp.go:182-216 | composed with the retry loop, a run whose only finding is novelty succeeds with one retry iff a retry is allowed and not cancelled |
| `Bgp.OnlyNovelIff` | internal/check/bgp.go:182-232 | novelty is the only finding iff some prefix is absent from the previous completed query and every origin is expected |
| `Bgp.LostAlert` | internal/check/bgp.go:182-216 | a concrete table: after one quiet query a new more-specific from the expected origin fails the first call, and the published result is a success with one retry |
| `Scheduler.StepKeeps` | internal/scheduler/scheduler.go:65-192 | every step keeps the WaitGroup equal to the live goroutines and the close protocol in order |
| `Scheduler.NeverPanics` | internal/scheduler/scheduler.go:98-163 | in every run nothing is sent on the closed channel, it is closed at most once, and only after every goroutine has exited |
| `Scheduler.ResultsAreConserved` | internal/scheduler/scheduler.go:147-163 | produced = consumed + buffered (at most 100) + dropped, and consumption is in sending order |
| `Scheduler.NoOverlappingRuns` | internal/scheduler/scheduler.go:112-192 | a check has at most one scheduled and one startup execution in flight |
| `Scheduler.ShutdownCanComplete` | internal/scheduler/scheduler.go:98-103 | after cancellation every reachable state has a continuation that closes the channel |
| `Scheduler.ShutdownCompletes` | internal/scheduler/scheduler.go:98-163 | under every schedule only boundedly many steps towards shutdown can be taken, two more per further tick, after which the channel is closed; while it is open such a step is possible |
| `SchedulerRuns.StartedChecksHaveGoroutines` | internal/scheduler/scheduler.go:65-192 | in every run in which Start has returned, a check has exactly one loop iff it has a checker and a valid schedule, and exactly one startup run iff it has a checker |
| `SchedulerRuns.ExecutionFollowsStagger` | internal/scheduler/scheduler.go:112-192 | a check with a stagger delay begins to execute only when the delay has elapsed, one without at its tick or start |
| `SchedulerRuns.WhyGoroutinesEnd` | internal/scheduler/scheduler.go:112-192 | a loop ends only for lack of a next time or by cancellation, a startup run also by publishing |
| `SchedulerRuns.StartupRunsOnce` | internal/scheduler/scheduler.go:170-192 | a startup run publishes at most one result |
| `SchedulerRuns.LoopGoesOn` | internal/scheduler/scheduler.go:112-163 | in every run a waiting loop can execute again: the result is produced and the loop waits again |
| `SchedulerRuns.LoopEnds` | internal/scheduler/scheduler.go:112-127 | a waiting loop ends on a failed schedule and after cancellation, and leaves the group |
| `SchedulerRuns.DroppedIffFull` | internal/scheduler/scheduler.go:158-162 | in every run a published result is dropped exactly when 100 are buffered and is otherwise the newest in the channel |
| `SchedulerRuns.ConsumesOldest` | cmd/worker.go:178-178 | the drain loop takes the oldest buffered result |
| `SchedulerRuns.CancelLeadsToClose` | internal/scheduler/scheduler.go:97-103 | however a run has gone, cancellation can be followed by closing the channel |
| `History.StepKeeps` | internal/history/history.go:86-170 | every step keeps accepted = flushed ++ batch ++ queue and the rows in agreement with the commits |
| `History.AcceptedIsAccountedFor` | internal/history/history.go:86-135 | in every run accepted results are the flushed batches, the current batch and the queue, in order; no infrastructure error is accepted and the bounds hold |
| `History.TakenIffRoom` | internal/history/history.go:86-95 | in every run a recorded result is taken exactly when it is no infrastructure error and fewer than 1024 are queued |
| `History.ShutdownFlushesEverythingBeforeClose` | internal/history/history.go:121-190 | when the writer has stopped, everything accepted before Close began has been flushed, in order |
| `History.CleanShutdownPersistsAll` | internal/history/history.go:121-190 | with no later Record, no failed flush and no pruning the rows are exactly the accepted results, once and in order |
| `History.RetentionIsExact` | internal/history/history.go:163-170 | rows at or after the newest cutoff are exactly the committed ones, in order, and no row was not committed |
| `History.RecentMeaning` | internal/history/history.go:163-170 | a prune keeps exactly the rows whose time in milliseconds is at or after the cutoff |
| `History.RowsSurviveUntilPruned` | internal/history/history.go:163-170 | of the rows present at any point exactly those not older than any later cutoff are still there, in order, before those committed since |
| `History.NoInfraErrorPersisted` | internal/history/history.go:86-95 | no row is an infrastructure error |
| `History.DrainedMeaning` | internal/history/history.go:122-133 | with nobody recording, the final drain leaves batch and queue empty and everything accepted flushed |
| `History.DrainedIsRun` | internal/history/history.go:122-133 | and that is what its single steps do |
| `History.CloseLeadsToStop` | internal/history/history.go:120-190 | however a run has gone, after Close has begun the writer can stop with everything flushed |
| `History.Store.Enqueue` | internal/history/history.go:86-95 | performs the record step: nil and infrastructure errors ignored, dropped when the queue is full |
| `History.Store.OnReceive` | internal/history/history.go:107-112 | one result moves to the batch, which is flushed at its limit |
| `History.Store.OnFlushTick` | internal/history/history.go:113-117 | a tick flushes a non-empty batch |
| `History.Store.FlushNow` | internal/history/history.go:137-161 | a flush commits the whole batch or none of it |
| `History.Store.FinalDrain` | internal/history/history.go:120-133 | whatever others record between its rounds, the loop is a run of drain steps that ends with the last flush |
| `Worker.Drain` | cmd/worker.go:178-191 | one result: pushed into the store, shown to the notifier, its budgets recorded; the events in order |
| `Worker.Notice` | cmd/worker.go:182-191 | the notifier and budget part of it |
| `Worker.DrainBudgets` | cmd/worker.go:185-191 | the loop records every flag and announces crossings only |
| `Worker.FlagMeaning` | cmd/worker.go:184-187 | a result records for a check and metric one flag, actual above applied threshold, iff it is no infrastructure error, has that name, measures the metric and a threshold applies |
| `Worker.FlagByFields` | cmd/worker.go:184-187 | the flag of a pair by the field that measures the metric |
| `Worker.StreakSpansRestart` | internal/status/store.go:356-360 | continuing from the stored count is the streak over the flags before and after a restart |
| `Worker.OneBudgetEventPerProcess` | internal/notify/notify.go:217-240 | in every process lifetime a check and metric have one budget event if any crossing occurs, else none |
| `Worker.EveryCrossingAnnouncedIff` | cmd/worker.go:184-191 | every crossing is announced iff there is at most one |
| `WorkerScenarios.SecondStreakIsSilent` | cmd/worker.go:184-191 | a concrete run with two crossings and one event |
| `Worker.FlagsArePerCheckIff` | internal/status/store.go:353-363 | the flags counted for a name and metric are those of one check type iff no result of another type with that name records a flag for the metric |
| `Worker.StreakIsPerCheckIff` | internal/status/store.go:353-363 | the streak counted equals the check's own at every moment iff every flag of another type under the name is a pass that arrives while the check's own streak is 0 |
| `Worker.UniqueNameCrossesOnItsOwn` | internal/status/store.go:353-366 | if one type alone uses the name, the threshold is crossed exactly where that check's own violations make three in a row |
| `WorkerScenarios.SharedNameHidesViolations` | internal/status/store.go:229-233 | for every n: a check violating in all of n runs, taking turns with a namesake that does not, never crosses and is never announced |
| `WorkerScenarios.SharedNameCrossesJointly` | internal/status/store.go:229-233 | a run where two namesakes cross although neither violates three times in a row |
| `WebhookRuns.LogGivesSendTimes` | internal/notify/notify.go:306-323 | the send times the drain loop leaves behind are those of the log of all events dispatched |
| `WebhookRuns.PairSentIff` | internal/notify/notify.go:306-323 | in a process lifetime a webhook is ever sent an announced check and metric iff it accepts the event and got no budget event of that check within the cooldown before |
| `WebhookRuns.SecondMetricIsLost` | internal/notify/notify.go:317-321 | a metric announced within the cooldown of another metric of the check that was sent is never sent |
| `WebhookRuns.NotBothSent` | internal/notify/notify.go:317-321 | of two metrics of a check announced at one instant a webhook with a cooldown is ever sent at most one |
| `WorkerScenarios.OneOfTwoMetricsIsLost` | cmd/worker.go:184-191 | a concrete run in which that happens |
| `Ntp.ConversionIsSound` | internal/check/ntp.go:38-42 | the product fits in 64 bits, the nanoseconds lie in [0, 10^9), and the result is the exact time rounded down |
| `Ntp.EpochsAreSeventyYearsApart` | internal/check/ntp.go:17-17 | the epoch offset is seventy years with seventeen leap days |
| `Ntp.ConversionIsMonotone` | internal/check/ntp.go:38-42 | later timestamps convert to later or equal times |
| `Ntp.ConversionIsRightIff` | internal/check/ntp.go:38-42 | the 32-bit seconds convert to the right time iff the true seconds are before the era rollover |
| `Ntp.SubSaturates` | internal/check/ntp.go:147-150 | a difference of times is exact if representable and otherwise the nearest duration |
| `Ntp.NoOverflow` | internal/check/ntp.go:147-150 | neither formula saturates or wraps when all its differences and sums fit in 64 bits |
| `Ntp.NearEraIsRepresentable` | internal/check/ntp.go:147-150 | they do, for any server timestamps, while the local clock is at most ten years outside the era that ends in 2036 |
| `Ntp.OffsetWithinHalfRoundTrip` | internal/check/ntp.go:143-150 | with non-negative path delays and no overflow the offset is within half the round trip of the true server-minus-local offset, up to rounding (section 8 of RFC 5905) |
| `Ntp.SymmetricPathIsExact` | internal/check/ntp.go:143-150 | with equal path delays and no overflow it is exact up to rounding |

## Left out

- Store.Store.Load: for a file whose key list names a ring it does not hold, the source goes on and fails when it computes a snapshot; the model stops at the loaded fields.
- StoreRestarts.RestartIsConsistentIff: the operations between the reads are pushes and budget records; Reconcile, which runs once before saves begin, is not among them. It assumes that no push repeats the timestamp of its ring's newest entry; without that, 90 equal entries could hide a push, and only the direction in StoreRestarts.SameStoreBefore holds.
- StoreRestarts.RestartJoinsTwoReads: treats the histories a save takes as values, see the line on slices.
- Worker.Drain: one clock reading serves all dispatches of a result, where the source reads the clock at each.
- Scheduler.ShutdownCompletes: a check that keeps ticking after cancellation forever would keep the channel open; the source's select makes that improbable and the model has no probabilities.
- Ntp.OffsetWithinHalfRoundTrip: says nothing once a duration overflows 64 bits, where the computed offset is meaningless.
- RemoteWrite.RequestRoundTrip: assumes fewer than 2^63 bytes, which any memory meets; the decoder keeps labels as a list where the one in the source's test builds a map, and treats protobuf groups as malformed.
- RemoteWrite.SortOrderIsForced: assumes distinct label names, as Prometheus guarantees; with repeated names `sort.Slice` may order equal names either way and the model uses a stable order.
- Budget.EvaluationMeaning: for a check literally named `*` the inherited flag is false, as in the code, because the second pass matches the same entries.
- Slices are values in the store model and its snapshots; `SharedHistory` covers what sharing does to one ring's history, and is not joined with saves and restarts.
- Network probes of every kind, the RPKI query and certificate inspection: they are inputs.
- JSON, YAML, cron expressions, snappy, SigV4, SQLite and OTLP: identities, atomic steps or inputs.
- Backups, temporary files and renames, and the write-failure counter; a restart may use any image ever committed.
- Uptime percentages, timing breakdowns, down-since and updated-at texts, service and origin in the snapshot, and error and event texts.
- The recorder call inside Push, metrics, tracing and logging in the drain loop, and the notifier's nil receiver when no webhook is configured.
- Delivery of webhooks: send goroutines, their semaphore, timeout and retry. Claims are about dispatched events.
- Float rounding and NaN; percentiles and thresholds are over reals.
- Configuration loading, check filters, stagger hashing, the status page, reporters, commands and payload formats: they hold no state that outlives a call.
- The uptime query of the history store: it counts rows in SQL, and the rows are what the model is about.
