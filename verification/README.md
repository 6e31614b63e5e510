# FeatBit Rust server SDK: verified model

A Dafny model of the parts of the FeatBit server-side SDK where correctness is not visible from one function body:
the versioned snapshot store and its prepared index, flag evaluation through that index, percentage rollout, the
data synchronizer and its readiness monitor, the event worker with its bounded channel and its lock-free admission
control, the variation methods of the client, the connection token, and the release planner of `scripts/release.py`.

`dafny verify dfyconfig.toml` checks everything.

## How it is organised

| file | models | main results |
|---|---|---|
| Model, Wrappers | wire data; text facilities of other crates as unknown functions | |
| Meaning | what flags, rules, segments and rollouts mean, on the data alone | these meanings are functional |
| Prepared, Operators, Segments, Evaluator | `src/prepared.rs`, `src/evaluation/*` | in every reachable store the index never changes a result; every result is the variation that the one governing clause names |
| Dispatch | `src/evaluation/dispatch.rs`, `select_rollout` | what a partition selects; when growing a bucket is sticky |
| Versioned, Store, StoreRuns | `src/store.rs` | store invariants; what each message leaves under each key; patches are a last-writer-wins join; what a conflict means |
| Protocol, Connection, SyncRuns, SyncData | `src/data_sync/connection.rs`, `apply_message` | the full-sync obligation over every run; readiness; the store is what the messages of the run make of it; what ends a connection and a run; backoff over every run |
| Backoff, Token, Decimal, Arithmetic | `src/data_sync/protocol.rs` | delay bounds, a full cycle of delays; token round trip |
| Status, StatusMonitor | `src/data_sync/status.rs` | no lost wake-ups |
| Worker, WorkerRuns, Channel | `src/events/worker.rs`, the channel of `src/events.rs` | conservation in order; the exact meaning of a flush reply, for the worker and for the whole system; which shutdown leaves at once and which lets it drain |
| Capacity | `EventCapacity`, `EventAdmission` | both counters are exact under any interleaving |
| ClientEvaluation | `src/client/evaluation.rs`, `EventProcessor::record` | the three ways to evaluate return the conversion of the variation served, or the default; when an event is taken |
| ClientRuns | calls, flushes, dequeues and closes in any order | the queue is FIFO and holds exactly the events of the calls that counted; what the observer hears; nothing counts after a close or a fatal delivery |
| Lexicographic, SemVer, Release | `scripts/release.py` | SemVer precedence is a strict total order; parse and str undo each other; what a plan guarantees |

Code that changes state step by step is a class or a method with loops, proved equal to a specification function
(`Populated`, `React`, `Processed`, `Evaluated`, ...); the theorems are about those functions and their runs. Lemmas
named `...Meaning` tie such a function to the data and the fields of the state, without naming it on the other side. The
environment (socket, server, clock, random numbers, scheduling) is an input that may do anything. A run is a finite
list of such inputs, so a statement about all runs is one about every moment of an endless execution.

## Where code and documentation differ

The documentation of `FbClient::initialized` (`src/client.rs:182-186`) promises "whether at least one valid data set
has been published". The code sets the flag only with status Ready: a first patch that conflicts with itself
publishes data and leaves the client uninitialized (`SyncRuns.PublishedButNotInitialized`). What holds is that the
client is initialized exactly when a full message or an unconflicted patch has been applied (`SyncRuns.EveryRunIsSound`).

Growing a leading rollout bucket can evict a user when a bucket ends strictly between 1 - 1e-5 and 1 behind empty
buckets (`Dispatch.StickinessCanFail`); `Dispatch.GrowingBucketsIsSticky` gives the exact condition.

A split point of 1000 or more does not fit its three digits and is not recovered from the token (`Token.TokenRoundTrip`, which is exact).

## Model

| member | source | states |
|---|---|---|
| Model.FindVariation | src/model.rs:157-159 | some variation exactly when the id occurs, and then the first one that has it |
| Prepared.FindTarget | src/evaluation/evaluator.rs:44-51 | the variation of the first target that lists the user; none exactly when no target does |
| Prepared.IndexVariations | src/prepared.rs:26-31 | the index holds exactly the first position of every variation id, duplicates included |
| Prepared.IndexTargets | src/prepared.rs:33-45 | the index holds a user exactly when some target lists the user, with the first such target's variation |
| Prepared.NewPreparedFlag | src/prepared.rs:24-52 | the loops compute the preparation that the agreement theorems are about |
| Prepared.LookupsAgree | src/prepared.rs:54-64 | both indexed lookups answer as first-wins scans of the raw flag do |
| Operators.PreparedConditionAgrees | src/evaluation/operators.rs:6-119 | a condition's own prepared operand never changes its verdict, also when it is of a kind its operator does not use, invalid or non-finite |
| Operators.OperatorMeaning | src/evaluation/operators.rs:15-123 | each operator holds exactly when the values it compares are related as its name says; operands that cannot be read satisfy none |
| Operators.OppositesDisagreeOnGoodDataOnly | src/evaluation/operators.rs:15-52 | an operator and its opposite disagree when the operands can be read, and otherwise neither matches |
| Segments.MatchSegmentIdsMeaning | src/evaluation/segments.rs:78-101 | matched exactly when a listed segment holds the user and it and all before it exist and are not archived; a non-match exactly when all exist, none is archived and none holds the user; otherwise neither |
| Segments.InSegmentAgrees | src/evaluation/segments.rs:103-131 | membership of a segment is the same with and without its prepared form |
| Segments.SegmentIdsAgree | src/evaluation/segments.rs:78-101 | the three-valued answer for a list of segments is the same with and without the index |
| Segments.RuleAgrees | src/evaluation/segments.rs:17-49 | a targeting rule matches the same users with its prepared form, without it, and with no index at all |
| Segments.MembershipMeaning | src/evaluation/segments.rs:103-131 | through the index too, a user is in a segment exactly if not excluded, and included or covered by a rule whose conditions all hold |
| Segments.SegmentListMeaning | src/evaluation/segments.rs:78-101 | the three-valued answer for a list, index or not, in terms of the stored segments and who is in them |
| Meaning.DanglingSatisfiesNeither | src/evaluation/segments.rs:51-101 | no list satisfies both the positive and the negative condition, and one with a missing or archived id before every segment that holds the user satisfies neither |
| Segments.TargetConditionMeaning | src/evaluation/segments.rs:17-76 | a segment condition holds exactly if its list can be read and a listed segment holds the user, or none does, every one that counts being there and not archived; null counts as empty; other conditions mean what their operator means |
| Segments.RuleMeaning | src/evaluation/segments.rs:17-49 | with its prepared form or without, a rule holds for exactly the users for whom all its conditions hold, stated on the stored segments and operators alone |
| Segments.DanglingReferenceMatchesNothing | src/evaluation/segments.rs:51-101 | with the index and without it, a list in which a missing or archived segment comes before every segment that holds the user satisfies neither the positive nor the negative condition |
| Evaluator.PreparedEvaluationAgrees | src/evaluation/evaluator.rs:13-133 | for any sound index, complete or not: same variation, reason, split and error as with no index |
| Evaluator.ReachableStoresEvaluateAsRaw | src/evaluation/evaluator.rs:13-30 | the same for the store reached by any sequence of full and patch messages, any flag key and any user |
| Evaluator.FirstRule | src/evaluation/evaluator.rs:58-62 | the first rule that matches, if any does |
| Evaluator.OneClauseGoverns | src/evaluation/evaluator.rs:32-91 | off, first target, first matching rule, fallthrough: exactly one governs, whatever the data |
| Evaluator.EvaluationFollowsTheClause | src/evaluation/evaluator.rs:32-116 | the result is the first variation with the id that the governing clause names, with that clause's reason; malformed exactly when it names none or an id that no variation has |
| Evaluator.DispatchKeyMeaning | src/evaluation/evaluator.rs:118-123 | the hashed key is the flag's key followed by the named property's value, or by the user's key if no property is named or its name is blank |
| Evaluator.DispatchMeaning | src/evaluation/evaluator.rs:64-91 | the id chosen is that of the first rollout whose range covers the user's hash; none if no range does |
| Evaluator.ServedIsEvaluated | src/evaluation/evaluator.rs:13-116 | what a flag serves, by its data alone, is what its evaluation yields, so it serves one variation at most |
| Evaluator.EvaluationMeaning | src/evaluation/evaluator.rs:13-116 | for every call: no key, no flag or an archived one, a flag that serves nothing, or exactly the variation it serves with the flag's own id, type and insights setting |
| Dispatch.RolloutOfKey | src/evaluation/dispatch.rs:5-15 | lies between 0 and 1 |
| Dispatch.RolloutMatcher.constructor | src/evaluation/dispatch.rs:24-32 | starts with nothing cached |
| Dispatch.RolloutMatcher.Matches | src/evaluation/dispatch.rs:34-49 | agrees with the predicate that does not cache, and hashes only when no shortcut decides |
| Dispatch.RolloutMatcher.Value | src/evaluation/dispatch.rs:51-62 | the rollout value of the matcher's key, cached from then on |
| Dispatch.Selected | src/evaluation/evaluator.rs:125-133 | the first range that matches, if any does |
| Dispatch.SelectRollout | src/evaluation/evaluator.rs:125-133 | the first matching range; at most one hash, and one exactly when a visited range depends on it |
| Dispatch.NoSplitIgnoresTheKey | src/evaluation/dispatch.rs:70-77 | without a percentage split the choice is the same for every key and needs no hash |
| Dispatch.RolloutMeaning | src/evaluation/dispatch.rs:5-15 | the rollout value is the hash as a part of 2^31 without its sign, and nothing else is |
| Dispatch.SplitMeaning | src/evaluation/dispatch.rs:70-77 | a split is more than one rollout, or a single one that does not hold everybody |
| Dispatch.SelectedMeaning | src/evaluation/evaluator.rs:125-133 | the range selected is the first that covers the value, ends included, with the two shortcuts; none exactly if none does |
| Dispatch.PartitionSelects | src/evaluation/dispatch.rs:34-49 | contiguous ranges from 0 to 1 always select, and exactly the least range that the value has not passed or that the shortcut gives to everybody |
| Dispatch.GrowingBucketsIsSticky | src/evaluation/evaluator.rs:125-133 | raising bounds moves no value to a later bucket if and only if a shortcut bucket that ends below 1 stays covered |
| Dispatch.OrdinaryBoundsAreSticky | src/evaluation/evaluator.rs:125-133 | with no bound strictly between 1 - 1e-5 and 1 no key is ever moved to a later bucket |
| Dispatch.StickinessCanFail | src/evaluation/dispatch.rs:41-43 | two partitions for which it does |
| Versioned.OverlayIsLast | src/store.rs:65-82 | a full message leaves each key with the last object that carries it, and no other keys |
| Versioned.MergeKeepsTheLatest | src/store.rs:105-127 | a patch leaves each key with the first object of its greatest version among stored and incoming ones |
| Versioned.MergeIsAJoin | src/store.rs:105-127 | if equal key and version imply equal objects, the outcome depends only on the set of incoming objects |
| Versioned.ReplacingIsChanging | src/store.rs:105-127 | the changed flag is set exactly when the map ends up different |
| Versioned.ConflictMeansContested | src/store.rs:113-118 | a conflict is flagged exactly when an object meets a different one of its key and version that nothing newer had replaced |
| Store.SnapshotStore.constructor | src/store.rs:44-47 | the empty snapshot, which is valid |
| Store.SnapshotStore.Populate | src/store.rs:57-94 | publishes exactly the overlay of the message, its index and its version, and is valid whatever came before |
| Store.SnapshotStore.Patch | src/store.rs:96-175 | publishes exactly the merge, its index and its version, and reports the verdict of the specification |
| Store.SnapshotStore.MergeFlags | src/store.rs:104-127 | the flag loop computes the merge, its index, and both flags of the verdict |
| Store.SnapshotStore.MergeSegments | src/store.rs:128-151 | likewise the segment loop |
| Store.MaxVersion | src/store.rs:154-159 | the greatest version stored, 0 if nothing is |
| Store.PopulatedIsValid | src/store.rs:57-94 | after a full message: index exactly the preparation of the maps, every object under its own nonempty key, version at least every stored one |
| Store.PatchedIsValid | src/store.rs:96-175 | a patch keeps the same |
| StoreRuns.ReachableKeepsInvariant | src/store.rs:57-175 | so every reachable store has it, and is populated exactly when anything was ever written |
| StoreRuns.FullForgets | src/store.rs:57-94 | a full message forgets everything before it, wherever it stands in a sequence of writes |
| StoreRuns.FullMeaning | src/store.rs:57-94 | after it each key holds the last object of the message that carries it, and no other key remains |
| StoreRuns.FullVersionMeaning | src/store.rs:57-94 | and the version is the least that is neither negative nor below any object of the message |
| StoreRuns.PatchMeaning | src/store.rs:96-169 | after a patch there are the keys stored and carried, each holding the first object of its greatest version, the stored one first |
| StoreRuns.VerdictMeaning | src/store.rs:170-174 | conflict exactly if something is contested, and otherwise changed exactly if the flags or the segments differ from before |
| StoreRuns.PatchOnlyMovesForward | src/store.rs:96-169 | across a patch no key disappears or goes back in version; if something changed the version is exactly the greatest stored one, otherwise at most the first publication happens |
| StoreRuns.ConflictIsContested | src/store.rs:170-174 | VersionConflict exactly when some flag or segment of the patch is contested |
| StoreRuns.ConflictMayPublish | src/store.rs:153-174 | one patch can publish a change and report a conflict |
| StoreRuns.PatchesActAsOne | src/store.rs:96-175 | a sequence of patches has the effect, and reports the conflicts, of the one patch that lists all their objects |
| StoreRuns.PatchesAreAJoin | src/store.rs:96-175 | agreeing patches in any order, grouping or repetition end in the same flags, segments, index and version, with no conflict |
| StoreRuns.SamePatchesSameObjects | src/store.rs:96-175 | permuting or repeating patches carries the same objects, so the join theorem applies |
| Connection.Synchronizer.ApplyMessage | src/data_sync/protocol.rs:21-62 | store, status and result change exactly as the step specification says, ignored messages included; SyncData says what that is |
| Connection.Synchronizer.SendDataSync | src/data_sync/connection.rs:135-152 | one request, for the version clamped at zero |
| Connection.Synchronizer.HandleApplyResult | src/data_sync/connection.rs:257-293 | the step specification for every result, with the obligation pending or not, and every outcome of the send |
| Connection.Synchronizer.Receive | src/data_sync/connection.rs:192-221 | an oversized message ends the connection with its obligation, any other is applied and its result handled |
| Connection.Synchronizer.AfterSend | src/data_sync/connection.rs:177-191 | a ping or pong that is stopped or fails ends the connection, with the obligation it carries |
| Connection.Synchronizer.Select | src/data_sync/connection.rs:165-254 | one round of the connection's select does one step of the specification |
| Connection.Synchronizer.RunConnection | src/data_sync/connection.rs:154-255 | the loop does exactly the steps of its inputs, up to the first that ends it |
| Connection.Synchronizer.MarkStale | src/data_sync/connection.rs:36-38 | stale exactly if initialized |
| Connection.Synchronizer.RunRound | src/data_sync/connection.rs:32-109 | one round of the outer loop does one round of the specification |
| Connection.Synchronizer.RunSession | src/data_sync/connection.rs:47-89 | the arm for an established connection: first request, conversation, reset of the counter, hand-over of the obligation |
| Connection.Synchronizer.RunOpenSession | src/data_sync/connection.rs:56-87 | once the first request is sent: the conversation and what follows it |
| Connection.Synchronizer.AfterConnection | src/data_sync/connection.rs:66-86 | counter reset, end of the loop or hand-over of the obligation, for each way a connection ends |
| Connection.Synchronizer.Pause | src/data_sync/connection.rs:95-105 | the tail of the loop: stale mark, delay of the current attempt, saturating count, stop during the sleep |
| Connection.Synchronizer.RunSyncLoop | src/data_sync/connection.rs:22-110 | the whole loop runs as specified from a fresh counter and no obligation |
| SyncRuns.RunKeepsSound | src/data_sync/connection.rs:29-110 | over every run, between connections the flag for a forced full sync is set exactly while a full sync is owed |
| SyncRuns.ConverseKeepsSound | src/data_sync/connection.rs:154-255 | inside a connection, so is the awaiting flag; a connection that ends passes the obligation on |
| SyncRuns.EveryRunIsSound | src/data_sync/connection.rs:22-293 | every request of every run has timestamp 0 while a full sync is owed and max(version, 0) otherwise; each conflict that opens the debt is followed by a request; no handled message leaves status Ready in debt; Ready implies initialized; initialized exactly when a full or unconflicted patch was applied, and then populated; a finished run leaves Closed |
| SyncRuns.InitializationIsNeverUndone | src/data_sync/status.rs:46-55 | along every run what was seen stays seen and an initialized client stays initialized |
| SyncRuns.PublishedButNotInitialized | src/data_sync/protocol.rs:43-60 | the run in which data is published and the client is not initialized |
| SyncRuns.FailuresNeverEndARun | src/data_sync/connection.rs:22-255 | without a stop signal or a close with code 4003 no run ever finishes or leaves Closed, whatever fails; SyncData.RoundMeaning gives the converse |
| SyncData.MessageIsWritten | src/data_sync/protocol.rs:21-62 | a full data-sync message replaces the store and has the result full, a patch is merged and has the result patch or conflict according to whether it is contested, and all else is ignored and writes nothing |
| SyncData.EveryRunFollowsItsMessages | src/data_sync/connection.rs:22-293 | over every run: the messages handled are those of the frames its connections got to see, in order; the store is the fold of the full and patch messages among them from what it held at the start; each has the result that is right for it; every request asks for 0 in debt and otherwise for max(version, 0) of that fold |
| SyncData.EndMeaning | src/data_sync/connection.rs:165-293 | a connection ends as stopped exactly upon a stop, seen or met while sending; for good exactly upon a close with code 4003; and for a new one exactly when it is broken or a needed send fails |
| SyncData.ConversationEnds | src/data_sync/connection.rs:154-255 | a conversation that ends does so with the reaction to the last happening it got to see, and none before had ended it |
| SyncData.RoundMeaning | src/data_sync/connection.rs:32-109 | a round ends the run exactly if a stop is met anywhere in it or the server closed for good, and then the client is closed; otherwise it is connected, or has waited once more with an initialized client stale |
| SyncData.EveryReconnectWaits | src/data_sync/connection.rs:29-110 | over every run that goes on each round has waited exactly once |
| SyncRuns.BackoffMakesProgress | src/data_sync/connection.rs:66-106 | over every run: waits are numbered from zero one by one, starting over exactly after a Ready session of at least the keep-alive interval; each is within 20% of the delay of its number; any full cycle without a reset waits at least 80% of all delays together |
| Backoff.DelayIsJittered | src/data_sync/protocol.rs:111-129 | a delay is at least floor(0.8 base) and at most 1.2 base, also where the multiplication would overflow |
| Backoff.DelayMeaning | src/data_sync/protocol.rs:111-129 | exactly the entry of the attempt scaled by the jitter and rounded down; the entry itself if that overflows; one second if none is configured |
| Backoff.CycleVisitsEachOnce | src/data_sync/protocol.rs:111-117 | as many consecutive attempts as there are delays visit every one of them exactly once |
| Backoff.FullCycleWaits | src/data_sync/protocol.rs:111-129 | so together they wait at least 80% of all delays |
| Token.NumberRoundTrip | src/data_sync/protocol.rs:99-109 | decoding an encoded number gives it modulo 10^length, in exactly `length` characters |
| Token.FieldRoundTrip | src/data_sync/protocol.rs:99-109 | and gives it back exactly when it fits |
| Token.ConnectionToken | src/data_sync/protocol.rs:78-97 | there is a token exactly when the secret, without its padding, is ASCII and has at least three characters |
| Token.TokenRoundTrip | src/data_sync/protocol.rs:78-97 | a reader recovers split, timestamp and trimmed secret if and only if the split point is below 1000 |
| Token.OrdinarySecretsRoundTrip | src/data_sync/protocol.rs:78-97 | so every split of every secret of 3 to 1000 characters, at every nonnegative 64-bit time, is recovered |
| Status.StatusTracker.Set | src/data_sync/status.rs:46-55 | the status is the given one, and Ready initializes for good |
| Status.StatusTracker.constructor | src/data_sync/status.rs:24-31 | starts as told |
| StatusMonitor.RunIsSafe | src/data_sync/status.rs:46-79 | with any number of setters and waiters, at every access: the lock has one holder and every thread's knowledge is right |
| StatusMonitor.NoLostWakeUps | src/data_sync/status.rs:46-79 | a waiter that sleeps has nothing to wake for, unless the holder of the lock is about to notify; updates that notify nobody included |
| StatusMonitor.WaitAnswersRight | src/data_sync/status.rs:57-79 | true only if initialized; false only after a timeout or upon Closed |
| StatusMonitor.UpdateMeaning | src/data_sync/status.rs:46-55 | an undisturbed update takes the lock, marks Ready as initialized, stores its status, and owes a notification exactly if the status changed or is Ready |
| StatusMonitor.NotificationMeaning | src/data_sync/status.rs:46-55 | it then wakes every sleeper, or none is owed, and leaves the lock free, the status stored and nothing else changed |
| StatusMonitor.WaitMeaning | src/data_sync/status.rs:57-79 | a wait is true at once if initialized, false at once if closed and not initialized, and otherwise sleeps |
| Worker.SendFrom | src/events/worker.rs:228-269 | fails exactly when no attempt settles; otherwise the first attempt that settles decides |
| Worker.SendMeans | src/events/worker.rs:223-269 | delivered by a 2xx answer, stopped for good by a client error other than 400, 408 and 429 or for want of a client, cancelled by an abort, each at the first attempt that calls for no retry; failed exactly when all attempts call for one |
| Worker.EventWorker.constructor | src/events/worker.rs:54-65 | a fresh worker |
| Worker.EventWorker.Run | src/events/worker.rs:67-132 | the loop does one step of the specification a turn, until the first that leaves it |
| Worker.EventWorker.RunTurn | src/events/worker.rs:77-130 | one turn, closing or not, for every shutdown message, payload, flush, disconnection and timer; WorkerRuns.TurnMeaning says what a turn may do |
| Worker.EventWorker.Process | src/events/worker.rs:134-163 | buffer, failure memory and reply change exactly as specified |
| Worker.EventWorker.RememberDeliveryFailure | src/events/worker.rs:165-169 | a failure is remembered, a success forgets nothing |
| Worker.EventWorker.Flush | src/events/worker.rs:171-187 | the buffer is emptied and its delivery is the specification's |
| Worker.EventWorker.DeliverEvents | src/events/worker.rs:189-221 | chunk by chunk, past failures, up to a fatal or cancelled one |
| Worker.EventWorker.Send | src/events/worker.rs:223-269 | the first settling attempt's verdict, within the attempts allowed; failure only after all of them; no request without a client |
| WorkerRuns.ProcessKeepsSound | src/events/worker.rs:134-187 | every message keeps the books: nothing lost or reordered, the failure memory exact, the buffer below a batch |
| WorkerRuns.EveryRunIsSound | src/events/worker.rs:67-221 | over every run: batches of legal size, none after a fatal or cancelled one; a flush reply is true if and only if delivery has not stopped and everything received since the previous flush message was in a batch that succeeded; what was received is what was handed over followed by the buffer |
| WorkerRuns.FlushIsOneBatch | src/events/worker.rs:171-221 | a nonempty buffer goes out as one batch, whole and in order; a worker whose delivery has stopped drops it |
| WorkerRuns.PayloadsWaitForABatch | src/events/worker.rs:141-152 | a payload waits until it fills a batch, and goes out then, with all before it, and not earlier; once delivery has stopped it is dropped |
| WorkerRuns.TurnMeaning | src/events/worker.rs:77-130 | a turn leaves as aborted exactly upon an abort, polled or received, with nothing handed over; as closed exactly upon disconnection; a graceful shutdown leaves nothing, makes the worker closing, and from then on the timer does nothing |
| WorkerRuns.ShutdownMeaning | src/events/worker.rs:67-132 | over every run: it leaves as aborted exactly if it takes a turn with an abort, and otherwise is closing exactly if it took a turn with a graceful shutdown |
| Channel.GracefulCloseDrains | src/events.rs:279-291 | a worker that leaves because the channel closed has handed over, in order, all that any producer was told was accepted, unless delivery had stopped or was cancelled |
| Channel.StepMeaning | src/events/worker.rs:77-130 | the same for each step of the whole system: an abort ends the worker with its queue and buffer untouched, the disconnected channel ends it, and nothing else does but a cancelled send |
| Channel.SystemShutdownMeaning | src/events/worker.rs:67-132 | over every run of producers and worker: aborted exactly if the worker took an abort step in its loop, and otherwise closing exactly if it took a graceful one |
| Channel.SendMeaning | src/events.rs:158-192 | a send is accepted exactly by a sender that holds the channel while the receiver lives and there is room |
| Channel.CloseMeaning | src/events.rs:279-321 | closing takes the shared sender away for good, so that only those already held can still send |
| Channel.ClosedChannelDrains | src/events.rs:279-321 | once no sender is left the worker takes all that is queued and then leaves because the channel has closed, with nothing left behind, unless a send is cancelled on the way |
| Channel.AcceptedEventsAreConserved | src/events.rs:158-192 | at every moment, what was accepted is, in order, what was received, what went down with the receiver of a worker that has left, and what is queued, within the channel's capacity |
| Channel.EveryReplyIsRight | src/events/worker.rs:153-161 | for every reply of every run of producers and worker: it answers the accepted flush message that is next in line, and is true if and only if delivery has not stopped and every payload accepted between the previous flush message and this one was in a batch that succeeded |
| Channel.NothingAcceptedAfterwards | src/events.rs:158-192 | over every run: a worker that has left its loop does no more; once its receiver is dropped, or it has left because the channel closed, nothing more is ever accepted |
| Capacity.TakeKeepsBalance | src/events.rs:371-442 | each single atomic operation keeps both counters equal to what is held, and within their maxima |
| Capacity.EveryRunBalances | src/events.rs:371-442 | so does every interleaving of any number of producers and the worker, with stale loads and spurious failures |
| Capacity.StepsNeverWrap | src/events.rs:371-442 | in every run each operation changes each counter by exactly what its holder comes to hold or lets go of, so no subtraction and no addition wraps |
| Capacity.CapacityComesBack | src/events.rs:433-442 | once nothing is held both counters are zero |
| Capacity.AdmissionsAreWithinLimits | src/events.rs:381-399 | slots and bytes held never exceed their maxima |
| Capacity.Reserved | src/events.rs:381-415 | undisturbed, granted exactly when one more slot and the bytes fit |
| Capacity.SoloAttempt | src/events.rs:381-415 | the steps of an undisturbed attempt do that, and a refusal leaves both counters alone |
| Capacity.SoloRelease | src/events.rs:421-442 | the steps of dequeuing and dropping, or of dropping alone, return the slot and the bytes |
| Capacity.EventCapacity.constructor | src/events.rs:371-379 | both counters at zero |
| Capacity.EventCapacity.TryReserve | src/events.rs:381-399 | grants what fits and nothing else |
| Capacity.EventAdmission.MarkDequeued | src/events.rs:425-430 | gives the slot back once |
| Capacity.EventAdmission.Drop | src/events.rs:433-442 | gives back whatever is still held |
| Capacity.ReserveAndRelease | src/events.rs:381-442 | reserving, dequeuing and dropping leave the counters where they were |
| ClientEvaluation.EventProcessor.RecordEvaluationAt | src/events.rs:115-136 | accepted exactly when the event is valid, the processor is enabled, neither closed nor stopped, its channel is alive, and there is room in queue and memory; the queue, the counters and the overflow flag are the specified ones |
| ClientEvaluation.RecordedMeaning | src/events.rs:115-199 | taken exactly in those cases, by the fields; then the event is appended and its slot and bytes are counted; otherwise nothing changes but the overflow mark, which is for want of room only |
| ClientEvaluation.EventProcessor.Record | src/events.rs:158-192 | a refused event, also one refused by the channel, leaves queue and counters as they were |
| ClientEvaluation.EventProcessor.constructor | src/events.rs:48-100 | an open, empty processor within its limits |
| ClientEvaluation.FbClient.EvaluateTypedValue | src/client/evaluation.rs:225-253 | the conversion of the variation that the flag serves; the default exactly when the client is not available, nothing is served, or it cannot be converted; what is left behind is the common specification, although completion is skipped when nobody needs it |
| ClientEvaluation.FbClient.EvaluateTypedDetail | src/client/evaluation.rs:255-303 | the same value, event and observation; with the variation served, its event and the kind and text of the governing clause, or the kind and text of the failure |
| ClientEvaluation.ValueIsReturned | src/client/evaluation.rs:225-253 | the value of the common specification is what the flag, by its data, makes a call return |
| ClientEvaluation.ReturnIsUnique | src/client/evaluation.rs:225-253 | and nothing else satisfies that statement |
| ClientEvaluation.TellingDescribes | src/client/evaluation.rs:255-303 | the diagnostics of every branch say which clause governed, or why there was no value |
| ClientEvaluation.FbClient.AvailabilityMeaning | src/client.rs:297-304 | available exactly when open, initialized, and neither starting nor closed |
| ClientEvaluation.FbClient.EvaluateRaw | src/client/evaluation.rs:314-327 | a success leaves nothing behind and captures the variation served and what completion needs; a failure is observed and returned |
| ClientEvaluation.FbClient.CompleteRawEvaluation | src/client/evaluation.rs:365-371 | completes with what was captured, whatever the client has become since |
| ClientEvaluation.FbClient.EvaluateThroughAdapter | src/client/evaluation.rs:305-371 | evaluate raw, convert, complete: returns and leaves behind the same again |
| ClientEvaluation.FbClient.TryEvaluate | src/client/evaluation.rs:329-357 | unavailable, invalid user, unknown or malformed flag: the right error, observed once, with the user's key only if there is one |
| ClientEvaluation.FbClient.CompleteEvaluation | src/client/evaluation.rs:380-404 | records the event if it is wanted, and yields the observation |
| ClientEvaluation.FbClient.CompleteCapturedEvaluation | src/client/evaluation.rs:406-424 | the same from a captured event, whose own insights setting decides |
| ClientEvaluation.SkippingIsInvisible | src/client/evaluation.rs:373-378 | completing would have left nothing behind whenever it is skipped |
| ClientRuns.EvaluationLeaves | src/client/evaluation.rs:225-465 | one observation a call, a success exactly for a converted value; an event exactly for a success that is wanted and taken; nothing else changes |
| ClientRuns.EventMeaning | src/client/evaluation.rs:225-424 | the one event of a call is of the variation served, at the call's time, and is taken exactly if client, flag, converter, event, processor and room allow it, all by their fields; otherwise queue and counters stay |
| ClientRuns.ObservationFollowsTheClause | src/client/evaluation.rs:329-521 | what the observer hears: why there was no evaluation; or the first variation with the id that the governing clause names, with that clause's reason; or that the clause names no variation or none that exists, or the error of converting that very variation |
| ClientRuns.QueueIsFifo | src/events.rs:158-210 | over any run of calls, flush requests, dequeues, releases, closes, updates and the worker's end: the messages taken off the queue followed by those in it are those of the start followed by those put in, and the payloads put in are exactly the events of the calls that counted, in order |
| ClientRuns.EveryCallIsAccountedFor | src/client/evaluation.rs:225-465 | over any such run the observer hears every call once; the queued-events counter stays equal to the queued payloads, flush messages aside; and the events that left or stay in the queue are those of the start followed by those of the counted calls, in order |
| ClientRuns.NothingCountsAfterwards | src/events.rs:194-199 | from a start that is disabled, closed or stopped after a fatal delivery, no later call of any run enqueues anything, and so it stays |
| ClientRuns.NothingCountsAfterAClose | src/events.rs:194-199 | in any run, after events are closed or delivery stops nothing is added to what counted before |
| ClientRuns.NothingIsAddedOnceClosed | src/events.rs:194-210 | to a closed processor nothing is added at all, flush requests included |
| Lexicographic.LexLessMeaning | scripts/release.py:118-129 | the loop with its early returns decides at the first difference, or by length |
| SemVer.StripMeaning | scripts/release.py:62-62 | white space is removed at both ends, all of it, and nothing else |
| SemVer.ParseUndoesToString | scripts/release.py:59-102 | every valid version is read back from its text |
| SemVer.ToStringUndoesParse | scripts/release.py:59-102 | what is read is valid and writes back to the stripped text |
| SemVer.ParseMeaning | scripts/release.py:59-86 | read are, after stripping, exactly the texts of versions whose prerelease identifiers are nonempty, of ASCII letters, digits and hyphens, and without leading zeroes if numeric |
| SemVer.LessIsPrecedence | scripts/release.py:104-129 | `__lt__` is the precedence of section 11 of SemVer 2.0.0, for any two versions |
| SemVer.Trichotomy | scripts/release.py:104-129 | exactly one of less, equal and greater, for valid versions |
| SemVer.Transitive | scripts/release.py:104-129 | and transitive |
| SemVer.UnorderedExactlyAtTies | scripts/release.py:118-129 | for any versions: different and unordered exactly when their first different identifiers are one number in two spellings |
| SemVer.LeadingZeroesBreakTotality | scripts/release.py:73-78 | such a pair, which the check on leading zeroes excludes |
| SemVer.NextPatchIsLater | scripts/release.py:93-96 | the next patch is valid and later, after a prerelease too |
| SemVer.NextPatchIsNext | scripts/release.py:93-96 | and the next one: in between are only versions of the same three numbers and prereleases of that patch |
| Release.Newest | scripts/release.py:177-178 | none exactly for no versions, otherwise the one all others are less than |
| Release.NewestIsUnique | scripts/release.py:177-178 | so the order in which a set is visited does not matter |
| Release.PlanWithoutRequest | scripts/release.py:163-224 | the patch after the latest of manifest and registry, newer than the manifest and than everything published of either crate; refused exactly when the newest published version is missing for one crate, which is named |
| Release.PlanWithRequest | scripts/release.py:163-224 | the outcome for every request: unreadable, published for both, for either one, for none and newer or not |
| Release.InterruptedReleaseResumes | scripts/release.py:163-224 | a planned release that stops after either crate blocks the next one, is resumed by asking for its version by name, and once whole leaves the way to a newer one |

## Left out

- WebSocket, TLS and HTTP transport, the tokio runtime, thread spawning and joining, real clocks and sleeps: their outcomes are inputs.
- JSON, regular expressions, MD5, float parsing and white-space classification of Rust: unknown deterministic functions (`Model.Library`), so that the results hold for all of them. Decoding a payload is an input of `ApplyMessage`.
- RFC 3339 times, UTF-8 and Unicode case: text is a sequence of characters; string lengths in bytes and in characters are not told apart.
- NaN and infinite rollout bounds, which JSON cannot carry: bounds are real numbers, and the division of the hash by 2^31 is exact.
- Two's-complement overflow of timestamps and versions, which are never added: they are integers.
- Option validation (`src/options/validation.rs:82-140`): its results are preconditions where one is needed (batch size, delays).
- Connection.Synchronizer.RunSyncLoop: a run is any finite list of inputs; that the environment makes the loop go on or end is not claimed.
- Worker.EventWorker.Run: likewise; disconnection of the shutdown channel counts as an abort, which it is in the source too.
- Capacity.EveryRunBalances: that a compare-and-exchange loop ends is not claimed, only what it may do at each step.
- StatusMonitor.NoLostWakeUps: timeouts and spurious wake-ups may happen at any time; that a wait is scheduled again is not claimed.
- ClientEvaluation.FbClient.EvaluateTypedValue: one clock reading stands for all of one call, and no other thread acts during a call; interleaved admission is the subject of Capacity and Channel.
- SemVer.LessIsPrecedence: for versions built without parsing, Python's `isdigit` also accepts digits outside ASCII, and the model's test does not; parsed versions have none.
- ClientRuns.EveryCallIsAccountedFor: the release of an event's bytes is an input of any amount; that bytes balance over every interleaving is the subject of Capacity.
- ClientEvaluation.EventProcessor.RecordEvaluationAt: the size estimate is an unknown function, and a queued message's admission travels with it implicitly.
- `flush_and_wait` and the timed waits of `close` (`src/events.rs:212-321`): thin timeouts around the worker's reply and exit.
- `all_variations`, metric tracking, `track_eval_event`, the typed parsers (the results hold for every converter), `src/worker.rs`, `src/observation.rs` wire names, payload shapes and size estimates, logging, URL building, Debug redaction, the OpenTelemetry adapter.
- That a store's version never decreases, which is false: a full message may lower it.
- That Closed is final at the level of the tracker, which `set` does not guarantee: only a finished run of the loop itself leaves Closed.
- Release.PlanWithRequest: registry and manifest versions are already parsed, as they are in the source; Python's limit on the digits of an integer is not modelled.
- Git, registry and file editing in `scripts/release.py`.
