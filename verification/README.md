# A model of the platform's durable-state protocols

This project models the parts of the platform whose correctness rests on the order of small durable steps, and
proves what they promise.

- **Chat generation.** A job is claimed for its conversation by one Lua script, enqueued by separate Redis commands,
  run by a worker that retries its provider and writes a stream, and read by a browser that reconnects with the id of
  the last entry it got. `ConversationSlot`, `GenerationWorker` with `Backoff` and `JobLog`, `ChunkDeltas`, `SseReplay`;
  `WorkerRefinement` (a worker's status writes are steps of the slot) and `StreamedReply` (what the browser shows is what
  the worker saved).
- **Events.** A producer publishes directly or through an outbox; the broker accepts, loses answers and redelivers;
  the store inserts idempotently; what cannot be written goes to a dead-letter queue and may be replayed. `EventBus`
  (all processes and crashes), `OutboxDrain` and `DlqReplay` (one process's code), `OutboxRefinement` and
  `ReplayRefinement` (that code is a run of the bus), `Deliveries` (what consumers answer).
- **Messenger.** Call history filled by events in any order and closed by a sweep or by the reader; conversations,
  their members and messages; one direct conversation per pair; the cap on groups; read watermarks and unread flags;
  paged lists. `Calls`, `Conversations`, `DirectConversations`, `GroupCap`, `ConversationRoutes`, `ReadState`,
  `MessengerLists`.
- **Event store.** Filters turned into SQL, numbered pages handing over to keyset cursors, capped totals, the loose
  index scan, and retention by whole months. `EventFilter`, `EventPaging`, `CursorText`, `LooseScan`, `Retention`. The chat
  thread's paging is in `ChatThread`.
- **Files.** Which files a deleted conversation may name, how their deletion survives failures, and how a file's
  operations interleave. `OrphanFiles`, `FileCleanup`, `FileStatus`.
- **Browser.** Text gathered per frame, and list filters in the URL. `StreamBatching`, `FilterUrl`.

`Keyset`, `TextOrder`, `Options` and `Collections` hold what several of them share: times in microseconds with the
driver's truncation to milliseconds, ordered listings, string order, optional values, and small facts about sequences
and sets.

## How to read it

A protocol is a state and a total function `Apply`; a step that is not possible in a state changes nothing. `Run` folds
it over any sequence of steps, so a lemma about `Run(steps)` is about every run and every interleaving. Each SQL
statement or transaction and each Redis command or script is one step, and a check that is read in one statement and
acted on in a later one is two (`GroupCap`, `ConversationRoutes`, `FileStatus`); a write can fail before it happens,
after it happened, or lose its answer. A class whose calls can fail counts the unanswered ones in a ghost field, so
its contracts also say what happens when every call was answered. Code that changes state in place is a class whose methods are proved equal to a
specification function, and the lemmas are about that function.

Some promises hold only under a condition. The condition is stated, as an equivalence where the name ends in `Iff`,
with a concrete case in which the promise fails:

- A keyset cursor loses what is below a millisecond: rows between a truncated cursor and its row are skipped or
  repeated. `EventPaging.FinishedWalkIsCompleteIff` and `SubMillisecondRowIsSkipped`; for conversations
  `MessengerLists.WalkIsCompleteIff` and `SubMillisecondConversationIsSkipped`.
- The messenger's message cursor has no id: messages sharing a millisecond across a page boundary are never shown.
  `MessengerLists.WalkBackIsCompleteIff` and `MessageOfOneMillisecondIsLost`.
- A filter reads numbers as doubles: a long number finds its neighbour. `EventFilter.NumberIsFoundIffReadAsIt` and
  `LongNumbersAreNotFoundByTheirText`.
- Call columns are first-writer-wins: events of one call that disagree make the order of delivery visible.
  `Calls.EveryOrderLeadsToOneIffAllAgree` and `FirstAnswerStays`.
- A sweep keeps a duration that a read drops. `Calls.SweepShowsWhatReadsShowIff` and `SweepKeepsADurationReadsDrop`.
- A direct conversation's key joins two ids with a bar: ids that contain bars can collide.
  `DirectConversations.DirectsAreUniqueIff` and `Conversations.BarsCollide`.
- A group's cap is checked before the write: two adds can both find the last place. `GroupCap.CapHoldsIffEachWriteFits`
  and `RacingAddsExceedTheCap`.
- An enqueue without a claim (a posted message) can start a second job. `ConversationSlot.OneJobIffEachStartsAlone`,
  `TwoPostsRunTwoJobs` and `IdlePostRacesRetry`.
- A provider that shortens its text leaves the browser with the longer text. `ChunkDeltas.AccumulatedEndsWithLatest` and
  `ShrinkingTextIsNotFollowed`.
- The unique index covers id and timestamp: a republish with another timestamp would be stored twice.
  `EventBus.InsertKeepsIdsUniqueIff` and `RestampedEventIsStoredTwice`.
- The file cleanup takes any error with status 404 or 403 for a file that is missing or someone else's, so a blob store
  that answers so leaves the file behind. `FileCleanup.AckedEventIsCleanIff` and `RefusedBlobIsAcked`.
- A delivery spent by a shutdown, or a dead-letter publish that fails, loses a message. `Deliveries.LostIff`,
  `ShutdownsLoseTheMessage` and `FailedDeadLetterLosesTheMessage`.
- A confirmation written after a deletion moves the status back. `FileStatus.StatusMovesBackIff` and
  `LateConfirmationRun`.
- A file attached again after it was named is lost. `OrphanFiles.ShownFilesSurvive` and `ReattachedFileIsLost`.
- A partition of a year below 100 outstays its month. `Retention.ExpiryIsEndOfMonthIff` and
  `TwoDigitYearIsTakenForThe1900s`.

Where the code and its comments disagree, the model follows the code. The comment on stale calls says read and sweep
agree exactly; they differ in the duration of a swept row and within the millisecond of expiry
(`Calls.SweepShowsWhatReadsShowIff`, `Calls.ReadClosesNoLaterThanSweep`). The comment on the conversation cursor says
the walk returns each row once; that needs empty gaps behind its pages (`MessengerLists.WalkIsCompleteIff`). The
comment on the call projection says any order converges; that needs events of one call to agree
(`Calls.EveryOrderLeadsToOneIffAllAgree`). The cleanup consumer's log lines speak of missing and foreign files;
it skips every error of those two statuses (`FileCleanup.AckedEventIsCleanIff`).

Check it with `dafny verify dfyconfig.toml`.

## Model

| member | source | states |
|---|---|---|
| `GenerationWorker.Worker.ProcessOneJob` | chatbot-service/app/worker.py:254-521 | over every provider script and every write that fails or loses its answer: the stream entries of the job are claimed, then numbered retries, then chunks, then at most one ending, with the status that goes with it. With every write answered, a key and a history, the job runs up to the first attempt that may not be repeated, or to the limit, and ends in `done` with that attempt's deltas and the reply saved if and only if that attempt completes; otherwise in an error with a failure row |
| `GenerationWorker.Worker.RunAttempts` | chatbot-service/app/worker.py:355-414 | another attempt only, and with every write answered always, after a repeatable failure that had published nothing and below the limit; success if and only if the last attempt completes |
| `GenerationWorker.Worker.AttemptGeneration` | chatbot-service/app/worker.py:184-236 | no failure if and only if the stream completes and every chunk's write was answered; then all deltas are published; a write that was not answered is a final failure, noted before it was published |
| `GenerationWorker.Worker.RetryWait` | chatbot-service/app/worker.py:239-251 | a requested delay is clamped to 0..cap, any other wait lies in the upper half of the doubling window |
| `GenerationWorker.Worker.EmitFailure` | chatbot-service/app/worker.py:123-163 | it returns if and only if every stream and status write was answered, and has then written status and error entry, whether or not the failure row could be saved |
| `GenerationWorker.Worker.Complete` | chatbot-service/app/worker.py:416-520 | the reply is saved before the job is marked done and the stream is ended; with every write answered it ends in `done`, and in an error when the reply could not be saved |
| `Backoff.WaitIsCapped` | chatbot-service/app/worker.py:239-251 | every wait is between zero and the cap |
| `Backoff.WindowDoublesUpToTheCap` | chatbot-service/app/worker.py:239-251 | the first window is the base delay and each further one twice the one before, until the cap |
| `Backoff.CompletesIff` | chatbot-service/app/worker.py:357-414 | the last attempt completes if and only if some attempt within the limit does and all before it may be repeated |
| `Backoff.LastAttemptIsUnique` | chatbot-service/app/worker.py:357-414 | only one attempt is the last |
| `Backoff.WaitsAreCapped` | chatbot-service/app/worker.py:357-414 | all waits of a job together are at most (attempts - 1) times the cap |
| `JobLog.JobLogOrder` | chatbot-service/app/worker.py:355-521 | in a job's stream a retry never follows a chunk, nothing follows an ending, and retries are numbered 2, 3, ... |
| `JobLog.DoneRepeatsStream` | chatbot-service/app/worker.py:416-520 | the text of `done` is the concatenation of the chunks streamed before it |
| `ChunkDeltas.AccumulatedEndsWithRetained` | chatbot-service/app/services/gemini_stream.py:48-68 | the yielded deltas, concatenated, always end with the last text that was not skipped |
| `ChunkDeltas.AccumulatedEndsWithLatest` | chatbot-service/app/services/gemini_stream.py:48-68 | they end with the provider's latest text if and only if that was not skipped as a shorter repeat or ends the retained text too |
| `ChunkDeltas.GrowingTextIsReproduced` | chatbot-service/app/services/gemini_stream.py:48-68 | when every text extends the one before, the deltas add up to exactly the last text |
| `ChunkDeltas.ShrinkingTextIsNotFollowed` | chatbot-service/app/services/gemini_stream.py:56-57 | a concrete provider that shortens its text: the client keeps the longer one |
| `ConversationSlot.Store.ClaimConversationSlot` | chatbot-service/app/services/job_enqueue.py:88-138 | check and claim are one step: it either reports the running job and changes nothing, or sets pointer, status and conversation together |
| `ConversationSlot.Store.EnqueueGenerationJob` | chatbot-service/app/services/job_enqueue.py:32-81 | a failure leaves a prefix of meta, pointer, queue; success means all three |
| `ConversationSlot.EnqueueIsItsCallersSteps` | chatbot-service/app/services/job_enqueue.py:72-79 | stopped after any number of its commands, an enqueue has done what as many steps of its caller do in the run model |
| `ConversationSlot.EnqueuedJobIsActive` | chatbot-service/app/services/job_enqueue.py:72-79 | a complete enqueue, from any state: the job is described, pending, the active job, what a claim reports, and last in the queue; the rest is untouched |
| `ConversationSlot.ClaimedSlotIsBusy` | chatbot-service/app/services/job_enqueue.py:88-138 | after a claim the next one reports the claimed job; the rest is untouched |
| `ConversationSlot.AtMostOneJobRuns` | chatbot-service/app/routers/conversations.py:234-268 | over every interleaving of retries, workers and crashes without a posted message, a conversation has at most one pending or processing job and its pointer names that job |
| `ConversationSlot.StatusNeverMovesBack` | chatbot-service/app/worker.py:254-521 | over every run, posted messages included, no step moves a job's status backward, and an ended job keeps its ending |
| `ConversationSlot.ActiveJobIsTheRunningJob` | chatbot-service/app/routers/conversations.py:109-156 | as long as jobs start alone, the active-job answer is the one running job once it is described and pointed to, and never misses a job that is queued |
| `ConversationSlot.DescribedWhenQueued` | chatbot-service/app/services/job_enqueue.py:44-79 | over every run, posted messages included, a job is described before a worker can take it |
| `WorkerRefinement.WorkerIsARun` | chatbot-service/app/worker.py:254-521 | a worker's status writes are its steps of the slot model: whatever others do in between, the job shows the last status its worker wrote |
| `WorkerRefinement.JobIsARun` | chatbot-service/app/worker.py:254-521 | what a job leaves as its status is what its run leaves in the job's record |
| `ConversationSlot.OneJobIffEachStartsAlone` | chatbot-service/app/routers/messages.py:112-128 | over every run of retries, posted messages, workers and stops, a conversation never has more than one running job if and only if each job starts when nothing is busy and no posted job is between its first command and its pointer |
| `ConversationSlot.IdlePostRacesRetry` | chatbot-service/app/routers/messages.py:112-128 | a message posted to an idle conversation and one retry before its pointer is set: two running jobs |
| `ConversationSlot.TwoPostsRunTwoJobs` | chatbot-service/app/routers/messages.py:112-128 | two messages in a row: two pending jobs, pointer at the second |
| `SseReplay.ServeBatch` | chatbot-service/app/routers/messages.py:203-235 | one round sends the entries behind the cursor up to and including the first ending, moves the cursor to the last one sent, and stops exactly when there was an ending |
| `SseReplay.ReadIsTheNextBatch` | chatbot-service/app/routers/messages.py:203-215 | a read gives the first entries behind the cursor: all of them, or fifty |
| `SseReplay.ClientReceivesStream` | chatbot-service/app/routers/messages.py:191-235 | over every interleaving of appends, polls, deliveries, disconnects and reconnects within the trim bound, the client has a prefix of the stream, each entry once; when the server has finished and all has arrived it has all of it |
| `StreamedReply.ClientShowsTheSavedReply` | chatbot-service/app/routers/messages.py:191-235 | worker, server and browser together: at every moment the client shows a prefix of what the worker streamed, and once it has `done` it shows exactly the saved reply |
| `SseReplay.ReconnectMakesProgress` | chatbot-service/app/routers/messages.py:191-235 | a client that is behind gets the next entry after one reconnect and poll |
| `SseReplay.TrimmingLosesEntries` | chatbot-service/app/worker.py:92-100 | a reader continues without a gap if and only if nothing it still needs was trimmed |
| `EventBus.CommittedRowIsPendingOrAccepted` | chatbot-service/app/services/event_outbox.py:90-174 | a committed outbox row stays, and is still pending or its envelope was accepted by the broker, over every run with crashes between any publish and its commit |
| `EventBus.NothingIsForgotten` | chatbot-service/app/services/event_outbox.py:90-114 | an event whose producer lived on is being dispatched, waits in the outbox or was accepted |
| `EventBus.OutboxIsForFailedPublishes` | chatbot-service/app/services/event_outbox.py:90-114 | over every run an event is in the outbox, or on its way there, only after a direct publish of it that was not answered |
| `EventBus.AnsweredEventIsDone` | chatbot-service/app/services/event_outbox.py:90-114 | after an answered direct publish neither another publish nor an outbox row follows |
| `EventBus.UnansweredEventGoesToTheOutbox` | chatbot-service/app/services/event_outbox.py:90-114 | an unanswered publish, taken by the broker or not, leads to one pending row with the envelope |
| `EventBus.ProducersAreInOrder` | chatbot-service/app/services/event_outbox.py:90-114 | over every run whoever dispatches or stopped has created the event, and nobody does both |
| `EventBus.StoreHoldsEachDeliveredEventOnce` | event-store/src/services/ingest.ts:60-87 | the store's ids are exactly the delivered ids, each in one row that holds the producer's envelope, over every run of publishes, redeliveries, dead letters and replays |
| `EventBus.ReplaySucceedsAtMostOnce` | event-store/src/services/dlq-replay.ts:18-63 | of any number of racing replays of a record at most one sets its mark, and one has if and only if the record is marked; it reports success unless the answer to its mark is lost |
| `EventBus.ReplayPublishesOnce` | event-store/src/services/dlq-replay.ts:56-60 | a replay publishes its record's envelope once, and marks only after an answer |
| `EventBus.ReplayIsBegunIff` | event-store/src/services/dlq-replay.ts:23-41 | a replay is begun exactly of a record with an envelope and without a mark |
| `EventBus.DeadLetterIsKept` | event-store/src/services/dlq-ingest.ts:62-90 | a dead letter is kept once, with the envelope it was published with |
| `EventBus.DrainsNeverShareARow` | chatbot-service/app/services/event_outbox.py:127-136 | rows locked by one drain are skipped by the others and are not yet published |
| `EventBus.CommitPublishesTheMarked` | chatbot-service/app/services/event_outbox.py:144-173 | a committed drain publishes exactly the rows whose sends were answered |
| `EventBus.StoppedDrainReleasesItsRows` | chatbot-service/app/services/event_outbox.py:127-174 | a drain that stops gives its rows back unpublished; one with rows left to send does not commit |
| `EventBus.InsertKeepsIdsUniqueIff` | event-store/src/services/ingest.ts:60-76 | inserting keeps ids unique if and only if no stored row has that id with another timestamp |
| `EventBus.RestampedEventIsStoredTwice` | event-store/src/services/ingest.ts:60-76 | a concrete republish with a new timestamp is stored a second time |
| `OutboxDrain.Table.DrainOutboxBatch` | chatbot-service/app/services/event_outbox.py:117-174 | a batch takes the oldest due rows that no other drain has locked, up to its limit: every row it changes is older than every due, unlocked row it leaves. It settles each by the answer to its publish; a commit that fails has taken effect or not, and what was sent stays sent; without a broker nothing changes |
| `OutboxDrain.Table.SendRow` | chatbot-service/app/services/event_outbox.py:145-171 | an answered publish ends the row; any other outcome adds an attempt and a wait counted from the batch's own time |
| `OutboxDrain.Table.SweepOutbox` | chatbot-service/app/services/orphan_reconcile.py:63-99 | with other drains and producers at work between batches, published plus ended by others plus pending is what was pending plus what arrived; with every publish answered and nobody else at work the total is at least the number the dry run announced and at most the pending rows, and exactly that number for a standing clock; a failing commit raises |
| `OutboxDrain.Table.WouldPublish` | chatbot-service/app/services/orphan_reconcile.py:71-81 | the dry run counts the due rows |
| `OutboxDrain.BackoffDoublesUpToTheCap` | chatbot-service/app/services/event_outbox.py:28-30 | the wait doubles with each of the first twelve attempts up to the cap, then stays, and is positive exactly when the cap is |
| `OutboxDrain.EachRowIsSettled` | chatbot-service/app/services/event_outbox.py:144-171 | row by row what a batch does, including that an ended row was given to the broker |
| `OutboxDrain.PendingIsConserved` | chatbot-service/app/services/event_outbox.py:117-174 | pending rows before are pending rows after plus those published |
| `OutboxDrain.SentRowsAreNotDue` | chatbot-service/app/services/event_outbox.py:163-164 | a row sent in a batch is not due again at that batch's time, for a positive cap or answered sends |
| `OutboxDrain.BatchCounts` | chatbot-service/app/services/event_outbox.py:117-174 | a batch sends min(limit, due and unlocked) rows, what it sends is no longer due, and due rows are those it may lock plus those held by others |
| `OutboxDrain.BatchTakesTheOldest` | chatbot-service/app/services/event_outbox.py:127-136 | only due, unlocked rows change, each older than each that could have been taken and was not |
| `OutboxDrain.FailedRowIsDueAfterItsWait` | chatbot-service/app/services/event_outbox.py:157-171 | a row whose send failed is due again exactly from the end of its wait on, and an ended row never |
| `OutboxDrain.SweepLeavesDueRowsIff` | chatbot-service/app/services/orphan_reconcile.py:88-99 | with a positive cap and limit, a sweep stops with due rows left if and only if its last, fruitless batch did not reach them all or others held some |
| `OutboxRefinement.BatchIsADrain` | chatbot-service/app/services/event_outbox.py:117-174 | whatever other drains have locked and whatever the sends came to, a batch of the drain loop is a run of the bus: lock, send one by one, commit; same rows done, same envelopes given to the broker, nothing else changed |
| `OutboxRefinement.SecondDrainTakesTheNextRows` | chatbot-service/app/services/event_outbox.py:127-136 | two drains over one table: a second batch takes no row of the first, and may take every due row the first left |
| `OutboxRefinement.MarksAreSettlements` | chatbot-service/app/services/event_outbox.py:144-173 | a row is marked by the drain exactly when the loop ends it, and keeps its envelope |
| `DlqReplay.StoreTables.ReplayDlqRecord` | event-store/src/services/dlq-replay.ts:18-63 | missing, without envelope, already replayed, no longer readable, or published as stored and then marked; a conflict can come before or after the publish, and the publish and the mark can fail before or after they took effect |
| `ReplayRefinement.ReplayIsARun` | event-store/src/services/dlq-replay.ts:18-63 | with any other steps in between, a replay request is a run of the bus: same envelope given to the broker, same records left, success exactly when the run counts a win |
| `ReplayRefinement.RefusalIsARun` | event-store/src/services/dlq-replay.ts:24-53 | a refused request leaves the bus as it was |
| `DlqReplay.StoreTables.MarkDlqReplayed` | event-store/src/services/dlq-query.ts:123-133 | sets the mark for exactly one caller; a statement that fails has set it or not |
| `DlqReplay.StoreTables.IngestEvent` | event-store/src/services/ingest.ts:68-87 | a second delivery leaves the first row |
| `Deliveries.Handler.HandleMessage` | messenger-service/src/nats/calls-consumer.ts:121-186 | what a handler does in order, for the call-history consumer and, with its one difference each, for the other two; a write or publish that took effect and lost its answer is handled as a failure |
| `Deliveries.UnreadableIsAnswered` | event-store/src/nats/consumer.ts:19-28 | an unreadable message is acked by the file cleanup and termed by the other two |
| `Deliveries.ForeignEventIsAnswered` | messenger-service/src/nats/calls-consumer.ts:121-145 | an event that is no call is acked by the call history, and handled as any other elsewhere |
| `Deliveries.GoneConversationIsAnswered` | messenger-service/src/nats/calls-consumer.ts:146-165 | a conversation that is gone ends a call's message at once; elsewhere it is a failed write |
| `Deliveries.WriteIsAnswered` | event-store/src/nats/consumer.ts:30-56 | acked when written, nakked below the limit, dead-lettered at the limit and acked only if the dead letter is answered |
| `Deliveries.AnswersAreEarned` | event-store/src/nats/consumer.ts:14-57 | over all deliveries with crashes and lost answers: acked only after the write or the dead letter, or when nothing is asked; termed only when unreadable or the conversation is gone |
| `Deliveries.NaksStayBelowTheLimit` | event-store/src/nats/run-pull-consumer.ts:51-57 | the handler naks at most one time fewer than the limit; a shutdown's nak spends a delivery too |
| `Deliveries.HopelessEventEndsInTheDlq` | event-store/src/nats/consumer.ts:43-55 | an event that can never be written is nakked limit - 1 times and then dead-lettered and acked |
| `Deliveries.LostIff` | event-store/src/nats/consumer.ts:30-56 | an event whose conversation is not found gone is neither stored nor dead-lettered, counting what took effect without an answer, if and only if no delivery stored it and the last allowed one brought no dead letter to the broker |
| `Deliveries.UnansweredWriteIsNotLost` | event-store/src/nats/consumer.ts:30-56 | a commit whose answer is lost on the last delivery, and a refused dead letter: stored, and never answered |
| `Deliveries.UnansweredLetterIsNotLost` | event-store/src/nats/consumer.ts:43-55 | a dead letter taken without an answer: not lost, and never answered |
| `Deliveries.FailedDeadLetterLosesTheMessage` | event-store/src/nats/consumer.ts:43-54 | a failing dead-letter publish on the last delivery: no disposition, nothing stored |
| `Deliveries.ShutdownsLoseTheMessage` | event-store/src/nats/run-pull-consumer.ts:51-57 | two shutdowns spend both deliveries of an event that could have been stored |
| `Deliveries.LostAckIsDeliveredAgain` | event-store/src/nats/consumer.ts:30-33 | an ack that arrives ends the deliveries; one that is lost has the event stored again |
| `Deliveries.StoppedHandlerIsDeliveredAgain` | event-store/src/nats/consumer.ts:30-33 | a handler that stops between write and ack has the event delivered again |
| `Calls.ProjectionShape` | messenger-service/src/nats/calls-consumer.ts:47-119 | a projection names its call, its conversation and someone rung, has an ending exactly for an ending event, and never claims `expired` |
| `Calls.ReadIff` | messenger-service/src/nats/calls-consumer.ts:47-89 | an event is read if and only if it is of one of three kinds, has two uuids, a caller and a start, and names someone who was rung |
| `Calls.ProjectionValues` | messenger-service/src/nats/calls-consumer.ts:61-119 | every value of a projection from its event: ids, people, media, times, the ending at the envelope's timestamp, the duration as a positive number rounded down |
| `Calls.ReasonValues` | messenger-service/src/nats/calls-consumer.ts:113-116 | the accepted reasons one by one, and the default of each kind of ending |
| `Calls.UuidIsFiveGroups` | messenger-service/src/nats/calls-consumer.ts:24-25 | the accepted ids are five groups of hexadecimal digits joined by hyphens, of version 1 to 5 |
| `Calls.CallStore.ProjectCall` | messenger-service/src/services/calls.ts:73-168 | the three statements together are the projection, or nothing when the first one fails |
| `Calls.CallStore.SweepStaleCalls` | messenger-service/src/services/calls.ts:259-269 | closes exactly the open calls older than the lifetime and counts them |
| `Calls.DeliveryOrderDoesNotMatter` | messenger-service/src/services/calls.ts:64-159 | any two deliveries of the same events of any number of calls, in any order and with any duplicates, leave the same rows, members and activity times from any database, when events of one call agree |
| `Calls.ProjectionsCommute` | messenger-service/src/services/calls.ts:80-159 | two agreeing projections can be swapped in any database, foreign-key failures included |
| `Calls.ProjectingTwiceIsOnce` | messenger-service/src/services/calls.ts:64-159 | a redelivery changes nothing |
| `Calls.EveryOrderLeadsToOneIffAllAgree` | messenger-service/src/services/calls.ts:86-94 | for any events of new calls whose conversations are there, all orders lead to one database if and only if any two events of one call agree on the fixed columns and on the values both set |
| `Calls.FirstAnswerStays` | messenger-service/src/services/calls.ts:86-94 | two events with different answer times: the order of delivery shows |
| `Calls.ProjectionIsRecorded` | messenger-service/src/services/calls.ts:80-159 | a written event is in the tables: its call, exactly the people it names and who joined, its duration and its instant as activity |
| `Calls.NewCallIsStoredAsRead` | messenger-service/src/services/calls.ts:73-159 | a new call's row has exactly the event's values, its conversation the later of its activity and the event's instant; other rows are untouched |
| `Calls.KnownCallKeepsItsValues` | messenger-service/src/services/calls.ts:86-94 | a later event adds to a known call only what was missing, and the longer duration |
| `Calls.VerdictIs` | messenger-service/src/services/calls.ts:73-95 | a write is refused exactly for a duration beyond the column or a new call whose conversation is gone, and changes nothing then |
| `Calls.HistoryOnlyGrows` | messenger-service/src/services/calls.ts:130-158 | over any run nobody is un-joined or forgotten and no conversation's activity moves back |
| `Calls.EndingsAreFinal` | messenger-service/src/services/calls.ts:90-94 | over runs of projections and sweeps, `ended_at` and `end_reason` come together and never change, fixed columns never change, durations never fall |
| `Calls.ClosedCallsStayClosed` | messenger-service/src/types/messenger.ts:224-241 | a reader whose clock does not run backwards never sees a closed call reopen |
| `Calls.SweepShowsWhatReadsShowIff` | messenger-service/src/services/calls.ts:251-269 | reading after a sweep shows what reading without it would if and only if the sweep did not close the row or its duration was 0 |
| `Calls.SweepKeepsADurationReadsDrop` | messenger-service/src/services/calls.ts:251-269 | a started event with a duration and no ending: the swept row shows the duration, the unswept one none |
| `Calls.ReadClosesNoLaterThanSweep` | messenger-service/src/types/messenger.ts:214-241 | the read rule closes a call no later than the sweep, and earlier only within the millisecond of its expiry |
| `Calls.LiveIffWithinLifetime` | messenger-service/src/types/messenger.ts:193-241 | an open call is shown live if and only if its lifetime has not passed |
| `Calls.StatusTells` | messenger-service/src/types/messenger.ts:193-201 | when each of the five statuses is shown |
| `Calls.SweptRowEndsWithItsLifetime` | messenger-service/src/services/calls.ts:259-269 | an open call that started more than its lifetime ago is closed at the end of it, as expired |
| `Calls.ReadRowEndsWithItsLifetime` | messenger-service/src/types/messenger.ts:213-241 | a reader sees an open call closed from the end of its lifetime on, without a duration; the other columns stay |
| `Calls.EndedRowIsShown` | messenger-service/src/types/messenger.ts:224-241 | an ended call is shown as it is, in whole milliseconds |
| `DirectConversations.DirectsAreUniqueIff` | messenger-service/src/services/conversations.ts:17-102 | over every run and for any ids, each direct conversation holds exactly two people and no two hold the same pair if and only if no two different pairs that were opened share a key |
| `DirectConversations.OneDirectConversationPerPair` | messenger-service/src/services/conversations.ts:17-102 | over every run with bar-free ids each pair of owners has at most one direct conversation, with exactly its two seats |
| `Conversations.BarFreeKeyIsInjective` | messenger-service/src/services/conversations.ts:17-24 | two bar-free pairs share a key if and only if they are the same pair |
| `Conversations.SameKeyIff` | messenger-service/src/services/conversations.ts:22-24 | for any ids: two sorted pairs share a key if and only if they are equal or one bar of the key splits it either way |
| `Conversations.BarsCollide` | messenger-service/src/services/conversations.ts:22-24 | a concrete collision of ids with bars |
| `DirectConversations.CollidingPairsShareAConversation` | messenger-service/src/services/conversations.ts:62-102 | opening two pairs from an empty database: the second gets its own conversation if and only if the keys differ, else all four are seated in one |
| `Conversations.KeyIgnoresOrder` | messenger-service/src/services/conversations.ts:22-24 | the key does not depend on who opens the conversation |
| `GroupCap.CapHoldsIffEachWriteFits` | messenger-service/src/routes/conversations.ts:257-287 | over every run of statements a group's active members never exceed the cap if and only if each add still fits when it is written |
| `GroupCap.GroupNeverExceedsCap` | messenger-service/src/routes/conversations.ts:257-287 | when nobody else is seated in the group between an add's check and its write, its active members never exceed the cap |
| `GroupCap.RacingAddsExceedTheCap` | messenger-service/src/routes/conversations.ts:257-287 | two adds checked at the same moment: both find room, and both writes leave three members under a cap of two |
| `Conversations.LatestMessageIsKnown` | messenger-service/src/services/messages.ts:82-89 | `last_message_at` is the largest message time as the driver reads it, none exactly without messages, and `last_activity_at` is never before it |
| `Conversations.ActivityNeverDecreases` | messenger-service/src/services/messages.ts:31-34 | `last_activity_at` never decreases over messages, calls and everything else |
| `Conversations.ResendChangesNothing` | messenger-service/src/services/messages.ts:25-80 | a client message id sent again at any later time changes nothing |
| `Conversations.OnlyTheCreatorIsAdmin` | messenger-service/src/services/conversations.ts:114-136 | over every run a conversation's only admin seat is its creator's: leaving, returning and being added again change no role |
| `Conversations.MayCreateIff` | messenger-service/src/routes/conversations.ts:60-90 | a direct conversation takes exactly two people; a group two or more within the cap, which counts every listed id |
| `Conversations.CreatedGroup` | messenger-service/src/services/conversations.ts:62-109 | a new group has exactly its people, all active, no message, and is active from now on |
| `Conversations.OpenedPair` | messenger-service/src/services/conversations.ts:62-109 | a pair's first opening makes a conversation under its key; a later one finds it and brings both back |
| `Conversations.MayAddIff` | messenger-service/src/routes/conversations.ts:257-282 | who may add people: an active admin of a group, naming someone, with room for all |
| `Conversations.LeaveMakesInactive` | messenger-service/src/services/conversations.ts:404-415 | leaving makes one seat inactive and changes nothing else |
| `Conversations.SendTouches` | messenger-service/src/services/messages.ts:36-99 | a new message moves both times of its conversation to its millisecond, and never back |
| `Conversations.CallTouches` | messenger-service/src/services/calls.ts:148-158 | a call moves the activity time to its instant, and never back |
| `ConversationRoutes.Messenger.UpsertParticipants` | messenger-service/src/services/conversations.ts:118-136 | seats everyone, reactivates who had left and keeps roles; fails as a whole exactly when an id is listed twice |
| `ConversationRoutes.Messenger.CreateConversation` | messenger-service/src/services/conversations.ts:41-109 | refuses wrong member counts; otherwise makes the conversation or finds the pair's, and seats the members |
| `ConversationRoutes.Messenger.PostConversation` | messenger-service/src/routes/conversations.ts:60-125 | the route is the create step of the run model, with the cap check on the listed ids |
| `ConversationRoutes.Messenger.PostParticipants` | messenger-service/src/routes/conversations.ts:247-297 | not found, refused, failed on a repeated id, or written: the check reads the members at one moment, and the add step is made after whatever others did in between |
| `ConversationRoutes.Messenger.LeaveConversation` | messenger-service/src/services/conversations.ts:404-415 | leaves once; false when there is nothing to leave |
| `ConversationRoutes.Messenger.SendMessage` | messenger-service/src/services/messages.ts:36-99 | accepts a message once per client id and moves both times forward only |
| `ConversationRoutes.Messenger.PostMessage` | messenger-service/src/routes/messages.ts:67-90 | not found unless the sender is active when checked; the send step is made after whatever others did in between |
| `ReadState.Watermarks.MarkRead` | messenger-service/src/services/read-state.ts:32-65 | the watermark becomes the later of itself and the message's stored time; `advanced` is true exactly when it moved; anything not allowed changes nothing |
| `ReadState.WatermarkIsTheLatest` | messenger-service/src/services/read-state.ts:17-20 | in whatever order marks arrive the watermark is the latest of them |
| `ReadState.LateReportsChangeNothing` | messenger-service/src/services/read-state.ts:17-20 | marks no later than earlier ones change nothing |
| `ReadState.FlaggedIffInBadgeAndNotWithinAMillisecond` | messenger-service/src/services/conversations.ts:237-247 | flagged in the list implies in the badge; in the badge but not flagged if and only if the last message is newer than the watermark within one millisecond |
| `ReadState.FlaggedIffInBadge` | messenger-service/src/services/conversations.ts:422-446 | on whole milliseconds list flag and badge agree |
| `ReadState.OthersMessageIsUnread` | messenger-service/src/services/conversations.ts:237-247 | someone else's message is unread until the watermark reaches it, and always for who has never read |
| `ReadState.NothingIsUnread` | messenger-service/src/services/conversations.ts:422-446 | without a message, for one's own, and for who has left nothing is unread |
| `ReadState.MarkingTheLastMessageClearsBoth` | messenger-service/src/services/read-state.ts:22-26 | marking a last message clears flag and badge, ties included |
| `ReadState.TruncatedMarkClearsBadgeIff` | messenger-service/src/services/read-state.ts:22-26 | a mark taken through the driver would clear the badge if and only if the time was whole milliseconds or already passed |
| `MessengerLists.WalkListsAllConversations` | messenger-service/src/services/conversations.ts:336-372 | following the cursor lists every conversation once, in order, for every page size, on whole milliseconds |
| `MessengerLists.WalkIsCompleteIff` | messenger-service/src/services/conversations.ts:336-372 | for any times and page size the walk lists every conversation once and in order if and only if none lies in the gap behind a page |
| `MessengerLists.SubMillisecondConversationIsSkipped` | messenger-service/src/services/conversations.ts:336-372 | two conversations active within one millisecond, one lost |
| `MessengerLists.WalkNeverRepeats` | messenger-service/src/services/conversations.ts:336-372 | whatever the times, the walk ends, repeats nothing and lists nothing foreign |
| `MessengerLists.OlderPageContinuesIff` | messenger-service/src/services/messages.ts:115-134 | the page after a full one continues exactly behind it if and only if no message left over shares the last one's millisecond |
| `MessengerLists.WalkBackShowsTheThread` | messenger-service/src/services/messages.ts:115-134 | when no two messages share a millisecond, paging back shows the whole thread, newest first |
| `MessengerLists.WalkBackIsCompleteIff` | messenger-service/src/services/messages.ts:115-134 | for any times paging back shows the whole thread if and only if no page but the last leaves over a message of its last message's millisecond |
| `MessengerLists.MessageOfOneMillisecondIsLost` | messenger-service/src/services/messages.ts:115-134 | two messages of one millisecond, one never shown |
| `EventFilter.BuildWhere` | event-store/src/services/query.ts:105-153 | the clause built by pushing conditions and numbering placeholders holds of a row if and only if the filter matches it |
| `EventFilter.ConditionsMean` | event-store/src/services/query.ts:105-165 | what each condition of the clause says of a row with its value bound |
| `EventFilter.FilterParts` | event-store/src/services/query.ts:95-140 | each filter alone: equal columns, listed kinds and services, and time bounds that include their instant |
| `EventFilter.FilterIsAllItsParts` | event-store/src/services/query.ts:95-153 | a filter asks for all its parts at once |
| `EventFilter.NumberIsFoundIffReadAsIt` | event-store/src/services/query.ts:72-80 | a stored number is found by a text if and only if the text, read as a double and printed, is that number; a text read as an infinity finds a null |
| `EventFilter.WordsFindTheirValues` | event-store/src/services/query.ts:72-80 | `true`, `false` and `null` find the stored value they name and the string of the same spelling |
| `EventFilter.OtherTextsFindTheString` | event-store/src/services/query.ts:72-80 | any other text that is no number finds only the string |
| `EventFilter.DecimalIff` | event-store/src/services/query.ts:76-78 | which texts are decimals: digits, or digits, a point and digits; a sign negates |
| `EventFilter.DecimalIsItsDigits` | event-store/src/services/query.ts:76-78 | a decimal's value is its digits, with as many places behind the point as digits |
| `EventFilter.LongNumbersAreNotFoundByTheirText` | event-store/src/services/query.ts:72-80 | a family of whole numbers above 2 to the 53rd that their own text does not find; it finds the number before |
| `EventPaging.EventStore.QueryEvents` | event-store/src/services/query.ts:95-217 | one response is the page of the filtered rows: cursor over offset, one row more than asked for, total counted before the cursor |
| `EventPaging.WalkListsEverything` | event-store/src/services/query.ts:155-216 | following `nextCursor` from any offset to its end gives every matching row once and in order, and every page reports the same total, on whole milliseconds |
| `EventPaging.FinishedWalkIsCompleteIff` | event-store/src/services/query.ts:155-216 | in either order and for any times, a finished walk is complete, once and in order, if and only if no matching row lies in the gap behind a page |
| `EventPaging.CursorPageIsNextOffsetPageIff` | event-store/src/services/query.ts:167-216 | the cursor page after an offset page is the next offset page if and only if the gap behind its last row is empty |
| `EventPaging.TotalIsMinimum` | event-store/src/services/query.ts:18-30 | the total is min(n, cap) and capped exactly when n exceeds the cap |
| `Keyset.FloorMsIsTheLastMillisecond` | event-store/src/services/query.ts:212-215 | what a printed time keeps: the last whole millisecond |
| `EventPaging.CursorResumesExactlyWhenGapIsEmpty` | event-store/src/services/query.ts:212-215 | a truncated cursor resumes exactly behind its row if and only if no row lies between the two |
| `EventPaging.AscendingCursorRepeatsItsRow` | event-store/src/services/query.ts:212-215 | oldest first, a cursor repeats its own row if and only if its time is not whole milliseconds |
| `EventPaging.SubMillisecondRowIsSkipped` | event-store/src/services/query.ts:212-215 | two events in one millisecond, one lost |
| `LooseScan.ListDistinct` | event-store/src/services/query.ts:247-291 | the recursive scan returns every distinct value once, ascending, after one probe more than there are values |
| `LooseScan.AscendingListIsUnique` | event-store/src/services/dlq-query.ts:145-161 | an ascending list of the same values is the same list, so the scan is SELECT DISTINCT with ORDER BY |
| `Retention.EventsDb.RunRetention` | event-store/src/services/retention.ts:100-163 | the report counts and names what would go; execution removes exactly the expired partitions and the default partition's old rows, and counts what it removed; a statement that fails stops it after some of the drops, or before the dead letters |
| `Retention.YoungRowsStay` | event-store/src/services/retention.ts:44-48 | wherever a run stops, no event row is gone whose age is at most the retention days of 24 hours |
| `Retention.OldRowsGo` | event-store/src/services/retention.ts:44-48 | after a run an older row is in no default partition, and from the year 100 on only in the month of the instant that many days ago |
| `Retention.YoungLettersStay` | event-store/src/services/retention.ts:151-154 | of the dead letters exactly those stay whose age is at most the retention days |
| `Retention.EventsDb.ExpiredEventPartitions` | event-store/src/services/retention.ts:62-78 | the partitions whose named month ends by the cutoff |
| `Retention.RetentionIsSafeAndThorough` | event-store/src/services/retention.ts:100-163 | no row at or after the cutoff goes; every older row goes except those of the month that contains the cutoff and those of years below 100 |
| `Retention.StoppedRunIsSafe` | event-store/src/services/retention.ts:139-157 | wherever a run stops, no row at or after the cutoff is gone |
| `Retention.StoppedRunIsResumed` | event-store/src/services/retention.ts:139-157 | what a stopped run left undone is done by the next run, whose cutoff is no earlier |
| `Retention.OldRowsAreOfOneMonth` | event-store/src/services/retention.ts:69-94 | from the year 100 on, all rows a run leaves past the cutoff are of one month |
| `Retention.OldRowSurvivesOnlyInCutoffMonth` | event-store/src/services/retention.ts:69-78 | an old row survives if and only if the month its partition's name is taken for has not ended; from the year 100 on, if and only if that is the cutoff's month |
| `Retention.BoundIsEndOfMonthIff` | event-store/src/services/retention.ts:29-42 | the bound read from a partition's name is the end of the month it names, December included, if and only if the year is at least 100 |
| `Retention.ExpiryIsEndOfMonthIff` | event-store/src/services/retention.ts:29-42 | a partition expires, for every cutoff, exactly when its month has ended if and only if the year is at least 100 |
| `Retention.NameIsReadIff` | event-store/src/services/retention.ts:29-42 | a name is read as a month if and only if it is that month's name: four and two digits |
| `Retention.DaysOfMonths` | event-store/src/services/retention.ts:32-42 | each month has its days, February one more in a leap year |
| `Retention.KnownDays` | event-store/src/services/retention.ts:32-42 | the epoch and the first of March of 1900, 2000, 2024 and 2100 |
| `Retention.OverstayIsUnderAMonth` | event-store/src/services/retention.ts:88-94 | an overdue row stays less than a month |
| `Retention.DeletedNeverExceedsCandidates` | event-store/src/services/retention.ts:100-163 | never more rows deleted than counted as candidates |
| `Retention.TwoDigitYearIsTakenForThe1900s` | event-store/src/services/retention.ts:32-42 | a concrete partition of the year 50, taken for 1950 |
| `ChatThread.ChatDb.ListMessages` | chatbot-service/app/routers/conversations.py:340-398 | a missing or foreign conversation or anchor is not found; else the newest visible messages before the anchor, oldest first |
| `ChatThread.ThreadIs` | chatbot-service/app/routers/conversations.py:340-398 | a thread shows its conversation's messages by a user or the assistant, and no others |
| `ChatThread.ScrollBackShowsThread` | chatbot-service/app/routers/conversations.py:354-398 | newest page first and then older ones by `before_id`, for every page size and any ties: always the end of the thread in order, and all of it exactly when `has_more` is false |
| `CursorText.CursorRoundTripIff` | event-store/src/lib/cursor.ts:17-50 | a cursor comes back through UTF-8 and base64url if and only if its timestamp is a bar-free date and neither part is empty |
| `CursorText.DecodedCursorIsWellFormed` | event-store/src/lib/cursor.ts:30-50 | whatever is sent, a decoded cursor has a date and an id split at the first bar, and survives another trip |
| `CursorText.Base64RoundTrip` | event-store/src/lib/cursor.ts:17-21 | no byte is lost and the text needs no escaping |
| `CursorText.Utf8RoundTrip` | event-store/src/lib/cursor.ts:17-34 | every text survives UTF-8 |
| `OrphanFiles.OrphansAreTheUnsharedFiles` | chatbot-service/app/services/orphan_files.py:16-49 | a deletion names exactly the conversation's files that no other conversation of the owner shows |
| `OrphanFiles.DeletionTakesOneConversation` | chatbot-service/app/routers/conversations.py:293-299 | the cascade takes the conversation with all it shows and leaves every other as it was |
| `OrphanFiles.ShownFilesSurvive` | chatbot-service/app/routers/conversations.py:293-310 | over every run of messages, deletions, reconciliations and cleanups, a file a message of its owner still shows is untouched unless it was named and attached again |
| `OrphanFiles.ReattachedFileIsLost` | chatbot-service/app/routers/conversations.py:293-310 | a concrete file attached again between its naming and its cleanup |
| `FileCleanup.FileService.ProcessConversationDeleted` | file-service/src/services/conversation-cleanup.consumer.ts:39-90 | one delivery tries the files in order, skips whatever throws with status 404 or 403, and stops at any other failure |
| `FileCleanup.FileService.SoftDeleteFile` | file-service/src/services/file.service.ts:186-209 | checks, then blob, then row; each step can fail before or after it happened, and the blob store's refusal carries its own status |
| `FileCleanup.TriedLeaves` | file-service/src/services/file.service.ts:186-209 | what a deletion leaves, by what goes wrong: the bytes go first, the row only after them, and nothing else changes |
| `FileCleanup.CleanedLeaves` | file-service/src/services/conversation-cleanup.consumer.ts:47-88 | in a cleaned table exactly the live files their owner asked for are deleted and have lost their bytes |
| `FileCleanup.AckedEventIsCleanIff` | file-service/src/services/conversation-cleanup.consumer.ts:47-88 | an acked delivery has deleted every file it was asked for if and only if no blob deletion in it was refused with status 404 or 403, for distinct files |
| `FileCleanup.AckedPassIsCleanIff` | file-service/src/services/conversation-cleanup.consumer.ts:47-88 | with repeated files: if and only if no file's last try was so refused |
| `FileCleanup.RefusedBlobIsAcked` | file-service/src/services/conversation-cleanup.consumer.ts:31-37 | a store that answers 403 on its own account: acked, the row live and the bytes there |
| `FileCleanup.RedeliveryOfGoneFilesIsAcked` | file-service/src/services/conversation-cleanup.consumer.ts:59-88 | a redelivered event whose files are gone or someone else's is acked and changes nothing |
| `FileCleanup.ThrownStatuses` | file-service/src/services/file.service.ts:186-209 | when a deletion throws 404, 403 or nothing |
| `FileCleanup.SingleFileIsAckedIff` | file-service/src/services/conversation-cleanup.consumer.ts:59-88 | an event of one file is acked if and only if its deletion succeeds or throws one of those two statuses |
| `FileCleanup.EventEndsCleanIff` | file-service/src/services/conversation-cleanup.consumer.ts:92-132 | after any number of failed deliveries, the acked one leaves the event's files deleted if and only if nothing in it was so refused last |
| `FileCleanup.FileService.ConfirmFile` | file-service/src/services/file.service.ts:75-95 | only the owner, only once |
| `FileCleanup.FileService.GetFileForDownload` | file-service/src/services/file.service.ts:99-113 | given out exactly to the owner of a live, uploaded file |
| `FileCleanup.CleanupConverges` | file-service/src/services/conversation-cleanup.consumer.ts:92-132 | whatever failed and was delivered again, once every event had a delivery that went through without such a refusal the table is the one a single clean pass leaves |
| `FileCleanup.OnlyAskedFilesChange` | file-service/src/services/conversation-cleanup.consumer.ts:47-88 | a file not asked for by its own owner is left as it was |
| `FileStatus.DeletedFileIsNeverServed` | file-service/src/services/file.service.ts:99-113 | a deleted file is never served again, whatever was under way |
| `FileStatus.StatusMovesBackIff` | file-service/src/services/file.service.ts:75-95 | a status moves back exactly when a confirmation checked before a deletion is written after it |
| `FileStatus.DeletedFilesHaveNoBytes` | file-service/src/services/file.service.ts:186-209 | over every run a row is marked deleted only after its bytes have gone |
| `FileStatus.ServedIff` | file-service/src/services/file.service.ts:99-113 | a file is given out exactly to the owner of a live, uploaded row |
| `FileStatus.CheckedIsUnderWay` | file-service/src/services/file.service.ts:75-95 | which checks let a confirmation or a deletion go on |
| `FileStatus.WrittenIsNoLongerUnderWay` | file-service/src/services/file.service.ts:75-95 | each check allows one write |
| `FileStatus.StoppedIsNoLongerUnderWay` | file-service/src/services/file.service.ts:186-209 | an operation that stops leaves the rows alone |
| `FileStatus.LateConfirmationRun` | file-service/src/services/file.service.ts:75-95 | a run that gets there: checked, deleted, and then confirmed; the row stays deleted and nobody is served |
| `FileStatus.UnaskedFilesKeepTheirBytes` | file-service/src/services/file.service.ts:186-209 | only files for which a deletion by their owner was admitted lose their bytes or are deleted |
| `StreamBatching.StreamChunkBatcher.AddText` | chatbot-frontend/src/helper/stream-chunk-batcher.helper.ts:23-35 | queues text and schedules a frame unless one is pending |
| `StreamBatching.StreamChunkBatcher.Flush` | chatbot-frontend/src/helper/stream-chunk-batcher.helper.ts:37-56 | clears the frame and applies what is buffered |
| `StreamBatching.StreamChunkBatcher.Cancel` | chatbot-frontend/src/helper/stream-chunk-batcher.helper.ts:43-47 | drops what is buffered and its frame |
| `StreamBatching.StreamChunkBatcher.OnFrame` | chatbot-frontend/src/helper/stream-chunk-batcher.helper.ts:29-33 | a fired frame applies what is buffered |
| `StreamBatching.TextIsConserved` | chatbot-frontend/src/helper/stream-chunk-batcher.helper.ts:12-64 | per key, shown text and then buffered text is the text added and not dropped; one frame is pending exactly while text is, over every run including calls from inside an apply |
| `StreamBatching.NothingAddedIsLost` | chatbot-frontend/src/helper/stream-chunk-batcher.helper.ts:12-64 | when nobody cancels, shown text and then buffered text is all text ever added, from inside an apply too |
| `StreamBatching.FlushShowsAllThatWasAdded` | chatbot-frontend/src/helper/stream-chunk-batcher.helper.ts:23-56 | when nobody cancels, a flush shows all text ever added, from inside an apply too, in order, however frames fell |
| `FilterUrl.ToEventsListQueryParams` | event-store-frontend/src/helper/events-list-query.ts:73-93 | sets every parameter to its values and leaves the empty ones out |
| `FilterUrl.ReadPayloadFilters` | event-store-frontend/src/helper/events-list-query.ts:29-40 | keeps the payload parameters with a valid key and a value |
| `FilterUrl.RoundTripIff` | event-store-frontend/src/helper/events-list-query.ts:55-93 | a state comes back from its URL unchanged if and only if it is canonical |
| `FilterUrl.SecondTripChangesNothing` | event-store-frontend/src/helper/events-list-query.ts:55-93 | after one trip through the URL further trips change nothing |
| `FilterUrl.ReadIsCanonical` | event-store-frontend/src/helper/list-query-params.ts:14-120 | what is read from a printed URL is canonical |
| `FilterUrl.NumberIsRead` | event-store-frontend/src/helper/events-list-query.ts:56-57 | an offset is read up to the first character that is no digit |
| `FilterUrl.SignedNumberIsRead` | event-store-frontend/src/helper/events-list-query.ts:56-57 | with the sign in front of it |
| `FilterUrl.BlanksArePassedOver` | event-store-frontend/src/helper/events-list-query.ts:56-57 | blanks in front of an offset are passed over; without a digit there is none |
| `FilterUrl.SpacesAre` | event-store-frontend/src/helper/list-query-params.ts:18-32 | which characters trimming takes off |
| `FilterUrl.PayloadKeyIff` | event-store-frontend/src/helper/events-list-query.ts:25-26 | payload keys are one to sixty-four letters, digits and underscores |
| `FilterUrl.PlainStateHasAPlainUrl` | event-store-frontend/src/helper/list-query-params.ts:60-120 | without filters, offset and order nothing is in the URL |

## Left out

- Key expiry, approximate trimming beyond a count, and clock skew between machines: a Redis key never expires, the stream loses its oldest entries only past the bound, and each clock is a parameter.
- JSON and envelope parsing, provider HTTP, server-sent-event line splitting: any text, any failure and any order of chunks are inputs of the worker; a message is readable or not.
- The reply enrichment on `done`, conversation titles, file attachments inside a generation, metrics and logging: they do not decide what is written when.
- `retry_last_generation` before its claim and `post_message` before its enqueue: picking the message to retry and saving the new one are plain reads and one insert.
- GenerationWorker.Worker.ProcessOneJob: the backoff jitter is an arbitrary real in its window, and the outbox row for the reply is not part of the worker (it is a `Produce` step of `EventBus`).
- ConversationSlot.AtMostOneJobRuns: covers runs without posted messages; `OneJobIffEachStartsAlone` says when it holds with them. Job ids are fresh, as random ids are taken to be.
- OutboxDrain.Table.SweepOutbox: other drains and producers act between its batches, not inside one, and producers come to an end, without which the loop need not.
- EventBus: retry times and row order of the outbox are in `OutboxDrain` instead; the broker never forgets an accepted message.
- Deliveries: the dead-letter ingest consumer, which never dead-letters, and the batch fetch around the handlers.
- DLQ listing by `failed_at`, payload key and value listings, event lookup by id: single queries.
- Retention: partitions are taken to hold their named month, a month between 1 and 12; concurrent inserts between counting and dropping are not modelled.
- EventFilter: how a double is rounded and printed is a parameter; one lemma takes from it that a tie above 2 to the 53rd goes to the even neighbour.
- Calls: date and uuid texts are compared as given (no case folding), a projection's numbers are exact decimals, and times are microseconds once read.
- Conversations: titles, mutes, tenants and soft deletion (no code sets it); authorization is reduced to active and admin seats; strings are ordered by code point where the program orders by UTF-16 unit or by locale.
- ReadState: two latest messages at the very same microsecond may be picked differently by the list and the badge; the lemmas then ask that both be the reader's own or neither.
- MessengerLists: last-message and last-call hydration of a page.
- FileCleanup.CleanupConverges: an event given up on after its last delivery goes to the dead-letter queue and is not cleaned by this path; an event without a list of ids asks for nothing, and one without an owner fails at every delivery.
- OrphanFiles: the reconcile scan's minimum age and its listing of owners; it is one step that names files no message points to. Deleting and publishing are one step with the deletion's event always published; a lost event only leaves files behind.
- FileStatus: upload URLs and blob contents; a file's bytes count as there from the start.
- CursorText: date recognition is a parameter; surrogate halves, which well-formed text does not contain.
- StreamBatching: a callback that throws, and a scheduler that calls back at once.
- FilterUrl: parameters are constructors instead of their names in the URL; the router between the two functions is taken to carry parameters unchanged; offsets of 10^21 and more, which are printed with an exponent; a payload key that names an object's prototype; whether two different values compare equal in a locale.
- notification-service, realtime-service, the gateway, accounts, and all user interface components.
