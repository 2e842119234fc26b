# Verified model of the llm-obs telemetry pipeline

llm-obs collects spans from an SDK, accepts them over HTTP under idempotency keys, stores them in a worker
transaction together with trace rows, outbox events and per-minute metric buckets, and derives aggregates,
live events, trace pages, prices and retention from what is stored. This project models those protocols and
algorithms in Dafny and proves what they keep over every run. `dafny verify dfyconfig.toml` checks all of it.

## How the model is laid out

Code that changes things step by step is a class or a method with loops, and its contract equates the new
state with a specification function. What the repository promises is then proved about those functions: as
invariants of a state machine whose runs are arbitrary sequences of steps, or as lemmas over all inputs.

| module | what it models |
|---|---|
| `Options`, `Numerals`, `Uuids`, `SpanTable`, `Wire` | shared vocabulary: optional values, decimal text, UUID text order, the span table and its folds, what travels between SDK and API |
| `MetricBuckets`, `ProcessSpan` | minute buckets; the batch transaction and the aggregate task, statement by statement (class `Database`) |
| `StorageRuns`, `StorageSafety`, `StorageConvergence` | runs of the worker: batches, post-commit enqueues that may be lost, aggregate tasks in any order and any number of times, redelivered batches; what trace rows converge to |
| `Idempotency` | many concurrent ingest requests as interleaved reserve, enqueue and commit-or-fail steps, with crashes (class `PostgresIdempotencyStore`) |
| `Transport`, `Tracer` | the SDK: bounded retries, each serialising anew what the application may have changed; the buffer, its flushes and shutdown (classes `HttpTransport`, `LLMTracer`) |
| `Delivery` | SDK, API and worker as one system |
| `Outbox` | several delivery workers claiming, publishing and marking events (class `OutboxService`) |
| `Decorators`, `SpanHierarchy`, `RoundTrip` | traced calls flattened into parent pointers; the trace page's rebuilding of the tree; both together |
| `Pricing` | price catalogue, two-level interval cache, rounded cost, creation of a price (class `CostService`) |
| `Retention`, `Partitions` | the retention loop (class `ProjectStorage`); month arithmetic and partition creation (class `PartitionedTable`) |
| `Pagination`, `RateLimiter` | keyset pagination (class `TraceService`), the sliding-window limiter (class `Limiter`) |
| `Otlp`, `OtlpEncodings` | the two OTLP decoders; the JSON texts that encode an export, nulls included, and where the two forms agree |

Conventions: a database transaction or Redis pipeline is one atomic step; instants are integer microseconds;
costs are in units of 10^-8 dollar and prices of 10^-10 dollar per 1000 tokens; latencies are exact
milliseconds; UUIDs are numbers and a fresh UUID is a counter; a request hash is the request content itself,
that is, SHA-256 is taken as collision-free; in runs a trace id belongs to one project (`owner`). A recorded span
refers to its caller's message list and metadata: `Bodies` maps each span to what serialising them gives at the
moment, and the application may change that in any step.

## What the code does not do

These are results, proved from concrete states or as exact conditions:

- `docs/delivery-guarantees.md` says that retryable publish failures stay in the outbox for a scheduled retry.
  That holds for an event whose failure gets marked. Every later event of the same claim stays in PROCESSING, and
  so does whatever a worker still holds when it dies or a mark raises, the failed event included; nothing ever
  moves them again. These are all the ways to get stuck (`Outbox.StrandedIffLetGo`, `Outbox.StrandedForever`).
- When the enqueue of an aggregate task fails after the commit, or the one run of the task fails, redelivering
  the batch does not repair the trace row, because the second delivery inserts nothing
  (`StorageSafety.LostTaskIsNotRepaired`, `StorageSafety.DroppedTaskIsNotRepaired`).
- A request that leaves between reserving its key and settling it, by a crash or by a commit or fail that raises,
  leaves the key PENDING for ever (`Idempotency.OrphanedKeyStaysOrphaned`), and nothing else does
  (`Idempotency.OrphanedIffHolderCrashed`).
- A retried batch is not always the same request. The SDK keeps references to the caller's message lists and
  metadata and serialises them on every attempt, so a conversation that goes on before its batch is delivered
  sends another body under the same key, which the server refuses for ever (`Tracer.ChangedConversationDisagrees`,
  `Delivery.ChangedConversationConflicts`, `Idempotency.ConflictIsForever`). The exact condition is
  `Tracer.OneContentPerKeyIffSteady` and `Delivery.NoConflictIffSteady`. Callers meet it by not changing a
  recorded list or dictionary before it is delivered (`Tracer.SafeApplication`).
- The key of `traces` is the pair of trace id and start, without the project. When another project holds the
  pair, a new trace row is silently not created, and moving a row there fails the whole batch, again on every
  redelivery until an earlier span of the trace, or one of the batch's own, is stored by another batch
  (`StorageSafety.TraceWriteIff`, `StorageSafety.AbortsIff`, `StorageSafety.AbortRepeats`,
  `StorageSafety.EarlierSpanReleases`).
- The pricing cache answers like the catalogue query if and only if the intervals are pairwise disjoint, and
  creating a price before an existing one breaks that (`Pricing.CacheExactIffDisjoint`,
  `Pricing.CreationKeepsDisjoint`).
- A protobuf OTLP body with one span that has no attribute is rejected as a whole; the JSON form of the same
  export is accepted (`Otlp.ProtoParsesIff`, `OtlpEncodings.EncodingsAgreeIff`). Byte strings decode to
  hexadecimal from protobuf and stay base64 from JSON (`OtlpEncodings.ValuesAgreeIff`).
- The JSON mapping allows null for any field with its default value. The JSON decoder accepts it for ids, names,
  times and status, and rejects the whole body for a null list or attribute value
  (`OtlpEncodings.JsonParsesIff`, `OtlpEncodings.NullAttributesLoseBody`).
- The rate limit is not kept when clock readings reach Redis out of order, nor when requests share a clock reading
  and an object identity (`RateLimiter.SkewBreaksLongerIntervals`, `RateLimiter.LimitHoldsIffNoOverfullRepeat`);
  `RateLimiter.LimitHoldsUpToSkewAndRepeats` says what is left of it.
- A row in the default partition keeps its month without a partition for ever (`Partitions.RunKeeps`).
- Retention stops with deletable rows left when a full oldest batch cannot be deleted (`Retention.RetentionEnds`,
  `Retention.StopLeavesDeletableRow`).
- Retention orphans a payload when storage reports a kept object without its key, which the code counts as
  deleted (`Retention.OrphanIffUnreported`, `Retention.UnnamedErrorOrphans`). And because payload keys carry the
  span id but not its start, deleting an expired row can take the object of a live row with the same id
  (`Retention.LiveRowKeepsPayloadIff`).

## Model

| member | source | states |
|---|---|---|
| SpanTable.FloorIs | backend/app/services/span_metric_buckets.py:10-11 | a bucket starts at the whole minute at or before the instant |
| SpanTable.TotalsStep | backend/app/workers/process_span.py:557-577 | one more stored span of a trace adds its cost to the cost, its input and output tokens to the tokens and one to the count, moves the end to its start plus latency when that is later, and makes the trace an error when it is one; a span of another trace, project or before the start changes nothing |
| SpanTable.TotalsAreAggregates | backend/app/workers/process_span.py:557-577 | over the rows of a trace from a start on: cost is the sum of the cost column, tokens the sum of both token columns, count their number, end the greatest start plus latency, and status an error iff one of them is |
| SpanTable.MinuteStep | backend/app/services/span_metric_buckets.py:27-37 | one more span of a project and minute adds one, its error, its cost and its latency to the fold the buckets follow, and nothing to any other |
| MetricBuckets.AccumulateIsFold | backend/app/services/span_metric_buckets.py:14-48 | the dictionary filled by the loop over a batch holds, for every minute, exactly the count, errors, cost and latency fold over the batch's spans of that minute, and has an entry iff there is such a span |
| MetricBuckets.PayloadDistinct | backend/app/services/span_metric_buckets.py:40-78 | the rows of one upsert statement are the dictionary's entries, once each, in strictly ascending minutes, so no key is upserted twice |
| MetricBuckets.UpdateBucketsAddsFold | backend/app/services/span_metric_buckets.py:14-93 | for every project and minute a batch adds its own fold, with one latency rounding, keeps the keys unique, and creates a bucket iff the batch has a span there |
| MetricBuckets.RoundingError | backend/app/services/span_metric_buckets.py:81-93 | storing a latency sum with three decimals gives a whole number of thousandths, at most 0.0005 ms away, and rounds half up |
| MetricBuckets.WindowSumExact | backend/app/services/span_metric_buckets.py:96-142 | if buckets refine spans, summing buckets from a minute on equals folding the span table over those whole minutes |
| MetricBuckets.AlertQueryRefinesSpans | backend/app/services/span_metric_buckets.py:96-142 | the bucketed cost and error-rate answers are those of the span table over a window that contains every span of the exact window and beyond it only spans less than one minute older; any other metric is refused |
| ProcessSpan.FreshKeys | backend/app/services/ingest.py:358-371 | the rows an `ON CONFLICT DO NOTHING` insert adds come from the batch, have new and distinct keys, and afterwards every key of the batch is stored |
| ProcessSpan.FreshIsFirst | backend/app/services/ingest.py:358-371 | a row is added iff no stored row has its id and start and it is the first of the batch that has them |
| ProcessSpan.SelectRecoversInserted | backend/app/workers/process_span.py:141-155 | counting down the returned identities recovers exactly the inserted rows in batch order, also when the batch repeats identities |
| ProcessSpan.SelectInsertedSpans | backend/app/workers/process_span.py:141-155 | the counter loop computes that selection |
| ProcessSpan.PrepareSpans | backend/app/workers/process_span.py:218-303 | the preparing loop raises iff some span fails transiently; otherwise it keeps the preparable spans in order and counts the malformed ones |
| ProcessSpan.PreparedStep | backend/app/workers/process_span.py:218-303 | each ready item adds its span at the end, each malformed one adds one to the failures |
| ProcessSpan.EarliestByTrace | backend/app/workers/process_span.py:311-320 | the `trace_map` loop leaves one representative per trace of the batch, the earliest |
| ProcessSpan.Database.BulkInsertSpans | backend/app/services/ingest.py:358-371 | appends exactly the new rows and returns their identities |
| ProcessSpan.NewRowIs | backend/app/workers/process_span.py:464-483 | a new trace row carries trace, project, start and status of its span, zero sums and no end |
| ProcessSpan.Database.StoreTrace | backend/app/workers/process_span.py:443-506 | looks up the earliest row of the trace, then inserts, moves or keeps it, and returns the start it is stored under; a move onto an id and start that some row holds fails and changes nothing |
| ProcessSpan.Database.EnsureTraceRows | backend/app/workers/process_span.py:311-328 | does so for every representative in turn and collects one aggregate task for each, carrying the start its row ended up with; fails at the first write that fails |
| ProcessSpan.Database.UpdateSpanMetricBuckets | backend/app/services/span_metric_buckets.py:14-78 | accumulates, sorts and upserts the buckets of a batch; an empty batch changes nothing |
| ProcessSpan.Database.StoreBatch | backend/app/workers/process_span.py:305-347 | the statements of one batch transaction together take the four tables to the specified commit, with the inserted rows and the tasks to enqueue, or one trace write fails and all four are rolled back |
| ProcessSpan.Database.ProcessSpanBatch | backend/app/workers/process_span.py:191-403 | raises, leaving all tables unchanged, iff a preparation fails transiently or a trace write fails; otherwise the preparable part of the batch is committed and the counts and tasks returned |
| ProcessSpan.Database.UpdateTraceAggregates | backend/app/workers/process_span.py:543-587 | the row with the task's project, id and start gets, column by column, the sum of costs, the sum of input and output tokens, the count, the latest end and the error status of the spans of that project and trace from that start on, summed by the loop; every other row stays |
| StorageRuns.EnsureTraceRowEffect | backend/app/workers/process_span.py:443-506 | one row per trace is kept; the row ends at the earlier of its start and the span's, and rows of other traces stay |
| StorageRuns.EnsureAllStarts | backend/app/workers/process_span.py:311-328 | after the loop every trace starts at the minimum of its old start and the batch |
| StorageRuns.EnsureAllTasks | backend/app/workers/process_span.py:322-328 | every trace of the batch gets a task that carries the start of its row at commit |
| StorageRuns.RepresentativesAre | backend/app/workers/process_span.py:311-320 | representatives are distinct by trace and keep each trace's earliest start |
| StorageRuns.RepresentativeIsEarliest | backend/app/workers/process_span.py:311-320 | a representative is an inserted span, and none of its trace in the batch starts earlier |
| StorageRuns.NeverAborts | backend/app/workers/process_span.py:443-506 | when each trace id belongs to one project, no batch transaction fails on a trace write in any reachable state |
| StorageSafety.BatchKeepsInv | backend/app/workers/process_span.py:305-347 | a batch keeps the storage invariant: unique span keys, one row per trace at its first start, every row exact or covered by an outstanding task with exactly its start, one event per span id, buckets refining spans |
| StorageSafety.TaskEffect | backend/app/workers/process_span.py:543-587 | a task makes the row with exactly its start exact and leaves every other row alone, so stale tasks are no-ops |
| StorageSafety.NextKeepsInv | backend/app/workers/process_span.py:191-403 | every step of the machine keeps the invariant: batch, enqueue, lost enqueue, task acknowledged, redelivered or dropped |
| StorageSafety.ReachableInv | backend/app/workers/process_span.py:191-587 | hence it holds in every reachable state |
| StorageSafety.EventsAreSpans | backend/app/workers/process_span.py:330-343 | in every reachable state each outbox event has a stored span with its project, id, name, latency and error status |
| StorageSafety.AddedEventsAre | backend/app/workers/process_span.py:330-343 | an event that a batch adds has no predecessor and carries these fields of the first inserted span with its project and id |
| StorageConvergence.ExactIffRefreshed | backend/app/workers/process_span.py:356-372 | at any point of any run a trace row has exact totals iff a task carrying its start ran after the last batch that inserted a span of the trace |
| StorageConvergence.SpanCountDecides | backend/app/workers/process_span.py:543-587 | in every run all totals of a row are exact iff its span count alone is the number of stored spans |
| StorageConvergence.DrainedTracesAreExact | backend/app/workers/process_span.py:356-372 | once no task waits, each trace with spans has exactly one row, at its first span's start; it is exact iff its count is right, iff its task ran after the last batch; and where it is not, the enqueue or the run of precisely that task was lost |
| StorageConvergence.OrderIsIrrelevant | backend/app/workers/process_span.py:543-587 | two drained runs without losses that stored the same spans, in any order of batches and tasks, have the same trace rows |
| StorageConvergence.DrainingRunExists | backend/app/workers/process_span.py:367-372 | from every state some run of enqueues and tasks drains everything |
| StorageSafety.RedeliveryChangesNothing | backend/app/workers/process_span.py:305-347 | running a committed batch again, or any batch of its identities, changes no table and yields no task |
| StorageSafety.RedeliveriesChangeNothing | backend/app/workers/process_span.py:305-372 | nor does any number of redeliveries change the tables or the tasks waiting |
| StorageSafety.LostTaskIsNotRepaired | backend/app/workers/process_span.py:367-372 | after losing the only task of a new trace its row is wrong and stays wrong through any number of redeliveries |
| StorageSafety.DroppedTaskIsNotRepaired | backend/app/workers/process_span.py:542-587 | so it does when the task was enqueued and its one run failed, which nothing retries |
| StorageSafety.EffectsAtMostOnce | backend/app/services/outbox.py:33-61 | in every run each span identity has one row, each span id one event, and every bucket counts each stored span once in count, errors and cost |
| StorageSafety.BucketLatencyBound | backend/app/services/span_metric_buckets.py:81-93 | in every run a stored bucket latency is within 0.0005 ms per contributing batch of the exact sum |
| StorageSafety.TraceWriteIff | backend/app/workers/process_span.py:443-506 | for any trace table, whoever owns its rows: a write succeeds and leaves the project's row at the earlier start iff the project has no row and the pair of id and start is free, or its row starts early enough, or it starts later and the pair is free |
| StorageSafety.BlockedIffKeyViolated | backend/alembic/versions/891391a704b3_initial_schema.py:132 | the write is refused exactly when it would leave two rows with one primary key, which has no project in it |
| StorageSafety.AbortsIff | backend/app/workers/process_span.py:305-347 | a batch fails iff, in the tables before it, the project's row of some trace starts later than the batch's earliest new span of it and another row holds the pair it would move to |
| StorageSafety.AbortRepeats | backend/app/workers/process_span.py:305-347 | a batch that fails over a span fails again in every later state, whatever runs in between, until some batch stores one of its identities or an earlier span of that trace |
| StorageSafety.SharedTraceAborts | backend/app/workers/process_span.py:485-504 | a concrete table of two projects with one trace id where a batch fails |
| StorageSafety.EarlierSpanReleases | backend/app/workers/process_span.py:485-504 | there, an earlier span of the other project moves its row away, after which the batch no longer fails |
| Idempotency.PostgresIdempotencyStore.Reserve | backend/app/services/ingest.py:158-222 | inserts a PENDING record, or answers with the stored result, an in-progress or a hash conflict, or takes a FAILED record over |
| Idempotency.OneHolder | backend/app/services/ingest.py:158-222 | at most one request is between reserve and settle for a key |
| Idempotency.StepEvolves | backend/app/services/ingest.py:244-295 | no step changes a record's hash or a COMMITTED record, although the update does not look at the status |
| Idempotency.NextKeepsInv | backend/app/api/v1/ingest.py:34-83 | every step of every interleaving keeps the holder invariant |
| Idempotency.RunKeeps | backend/app/api/v1/ingest.py:34-83 | over whole runs, hashes never change and COMMITTED is terminal with a fixed result |
| Idempotency.ConflictIsForever | backend/app/services/ingest.py:200-204 | a body that differs from the one a key was reserved with is refused in every later state |
| Idempotency.SuccessesAgree | backend/app/api/v1/ingest.py:34-83 | all successful answers under one key carry the same batch id and were given to the same content |
| Idempotency.SuccessMeansEnqueued | backend/app/services/ingest.py:307-331 | every successful answer names a batch whose content is on the worker queue under that id |
| Idempotency.FailedKeyCanBeRetried | backend/app/services/ingest.py:200-222 | a reservation goes ahead iff the key is new, or FAILED with the same hash |
| Idempotency.ReservationIs | backend/app/services/ingest.py:158-222 | in every reachable state: a reservation answers with a stored response iff the record is COMMITTED with that response and the same hash, with in-progress iff it is PENDING with the same hash, with a conflict iff the hash differs, and goes ahead otherwise; what it leaves stored is said in the record's fields |
| Idempotency.ReservingIs | backend/app/api/v1/ingest.py:34-83 | in every reachable state a request is answered with a response iff the record under its key is COMMITTED with its content and that response, refused iff the content differs or the record is PENDING, and goes on otherwise |
| Idempotency.SetStatusIs | backend/app/services/ingest.py:244-295 | a commit or fail writes status and result of the record with its key and hash, whatever its status, and nothing else |
| Idempotency.SettlingIs | backend/app/services/ingest.py:244-295 | settling leaves the key COMMITTED with the answered batch id and count, or FAILED without a result |
| Idempotency.SuccessIsRepeated | backend/app/services/ingest.py:200-204 | once a request under a key was answered with success, every later reservation of the same content under that key is answered with the same response, in every run |
| Idempotency.OrphanedIffOwnerCrashed | backend/app/services/ingest.py:158-222 | a PENDING record is stuck iff the one request that reserved it last has left without settling |
| Idempotency.OrphanedIffHolderCrashed | backend/app/api/v1/ingest.py:34-83 | after any run a key is stuck iff some request left between reserving and settling that key, by a crash or by a commit or fail that raised; nothing else orphans one |
| Idempotency.OrphanedKeyStaysOrphaned | backend/app/services/ingest.py:158-222 | an orphaned record never changes again, in any run |
| Transport.HttpTransport.SendBatch | sdk/llm_obs/transport.py:38-130 | posts the same spans under the same key once per attempt, at most three times, each time with the message lists and metadata as they are then, returns the specified verdict, and records success, number of attempts and the reason for failure |
| Transport.SentMeansAnswered | sdk/llm_obs/transport.py:38-130 | the call reports success iff some attempt was answered 2xx after retryable failures only |
| Transport.VerdictIs | sdk/llm_obs/transport.py:38-130 | the deciding answer is the first that is neither a connection error, a timeout nor a 5xx, or the third; the batch is sent iff it is 2xx, lost iff it is an unexpected error or a 429 with an unreadable Retry-After, and kept otherwise |
| Tracer.LLMTracer.Record | sdk/llm_obs/tracer.py:260-271 | appends to the bounded buffer, counting the span that falls out |
| Tracer.RecordIs | sdk/llm_obs/tracer.py:260-271 | a full buffer drops its oldest span and counts it; pending batches, keys and the other counters stay |
| Tracer.LLMTracer.PopNextFlushBatch | sdk/llm_obs/tracer.py:188-200 | takes the pending batch first, else the whole buffer under a new key |
| Tracer.PopIs | sdk/llm_obs/tracer.py:188-200 | the oldest pending batch comes first with its own key, else the whole buffer under a key not drawn before, else nothing |
| Tracer.LLMTracer.Flush | sdk/llm_obs/tracer.py:172-186 | pops, sends and on failure pushes back, with any spans recorded while it sends; the posts are those of one batch |
| Tracer.FlushIsARun | sdk/llm_obs/tracer.py:172-186 | the buffers after a flush, and its posts, are those of the step machine after a pop, the attempts, the spans recorded meanwhile and the verdict, so what holds of its runs holds of the class |
| Tracer.UnsentIsPoppedAgain | sdk/llm_obs/tracer.py:181-204 | after an unsent flush the next pop takes the same spans under the same key |
| Tracer.LLMTracer.Shutdown | sdk/llm_obs/tracer.py:93-131 | flushes until nothing is buffered, one flush fails (counted once) or raises; or discards; a closed tracer is left alone |
| Tracer.FlushAllPostsEverything | sdk/llm_obs/tracer.py:93-131 | a flushing shutdown that ends with everything sent has emptied the buffers and posted every pending batch and the buffer under its key; after a failed send a batch is pending |
| Tracer.NextKeepsInv | sdk/llm_obs/tracer.py:172-207 | every interleaving of recording with one flusher keeps conservation, counters and keys |
| Tracer.SpansAreConserved | sdk/llm_obs/tracer.py:172-216 | every recorded span is in exactly one of delivered, in flight, pending, buffered, dropped or lost; the pending counter is exact and at most one batch is pending or in flight |
| Tracer.DeliveredInOrder | sdk/llm_obs/tracer.py:188-204 | the delivered batches concatenate to a subsequence of the recording order |
| Tracer.OneSpanListPerKey | sdk/llm_obs/tracer.py:172-204 | over all attempts and flushes, two posts under one key carry the same spans |
| Tracer.OneContentPerKeyIffSteady | sdk/llm_obs/tracer.py:177-180 | in every run all posts under each key have the same content iff no message list or metadata of a batch differs between two of its attempts |
| Tracer.SafeApplication | sdk/llm_obs/decorators.py:105-106 | an application that leaves recorded lists and dictionaries alone until delivery always has one content per key |
| Tracer.ChangedBatchDisagrees | sdk/llm_obs/tracer.py:177-180 | when a posted, undelivered batch reads differently from what was posted, its next flush posts another content under the key |
| Tracer.ChangedConversationDisagrees | sdk/llm_obs/integrations/openai.py:158 | a concrete run: three posts without an answer, the caller appends to the recorded message list, and the next flush posts another content under the key |
| Tracer.LostAnswersAreNotSent | sdk/llm_obs/transport.py:38-130 | three attempts that time out are three posts and a batch that is not sent |
| Delivery.NextKeepsInv | sdk/llm_obs/tracer.py:172-204 | every step of the joint system of SDK, API and worker keeps its invariant |
| Delivery.SdkNeverConflicts | backend/app/services/ingest.py:200-204 | if no body of a batch differs between its attempts, a request under one of the SDK's keys never meets a record with another hash |
| Delivery.NoConflictIffSteady | backend/app/services/ingest.py:200-204 | after any run: however network and server continue, no request of this SDK is refused as a different body iff no body of a batch differed between its attempts |
| Delivery.ChangedConversationConflicts | sdk/llm_obs/integrations/openai.py:204 | the failing conversation end to end: some delivery of its two posts ends in a refusal |
| Delivery.DeliveredMeansQueued | backend/app/services/ingest.py:307-331 | a batch the SDK counts as delivered is on the worker queue with exactly its spans |
| Delivery.DeliveredSpansAreStoredOnce | backend/app/workers/process_span.py:305-347 | when the worker has done its queue, each delivered well-formed span has exactly one row and an event, whatever was retried, refused or redelivered |
| Outbox.OutboxService.ClaimPending | backend/app/services/outbox.py:65-137 | takes at most `limit` eligible unlocked rows, each once and in any order, leaves one out only when the limit is reached and then none older than a taken one, with ties open; the taken rows become PROCESSING with one more attempt |
| Outbox.ClaimIs | backend/app/services/outbox.py:65-137 | every taken row was PENDING or FAILED with fewer than five attempts, available, unlocked and of the project when one is given; such a row that is not taken means that the limit was reached with none later created than it |
| Outbox.OutboxService.DeliverSpanOutboxEvents | backend/app/workers/process_span.py:509-539 | whatever the order of the claimed events: those before the first failing publish are delivered, that one is marked failed, the rest stay claimed, and the task raises iff a publish failed |
| Outbox.DeliveryIs | backend/app/workers/process_span.py:514-539 | after a delivery, column by column: events before the failing one are DELIVERED, the failing one is PENDING with a later time or FAILED on its fifth attempt, the rest is PROCESSING, each with one attempt more, and no other row changes |
| Outbox.BackoffIs | backend/app/services/outbox.py:157-183 | the backoff is ten seconds for each attempt made, at most 300 |
| Outbox.HeldDisjoint | backend/app/services/outbox.py:65-137 | two workers never hold the same event |
| Outbox.NextKeepsInv | backend/app/services/outbox.py:65-183 | every interleaved step of any number of workers keeps the outbox invariant |
| Outbox.OutboxIsSafe | backend/app/services/outbox.py:65-183 | in every run an event has at most one successful publish and at most five attempts; PENDING has attempts left; FAILED means five failures at least 100 seconds apart in all; held events are PROCESSING |
| Outbox.ClaimSpendsBudget | backend/app/services/outbox.py:65-137 | every claim lowers the sum of remaining attempts by the number of events it takes |
| Outbox.StrandedIff | backend/app/workers/process_span.py:521-533 | a step strands an event iff it marks the failure of an event that its worker claimed before, or its worker dies with the event on its list |
| Outbox.StrandedIffLetGo | backend/app/workers/process_span.py:521-533 | after any run an event is stuck in PROCESSING iff such a step happened to it |
| Outbox.StrandedForever | backend/app/services/outbox.py:65-137 | a stranded event is never claimed, published or marked again |
| SpanHierarchy.HierarchyBuilder.FillNodes | frontend/src/pages/TraceDetail.tsx:169-182 | the two filling loops leave a node for every id, holding the spans that point to it and not to themselves, in input order |
| SpanHierarchy.HierarchyBuilder.BuildSpanHierarchy | frontend/src/pages/TraceDetail.tsx:168-219 | the visiting code computes the specified rows, and terminates for every input |
| SpanHierarchy.HierarchyIsForest | frontend/src/pages/TraceDetail.tsx:168-219 | for any parent pointers, missing, self or cyclic, each span id has exactly one row, and a row below depth 0 has its parent as the nearest earlier row one level up |
| SpanHierarchy.FirstPassIsRooted | frontend/src/pages/TraceDetail.tsx:205-210 | the first pass reaches exactly the spans whose parent chain ends |
| SpanHierarchy.SecondPassIffCyclic | frontend/src/pages/TraceDetail.tsx:212-214 | the second pass adds rows iff some parent chain is cyclic; without cycles depth is the number of known ancestors |
| SpanHierarchy.SiblingsAppearByStart | frontend/src/pages/TraceDetail.tsx:184-203 | for any parent pointers, siblings appear by start time, and so do the roots of the first pass |
| SpanHierarchy.SortIs | frontend/src/pages/TraceDetail.tsx:163-193 | the sort is by millisecond of the start, and spans of one millisecond keep their order |
| SpanHierarchy.RowsTell | frontend/src/pages/TraceDetail.tsx:188-200 | a row's child count is the number of spans that point to its id, other than itself; its parent is known iff a span on the page has the id it points to, as for every row below the top |
| Decorators.Tracing.Execute | sdk/llm_obs/decorators.py:46-97 | running a call, however its body ends, restores the context and records the spans of its tree, with parents, trace id and failure flag |
| Decorators.Tracing.LeaveSpan | sdk/llm_obs/decorators.py:139-185 | leaving a span restores both context variables and records the span, failed as its kind and ending say |
| Decorators.FailureIs | sdk/llm_obs/decorators.py:55-158 | a decorated call is recorded as failed iff it raised an `Exception`, a manual span iff its body raised anything |
| Decorators.SpanForIs | sdk/llm_obs/decorators.py:46-53 | a span has a new id, the trace of its context or a new one, the span it was entered in as parent and the time of entry, and what runs inside it sees its trace and id |
| Decorators.OwnSpanIsLast | sdk/llm_obs/decorators.py:163-180 | of all spans entered during a call its own is recorded last |
| Decorators.SiblingsEndInOrder | sdk/llm_obs/decorators.py:163-180 | one more call adds its spans after those of the calls before it |
| RoundTrip.OneTracePerTree | sdk/llm_obs/decorators.py:46-97 | all spans of a call tree carry its outermost call's trace id |
| RoundTrip.PageShowsCallTrees | frontend/src/pages/TraceDetail.tsx:168-219 | recorded spans of any nested calls, listed by start time, are shown as the preorder of the call trees with their depths and child counts |
| RoundTrip.RunAndShow | sdk/llm_obs/decorators.py:139-185 | executing a call and showing what it recorded gives its tree |
| Pricing.LookupIs | backend/app/services/cost.py:39-80 | the catalogue query returns a covering record with the latest start, or none iff none covers |
| Pricing.RoundHalfEvenIsNearest | backend/app/services/cost.py:21-37 | the quantised cost is the nearest multiple of 10^-8, the even one of two, and the only number with that property |
| Pricing.CostIs | backend/app/services/cost.py:21-37 | the cost in units of 10^-8 dollar is the whole number nearest to input rate times input tokens plus output rate times output tokens, the even one of two; 100000 tokens of one kind cost exactly their rate, and a span without a price nothing |
| Pricing.CostService.GetPricing | backend/app/services/cost.py:39-80 | answers from the Redis entry if it covers the instant, else queries and remembers |
| Pricing.CostService.GetBatchPricing | backend/app/services/cost.py:82-96 | answers from the batch list first, and touches no other model's caches |
| Pricing.AskRemembers | backend/app/services/cost.py:39-108 | an answer is given again at the same instant whatever the catalogue is by then, from the batch list when the shared entry is gone and from the shared entry in a new batch |
| Pricing.CostService.Calculate | backend/app/services/cost.py:21-37 | the cost is that of the cached answer |
| Pricing.CacheExactIffDisjoint | backend/app/services/cost.py:39-108 | after every history of lookups, evictions and batches both caches answer like the query, iff the catalogue's intervals are pairwise disjoint |
| Pricing.CreationIs | backend/app/api/v1/pricing.py:92-131 | a creation is refused iff a record has its start; else it ends those records at its start that began before it and would go on beyond it, changes no other column, and adds an open record |
| Pricing.CreationKeepsHistory | backend/app/api/v1/pricing.py:92-131 | creating a price changes no lookup before its start |
| Pricing.CreationTakesOver | backend/app/api/v1/pricing.py:92-131 | from its start on a lookup gives the old record if that began later, else the new one |
| Pricing.CreationKeepsDisjoint | backend/app/api/v1/pricing.py:92-131 | a creation keeps intervals disjoint iff no non-empty record begins after it |
| Retention.FetchIs | backend/app/workers/maintenance.py:77-90 | a fetch returns at most 1000 rows that start before the cutoff, in order of start; only when it is full does it leave one out, and no fetched row starts later than that |
| Retention.RoundIs | backend/app/workers/maintenance.py:22-124 | a round, row by row and object by object: a fetched row stays iff it has a payload under `payloads/<project>/` that the one answer of storage refused; an object goes iff it was asked for and the answer does not count it as kept |
| Retention.ChunkIs | backend/app/workers/maintenance.py:42-50 | one request names at most 1000 keys |
| Retention.ConfirmedAreGone | backend/app/workers/maintenance.py:22-74 | whatever storage answers, only requested keys disappear, and a confirmed key is still stored only if some error entry for it did not name it, also when an error cuts the chunks short |
| Retention.ProjectStorage.DeleteS3Objects | backend/app/workers/maintenance.py:22-74 | the chunk loop deletes and confirms as specified |
| Retention.ProjectStorage.DeleteSpanBatch | backend/app/workers/maintenance.py:93-124 | removes exactly the rows of the batch that may go and returns their number |
| Retention.ProjectStorage.RunDataRetention | backend/app/workers/maintenance.py:302-358 | the loop terminates and leaves spans, objects and traces as specified |
| Retention.RetentionIsSafe | backend/app/workers/maintenance.py:302-358 | whatever storage answers, only expired rows go and no object but payloads of expired rows under the project's prefix |
| Retention.OrphanIffLingers | backend/app/workers/maintenance.py:49-55 | a deleted row's payload stays behind iff some answer on the way kept an object of the batch without naming its key and no later round deleted it |
| Retention.OrphanIffUnreported | backend/app/workers/maintenance.py:49-55 | for rows that share no object: a payload is orphaned iff some answer on the way kept an object of the batch without naming its key |
| Retention.ReportedMeansNoOrphan | backend/app/workers/maintenance.py:49-55 | if every answer names the kept objects, no payload is orphaned, also when rows share objects |
| Retention.UnnamedErrorOrphans | backend/app/workers/maintenance.py:49-53 | one row, one object and one error entry without a key orphan the object |
| Retention.RetentionEnds | backend/app/workers/maintenance.py:319-353 | the job runs to the end, leaving no expired row, iff each batch on the way has a row that may go; else it stops at the first batch that has none, and expired rows beyond that batch remain only if it is full |
| Retention.StopLeavesDeletableRow | backend/app/workers/maintenance.py:341-353 | a thousand refused rows leave a newer expired row without payload behind |
| Retention.LiveRowKeepsPayloadIff | backend/app/services/storage.py:160 | an unexpired row stays; its payload is safe, whatever storage answers, iff no expired row with a payload has the same span id |
| Retention.StaleTracesRemoved | backend/app/workers/maintenance.py:127-145 | exactly the expired traces without spans are removed |
| Uuids.TextOrder | backend/app/services/trace_service.py:64-67 | comparing UUIDs as text, as the cursor does, is comparing them as UUIDs, as the ordering does |
| Pagination.ListingIs | backend/app/services/trace_service.py:61-97 | a query lists exactly the visible rows in strictly descending key order |
| Pagination.ListingHas | backend/app/services/trace_service.py:61-97 | the same column by column: project, status, bounds on the start, and start and id text against the cursor; rows come by descending start, then descending id |
| Pagination.TraceService.ListWithCursor | backend/app/services/trace_service.py:50-106 | the conditions built from cursor and filters select that listing; the page is its start and a cursor comes back iff rows remain |
| Pagination.PageSplits | backend/app/services/trace_service.py:96-106 | a page followed by the listing from its cursor is the listing it began from |
| Pagination.PageIsFull | backend/app/services/trace_service.py:96-106 | a page holds `limit` rows or all there are, and a cursor comes back iff more are listed than a positive limit |
| Pagination.FollowIsExact | backend/app/services/trace_service.py:50-106 | following cursors terminates and yields the whole listing once, iff the page size is positive or nothing is to be listed |
| Pagination.WalkIsExact | backend/app/services/trace_service.py:50-106 | when the table changes between pages the items still descend strictly, each was a matching row of a snapshot, and a key present in every snapshot is returned once passed |
| RateLimiter.Limiter.Check | backend/app/core/ratelimit.py:15-43 | one check trims, adds, counts and re-expires the caller's key only, and answers by the count |
| RateLimiter.PipelineIs | backend/app/core/ratelimit.py:21-27 | a check leaves stored its own request and the unexpired ones younger than a window, for one second longer than the window |
| RateLimiter.StoredIsTheWindow | backend/app/core/ratelimit.py:21-27 | with a clock that never goes back, what is stored is every request, rejected ones too, of the last window, and expiring the key changes nothing |
| RateLimiter.DecisionIs | backend/app/core/ratelimit.py:27-43 | a request passes iff, with itself, at most `limit` requests fall in its window; the header says how many are left |
| RateLimiter.LimitHoldsUpToSkewAndRepeats | backend/app/core/ratelimit.py:15-43 | with clocks that go back by at most a skew of no more than one second, no half-open interval of window length less the skew has more than `limit` requests let through, plus one for each repeated member |
| RateLimiter.NoWindowExceedsTheLimit | backend/app/core/ratelimit.py:50-79 | with a clock that never goes back and distinct members, no half-open interval of window length has more than `limit` requests let through |
| RateLimiter.LimitHoldsIffNoOverfullRepeat | backend/app/core/ratelimit.py:21-27 | at one window and limit, with a clock that never goes back: whichever of a run's requests are made the limit holds, iff it is 0 or no interval of window length has more than `limit` requests with one member string twice among them |
| RateLimiter.SkewBreaksLongerIntervals | backend/app/core/ratelimit.py:16-27 | the bound is tight: for every window and skew a run lets three requests through at limit 2 in an interval one microsecond longer |
| Partitions.AddMonthsIsAdditive | backend/app/workers/maintenance.py:152-156 | adding months composes across year ends |
| Partitions.RangeIsTheMonth | backend/app/workers/maintenance.py:216-243 | a partition's range is exactly the month's days of the Gregorian calendar and meets the next month's |
| Partitions.EpochIs | backend/app/workers/maintenance.py:216-243 | the days are those of the calendar: 1970-01-01 is day 719162 after 0001-01-01 |
| Partitions.RangesAreDisjoint | backend/app/workers/maintenance.py:216-243 | an instant lies in the range of at most one month |
| Partitions.NamesAreDistinct | backend/app/workers/maintenance.py:159-160 | different months have different partition names |
| Partitions.NameIs | backend/app/workers/maintenance.py:159-160 | the name is the table, the year and the month with two digits |
| Partitions.FutureMonthsHave | backend/app/workers/maintenance.py:163-169 | the months looked at are exactly the next `lookahead` ones |
| Partitions.PartitionedTable.DefaultPartitionRowCount | backend/app/workers/maintenance.py:172-195 | the count is positive iff the default partition has a row in the range |
| Partitions.PartitionedTable.CreateMonthPartition | backend/app/workers/maintenance.py:216-260 | creates, finds or skips the month as specified |
| Partitions.CreateNextMonthPartition | backend/app/workers/maintenance.py:263-298 | the job does so for every month and both tables |
| Partitions.JobIs | backend/app/workers/maintenance.py:216-298 | after a job an upcoming month has a partition iff the default partition holds no row of it; other months are untouched and the tiling is kept |
| Partitions.TiledIsDisjoint | backend/app/workers/maintenance.py:236-243 | in every reachable catalogue an instant lies in at most one partition |
| Partitions.RunKeeps | backend/app/workers/maintenance.py:216-298 | over any history of inserts and jobs the tiling holds, partitions stay, and a month with a row in the default partition never gets one |
| Partitions.EveryMonthIsPrepared | backend/app/workers/maintenance.py:263-298 | if the job runs at least once per `lookahead` months and finds no default row in its months, every later month has its partition before it begins |
| Otlp.ExtractSpans | backend/app/services/otlp.py:55-97 | the nested loops collect the rows of all spans in order, or give nothing as soon as one raises |
| Otlp.AttrStrIs | backend/app/services/otlp.py:196-208 | provider and model come from the first of their attribute names that has a value, else the default |
| Otlp.AttrIntIs | backend/app/services/otlp.py:210-215 | token counts come from the first of their attribute names that is present, even if its value is no number, which counts as 0 |
| Otlp.LastAttributeCounts | backend/app/services/otlp.py:138-146 | of several attributes with one key the last counts |
| Otlp.HexIs | backend/app/services/otlp.py:99-104 | an id is two lower-case hexadecimal digits for each byte, the high one first |
| Otlp.IntOrZeroIs | backend/app/services/otlp.py:217-221 | a token count is the number itself, a truncated double, 0 or 1 for a boolean, what a decimal text says, and 0 for null, lists and dictionaries |
| Otlp.StatusErrorIs | backend/app/services/otlp.py:127-136 | a span has an error iff its status code is 2: the stripped message, or a fixed text when that is empty |
| Otlp.ProtoColumnsAre | backend/app/services/otlp.py:55-136 | every column of a protobuf span's row, from the fields of the span and the names of the attributes: ids, name, parent, provider, model, input and output tokens, error, latency as end minus start, start and metadata |
| Otlp.JsonTextsAre | backend/app/services/otlp.py:99-108 | the text columns of a JSON span come from its camel-case fields, else from the snake-case ones; an empty parent is none |
| Otlp.JsonTimesAre | backend/app/services/otlp.py:110-124 | so do its times, and latency is end minus start |
| Otlp.JsonAttributesAre | backend/app/services/otlp.py:138-146 | the columns of a JSON span that come from attributes, by their names |
| Otlp.JsonErrorIs | backend/app/services/otlp.py:127-136 | and its error, from the code and message of its status |
| OtlpEncodings.ValueDecodesIff | backend/app/services/otlp.py:158-194 | a JSON encoding of a value nested to any depth decodes iff no null stands where a number is converted, a value taken apart or a list iterated |
| OtlpEncodings.ValuesAgree | backend/app/services/otlp.py:158-194 | a readable value nested to any depth decodes the same from JSON as from protobuf, if it is faithful: no null field of another kind is read in its place, no key is null and no byte string is other than empty |
| OtlpEncodings.ValuesAgreeIff | backend/app/services/otlp.py:158-194 | with unique keys, at any depth, only then |
| OtlpEncodings.ScalarAgreesIff | backend/app/services/otlp.py:158-194 | for a value without parts those conditions are exact; a byte string agrees iff it is empty |
| OtlpEncodings.SpanAgrees | backend/app/services/otlp.py:99-146 | a span extracts from JSON iff its attributes are readable, whatever else is null or left out, and from protobuf iff it has an attribute; with faithful attributes the rows agree, and with unique keys only then |
| Otlp.ProtoParsesIff | backend/app/services/otlp.py:138-146 | a protobuf body parses iff every span has an attribute |
| OtlpEncodings.JsonParsesIff | backend/app/services/otlp.py:44-97 | a JSON body that encodes an export parses iff no null stands where the decoder iterates or takes apart |
| OtlpEncodings.EncodingsAgreeIff | backend/app/services/otlp.py:44-97 | JSON and protobuf body both parse and agree, up to the letter case of ids, if no null is in the way, all attributes are faithful and every span has one; for exports with unique attribute keys, if and only if |
| OtlpEncodings.NullAttributesLoseBody | backend/app/services/otlp.py:138-146 | one span with `"attributes": null` loses its whole body |
| Numerals.ParseIntOfDecimal | backend/app/services/otlp.py:217-221 | reading the decimal text of any integer gives it back |
| Numerals.StripIs | backend/app/services/otlp.py:135 | stripping an error message takes the blanks off both ends and leaves none there |

## Left out

- Races between transactions: `reserve` and `ensure_trace_row` are single steps. Under READ COMMITTED two retries of a FAILED key can both read it before either updates it (backend/app/services/ingest.py:188-220), so OneHolder, SuccessesAgree and the lemmas on orphaned keys hold for serial transactions only, and likewise the storage invariant when two batches write one trace row at once.
- Trace ids shared by projects: runs assume an owner per trace id; the StorageSafety lemmas on single writes and repeated batches do without that assumption.
- What a message list or dictionary contains: a body is one opaque value per span; that several spans may share one list, so that one change alters all of them, is one step with several changes.
- Retention in worker runs: retention deletes spans but not buckets, so the runs of StorageRuns and Delivery contain no retention.
- Payload storage, redaction and gzip: the worker's preparation of a span is a step that succeeds, fails for good or fails transiently; in Delivery the malformed spans are fixed beforehand.
- Batch status records, Prometheus metrics, anomaly checks and alert sending: side effects beside the storage protocol.
- Database limits: NUMERIC overflow, string lengths and the range of timestamps are not modelled.
- Decimal precision: cost arithmetic is exact; Python's 28-digit context is assumed not to be exceeded.
- Floating point: OTLP latencies, rate-limit clocks and span latencies are exact numbers; NaN and infinite doubles in OTLP are not modelled.
- Delivery and Outbox liveness: rows left PROCESSING, keys left PENDING and a head-of-line batch that is always refused have no recovery path in the code, so only their safety is stated.
- Tracer.LLMTracer.Shutdown: nothing is recorded while it flushes, for else it need not end; interleaved recording is part of the step machine in the same module.
- Cancelling the flush task inside `send_batch`: counted as a send that raised, which loses the popped batch.
- Decorators.Tracing.Execute: calls run one after another; concurrently gathered tasks, an absent tracer and a manual span constructed in another context than it is entered in are not modelled.
- Unparsable dates in `getSpanStart`: start instants are numbers, reduced to milliseconds as on the page.
- Pricing.CacheExactIffDisjoint: the catalogue does not change while caches hold entries; the `update_pricing` and `end_pricing` endpoints and the TTL of Redis entries appear only as evictions.
- The `model` filter of the trace list: the `traces` table has no such column, so the query fails.
- The text of pagination cursors: base64, JSON and the legacy form are taken as a pair of start instant and id text that is read back as written; text comparison is by code point.
- RateLimiter.Limiter.Check: Redis and the application read the same clock; response headers other than the remaining count are constants.
- Partition rows are never removed: the histories have no retention, which could empty the default partition; row-level security statements are left out.
- OtlpEncodings.EncodingsAgreeIff: for an export that breaks the rule of unique keys only the direction from faithful to agreeing is stated, since a later entry can hide an unfaithful one.
- Unusual OTLP JSON: attribute keys and byte strings that are neither text nor null, doubles written as text, null elements inside lists and text that is not JSON are not among the encodings, and the decoder's answer to the first three is taken to be a failure; `str` of a value that is not a string is kept symbolic.
- Authentication, roles, audit, webhooks, dashboards, percentiles, provider integrations and React rendering: library behaviour or single-branch code.
