/**
 What every run of the storage worker keeps, and what follows once the aggregate tasks are drained.
 */
module StorageSafety {
  import opened Options
  import opened SpanTable
  import opened MetricBuckets
  import opened ProcessSpan
  import opened StorageRuns

  // ---------------------------------------------------------------- one batch transaction

  lemma BatchKeepsSpans(owner: TraceId -> ProjectId, spans: seq<Span>, prepared: seq<Span>)
    requires DistinctKeys(spans) && AllOwned(owner, spans) && AllOwned(owner, prepared)
    ensures DistinctKeys(spans + Fresh(spans, prepared)) && AllOwned(owner, spans + Fresh(spans, prepared))
  {
    var inserted := Fresh(spans, prepared);
    FreshKeys(spans, prepared);
    forall i, j | 0 <= i < |spans| && 0 <= j < |inserted| ensures KeyOf(spans[i]) != KeyOf(inserted[j]) {
      assert spans[i] in spans && inserted[j] in inserted;
    }
  }

  lemma BatchKeepsStarts(owner: TraceId -> ProjectId, st: State, inserted: seq<Span>)
    requires Inv(owner, st) && AllOwned(owner, inserted)
    ensures var traces := EnsureAll(st.db.traces, Representatives(inserted)).0;
            OneRowPerTrace(owner, traces) && StartsAgree(owner, traces, st.db.spans + inserted)
  {
    RepresentativesAre(owner, inserted);
    EnsureAllStarts(owner, st.db.traces, Representatives(inserted));
    forall t ensures FirstStart(owner, st.db.spans + inserted, t)
                  == EarlierOf(FirstStart(owner, st.db.spans, t), FirstStart(owner, inserted, t)) {
      MinStartConcat(st.db.spans, inserted, Owned(owner, t));
    }
  }

  lemma BatchKeepsCovered(owner: TraceId -> ProjectId, st: State, inserted: seq<Span>, r: TraceRow)
    requires Inv(owner, st) && AllOwned(owner, inserted)
    requires r in EnsureAll(st.db.traces, Representatives(inserted)).0
    ensures Exact(r, st.db.spans + inserted)
         || TaskOf(r) in Outstanding(st) + multiset(EnsureAll(st.db.traces, Representatives(inserted)).1)
  {
    var reps := Representatives(inserted);
    var (after, tasks) := EnsureAll(st.db.traces, reps);
    RepresentativesAre(owner, inserted);
    EnsureAllStarts(owner, st.db.traces, reps);
    FirstStartNone(owner, reps, r.id);
    FirstStartNone(owner, inserted, r.id);
    EarliestRowIs(owner, after, r.id);
    if s :| s in reps && s.trace == r.id {
      EnsureAllTasks(owner, st.db.traces, reps, s);
      assert TaskOf(r) in tasks;
      assert TaskOf(r) in multiset(tasks);
    } else {
      EnsureAllUntouched(owner, st.db.traces, reps, r);
      TotalsIgnore(st.db.spans, inserted, OfTrace(r.project, r.id));
    }
  }

  lemma {:induction false} EnqueueAllMatches(outbox: seq<Event>, spans: seq<Span>, inserted: seq<Span>)
    requires OutboxMatches(outbox, spans)
    ensures OutboxMatches(EnqueueAll(outbox, inserted), spans + inserted)
  {
    if inserted == [] {
      assert spans + inserted == spans;
    } else {
      var init, s := inserted[..|inserted| - 1], inserted[|inserted| - 1];
      EnqueueAllMatches(outbox, spans, init);
      assert spans + inserted == (spans + init) + [s];
      EnqueueMatches(EnqueueAll(outbox, init), spans + init, s);
    }
  }

  lemma EnqueueMatches(outbox: seq<Event>, spans: seq<Span>, s: Span)
    requires OutboxMatches(outbox, spans)
    ensures OutboxMatches(EnqueueEvent(outbox, EventOf(s)), spans + [s])
  {
    var after := EnqueueEvent(outbox, EventOf(s));
    assert s in spans + [s];
    forall x | x in spans ensures x in spans + [s] {
    }
    forall x | x in spans + [s] ensures HasEvent(after, x.project, x.id) {
      if x in spans {
        var e :| e in outbox && e.project == x.project && e.key == x.id;
        assert e in after;
      } else if after != outbox {
        assert EventOf(s) in after;
      }
    }
    forall i | 0 <= i < |outbox| && after != outbox
      ensures (outbox[i].project, outbox[i].key) != (s.project, s.id)
    {
      assert outbox[i] in outbox;
    }
  }

  /** Every event in the outbox carries the project, id, name, latency and error flag of a stored span. */
  lemma EventsAreSpans(owner: TraceId -> ProjectId, steps: seq<Step>, e: Event)
    requires ValidRun(owner, INITIAL, steps) && e in Run(INITIAL, steps).db.outbox
    ensures exists s :: s in Run(INITIAL, steps).db.spans
                        && s.project == e.project && s.id == e.key && s.name == e.name
                        && s.latencyMs == e.latencyMs && s.isError == e.isError
  {
    ReachableInv(owner, steps);
    var s :| s in Run(INITIAL, steps).db.spans && EventOf(s) == e;
  }

  /** An event that a batch adds is that of the first inserted span with its project and id. */
  lemma {:induction false} AddedEventsAre(outbox: seq<Event>, inserted: seq<Span>, e: Event)
    requires e in EnqueueAll(outbox, inserted) && e !in outbox
    ensures !HasEvent(outbox, e.project, e.key)
    ensures exists i :: 0 <= i < |inserted|
                        && inserted[i].project == e.project && inserted[i].id == e.key && inserted[i].name == e.name
                        && inserted[i].latencyMs == e.latencyMs && inserted[i].isError == e.isError
                        && forall j :: 0 <= j < i ==> (inserted[j].project, inserted[j].id) != (e.project, e.key)
  {
    var init, last := inserted[..|inserted| - 1], inserted[|inserted| - 1];
    if e in EnqueueAll(outbox, init) {
      AddedEventsAre(outbox, init, e);
      var i :| 0 <= i < |init|
               && init[i].project == e.project && init[i].id == e.key && init[i].name == e.name
               && init[i].latencyMs == e.latencyMs && init[i].isError == e.isError
               && forall j :: 0 <= j < i ==> (init[j].project, init[j].id) != (e.project, e.key);
      assert inserted[i] == init[i] && forall j :: 0 <= j < i ==> inserted[j] == init[j];
    } else {
      EventsRemain(outbox, init);
      assert e == EventOf(last) && inserted[|inserted| - 1] == last;
      forall j | 0 <= j < |init| ensures (inserted[j].project, inserted[j].id) != (e.project, e.key) {
        assert init[j] in init;
      }
    }
  }

  /** Nothing leaves the outbox, and every inserted span has an event. */
  lemma {:induction false} EventsRemain(outbox: seq<Event>, inserted: seq<Span>)
    ensures outbox <= EnqueueAll(outbox, inserted)
    ensures forall s :: s in inserted ==> HasEvent(EnqueueAll(outbox, inserted), s.project, s.id)
    ensures forall p, k :: HasEvent(outbox, p, k) ==> HasEvent(EnqueueAll(outbox, inserted), p, k)
  {
    if inserted != [] {
      var init, last := inserted[..|inserted| - 1], inserted[|inserted| - 1];
      var before, after := EnqueueAll(outbox, init), EnqueueAll(outbox, inserted);
      EventsRemain(outbox, init);
      assert inserted == init + [last];
      assert before <= after;
      forall p, k | HasEvent(before, p, k) ensures HasEvent(after, p, k) {
        var e :| e in before && e.project == p && e.key == k;
        assert e in after;
      }
      assert HasEvent(after, last.project, last.id) by {
        if after != before {
          assert after == before + [EventOf(last)] && EventOf(last) in after;
        }
      }
    }
  }

  function AfterBatch(buckets: seq<Bucket>, p: ProjectId, inserted: seq<Span>): seq<Bucket> {
    if inserted == [] then buckets else UpdateBuckets(buckets, p, inserted)
  }

  /** The bucket of one minute after a batch: the stored one plus the batch's fold, rounded once. */
  lemma BatchAddsFold(buckets: seq<Bucket>, p: ProjectId, inserted: seq<Span>, q: ProjectId, m: Instant)
    requires DistinctBuckets(buckets) && forall s :: s in inserted ==> s.project == p
    ensures var after := AfterBatch(buckets, p, inserted);
            && DistinctBuckets(after)
            && Lookup(after, (q, m)) == Plus(Lookup(buckets, (q, m)), Rounded(FoldOf(inserted, q, m)))
            && (HasBucket(after, (q, m)) <==> HasBucket(buckets, (q, m)) || FoldOf(inserted, q, m).count > 0)
  {
    if inserted == [] {
      FoldIsEmpty([], q, m);
    } else {
      UpdateBucketsAddsFold(buckets, p, inserted, q, m);
    }
  }

  lemma BatchRefines(
    buckets: seq<Bucket>, spans: seq<Span>, p: ProjectId, inserted: seq<Span>, q: ProjectId, m: Instant)
    requires DistinctBuckets(buckets) && forall s :: s in inserted ==> s.project == p
    requires HasBucket(buckets, (q, m)) <==> FoldOf(spans, q, m).count > 0
    requires Lookup(buckets, (q, m)) == FoldOf(spans, q, m).(latency := Lookup(buckets, (q, m)).latency)
    ensures var after := AfterBatch(buckets, p, inserted);
            var fold := FoldOf(spans + inserted, q, m);
            && (HasBucket(after, (q, m)) <==> fold.count > 0)
            && Lookup(after, (q, m)) == fold.(latency := Lookup(after, (q, m)).latency)
  {
    FoldConcat(spans, inserted, q, m);
    BatchAddsFold(buckets, p, inserted, q, m);
    PlusKeepsCounts(FoldOf(spans, q, m), FoldOf(inserted, q, m), Lookup(buckets, (q, m)));
  }

  lemma PlusKeepsCounts(f: Acc, g: Acc, stored: Acc)
    requires stored == f.(latency := stored.latency)
    ensures Plus(stored, Rounded(g)) == Plus(f, g).(latency := Plus(stored, Rounded(g)).latency)
  {}

  lemma BatchKeepsBucket(st: State, p: ProjectId, inserted: seq<Span>, q: ProjectId, m: Instant)
    requires Refines(st.db.buckets, st.db.spans) && LatencyFollows(st)
    requires forall s :: s in inserted ==> s.project == p
    ensures var buckets := AfterBatch(st.db.buckets, p, inserted);
            && (HasBucket(buckets, (q, m)) <==> FoldOf(st.db.spans + inserted, q, m).count > 0)
            && Lookup(buckets, (q, m))
               == FoldOf(st.db.spans + inserted, q, m).(latency := Lookup(buckets, (q, m)).latency)
            && Lookup(buckets, (q, m)).latency == StoredLatency(st.history + [inserted], q, m)
  {
    assert (st.history + [inserted])[..|st.history|] == st.history;
    assert Lookup(st.db.buckets, (q, m)).latency == StoredLatency(st.history, q, m);
    BatchRefines(st.db.buckets, st.db.spans, p, inserted, q, m);
    BatchAddsFold(st.db.buckets, p, inserted, q, m);
  }

  lemma BatchKeepsBuckets(st: State, p: ProjectId, inserted: seq<Span>)
    requires Refines(st.db.buckets, st.db.spans) && LatencyFollows(st)
    requires forall s :: s in inserted ==> s.project == p
    ensures var buckets := AfterBatch(st.db.buckets, p, inserted);
            && Refines(buckets, st.db.spans + inserted)
            && Flatten(st.history + [inserted]) == st.db.spans + inserted
            && forall q, m :: Lookup(buckets, (q, m)).latency == StoredLatency(st.history + [inserted], q, m)
  {
    var buckets := AfterBatch(st.db.buckets, p, inserted);
    assert (st.history + [inserted])[..|st.history|] == st.history;
    BatchAddsFold(st.db.buckets, p, inserted, 0, 0);
    forall q, m
      ensures HasBucket(buckets, (q, m)) <==> FoldOf(st.db.spans + inserted, q, m).count > 0
      ensures Lookup(buckets, (q, m))
              == FoldOf(st.db.spans + inserted, q, m).(latency := Lookup(buckets, (q, m)).latency)
      ensures Lookup(buckets, (q, m)).latency == StoredLatency(st.history + [inserted], q, m)
    {
      BatchKeepsBucket(st, p, inserted, q, m);
    }
  }

  lemma CommitKeepsInv(owner: TraceId -> ProjectId, st: State, p: ProjectId, prepared: seq<Span>)
    requires Inv(owner, st) && Enabled(owner, st, Batch(p, prepared))
    ensures Inv(owner, Committed(st, p, prepared))
  {
    var inserted := Fresh(st.db.spans, prepared);
    FreshKeys(st.db.spans, prepared);
    BatchKeepsSpans(owner, st.db.spans, prepared);
    BatchKeepsStarts(owner, st, inserted);
    EnqueueAllMatches(st.db.outbox, st.db.spans, inserted);
    BatchKeepsBuckets(st, p, inserted);
    var after := Committed(st, p, prepared);
    forall r | r in after.db.traces ensures Exact(r, after.db.spans) || TaskOf(r) in Outstanding(after) {
      BatchKeepsCovered(owner, st, inserted, r);
    }
  }

  lemma BatchKeepsInv(owner: TraceId -> ProjectId, st: State, p: ProjectId, prepared: seq<Span>)
    requires Inv(owner, st) && Enabled(owner, st, Batch(p, prepared))
    ensures Next(st, Batch(p, prepared)) == Committed(st, p, prepared) && Inv(owner, Next(st, Batch(p, prepared)))
  {
    NeverAborts(owner, st, prepared);
    CommitKeepsInv(owner, st, p, prepared);
  }

  // ---------------------------------------------------------------- one aggregate task

  /** A task whose start is no longer the row's start changes nothing; a current one makes the row exact. */
  lemma TaskEffect(owner: TraceId -> ProjectId, st: State, task: Task, i: nat)
    requires Inv(owner, st) && i < |st.db.traces|
    ensures var r, r' := st.db.traces[i], Recompute(st.db.traces, st.db.spans, task)[i];
            && (r'.id, r'.project, r'.startedAt) == (r.id, r.project, r.startedAt)
            && (if TaskOf(r) == task then Exact(r', st.db.spans) else r' == r)
  {
    var r := st.db.traces[i];
    assert r in st.db.traces;
    EarliestRowIs(owner, st.db.traces, r.id);
    MinStartIsMinimum(st.db.spans, Owned(owner, r.id));
    assert FirstStart(owner, st.db.spans, r.id) == Some(r.startedAt);
    TotalsAgree(st.db.spans, OfTraceFrom(r.project, r.id, r.startedAt), OfTrace(r.project, r.id));
  }

  lemma {:induction false} SameStarts(traces: seq<TraceRow>, traces': seq<TraceRow>, p: ProjectId, t: TraceId)
    requires |traces| == |traces'|
    requires forall i :: 0 <= i < |traces| ==>
      (traces[i].id, traces[i].project, traces[i].startedAt)
          == (traces'[i].id, traces'[i].project, traces'[i].startedAt)
    ensures EarliestRow(traces, p, t) == EarliestRow(traces', p, t)
  {
    if traces != [] {
      SameStarts(traces[..|traces| - 1], traces'[..|traces| - 1], p, t);
    }
  }

  lemma TaskKeepsInv(owner: TraceId -> ProjectId, st: State, task: Task, acked: bool)
    requires Inv(owner, st) && Enabled(owner, st, RunTask(task, acked))
    ensures Inv(owner, Next(st, RunTask(task, acked)))
  {
    var after := Next(st, RunTask(task, acked));
    var traces, traces' := st.db.traces, after.db.traces;
    forall i | 0 <= i < |traces|
      ensures (traces'[i].id, traces'[i].project, traces'[i].startedAt)
              == (traces[i].id, traces[i].project, traces[i].startedAt)
      ensures Exact(traces'[i], st.db.spans) || TaskOf(traces'[i]) in Outstanding(after)
      ensures traces'[i].project == owner(traces'[i].id)
    {
      assert traces[i] in traces;
      TaskEffect(owner, st, task, i);
      if TaskOf(traces[i]) != task && !Exact(traces[i], st.db.spans) {
        assert TaskOf(traces[i]) in Outstanding(st);
      }
    }
    forall t ensures EarliestRow(traces', owner(t), t) == EarliestRow(traces, owner(t), t) {
      SameStarts(traces, traces', owner(t), t);
    }
  }

  // ---------------------------------------------------------------- every run

  lemma NextKeepsInv(owner: TraceId -> ProjectId, st: State, step: Step)
    requires Inv(owner, st) && Enabled(owner, st, step)
    ensures Inv(owner, Next(st, step))
  {
    match step
    case Batch(p, prepared) => BatchKeepsInv(owner, st, p, prepared);
    case RunTask(task, acked) => TaskKeepsInv(owner, st, task, acked);
    case Enqueue(task) => assert Outstanding(Next(st, step)) == Outstanding(st);
    case Lose(task) => assert Outstanding(Next(st, step)) == Outstanding(st);
    case Drop(task) => assert Outstanding(Next(st, step)) == Outstanding(st);
  }

  /** The invariant holds in every state that batches, redeliveries and tasks, also lost or dropped, can reach. */
  lemma {:induction false} ReachableInv(owner: TraceId -> ProjectId, steps: seq<Step>)
    requires ValidRun(owner, INITIAL, steps)
    ensures Inv(owner, Run(INITIAL, steps))
  {
    if steps != [] {
      ReachableInv(owner, steps[..|steps| - 1]);
      NextKeepsInv(owner, Run(INITIAL, steps[..|steps| - 1]), steps[|steps| - 1]);
    }
  }

  // ---------------------------------------------------------------- redelivery

  /** A batch whose keys are all stored inserts nothing, changes no table and asks for no task. */
  lemma {:induction false} StoredKeysInsertNothing(table: seq<Span>, batch: seq<Span>)
    requires forall s :: s in batch ==> HasKey(table, KeyOf(s))
    ensures Fresh(table, batch) == []
  {
    if batch != [] {
      assert batch[|batch| - 1] in batch;
      StoredKeysInsertNothing(table, batch[..|batch| - 1]);
    }
  }

  lemma StoredBatchIsIdentity(db: Tables, p: ProjectId, batch: seq<Span>)
    requires forall s :: s in batch ==> HasKey(db.spans, KeyOf(s))
    ensures CommitBatch(db, p, batch) == Commit(db, [], [])
  {
    StoredKeysInsertNothing(db.spans, batch);
    assert db.spans + [] == db.spans;
  }

  /**
   Re-running a committed batch, even with other costs, names or payload results, is the identity on all
   four tables. It also creates no task, so it cannot repair a lost one.
   */
  lemma RedeliveryChangesNothing(db: Tables, p: ProjectId, batch: seq<Span>, again: seq<Span>)
    requires forall s :: s in again ==> HasKey(batch, KeyOf(s))
    ensures var db' := CommitBatch(db, p, batch).tables;
            CommitBatch(db', p, again) == Commit(db', [], [])
  {
    var db' := CommitBatch(db, p, batch).tables;
    FreshKeys(db.spans, batch);
    forall s | s in again ensures HasKey(db'.spans, KeyOf(s)) {
      var b :| b in batch && KeyOf(b) == KeyOf(s);
    }
    StoredBatchIsIdentity(db', p, again);
  }

  function Iterate<S>(f: S -> S, s: S, n: nat): S {
    if n == 0 then s else f(Iterate(f, s, n - 1))
  }

  lemma {:induction false} IterateFixed<S>(f: S -> S, s: S, n: nat)
    requires f(s) == s
    ensures Iterate(f, s, n) == s
  {
    if n > 0 {
      IterateFixed(f, s, n - 1);
    }
  }

  function Taking(step: Step): State -> State {
    (st: State) => Next(st, step)
  }

  function Repeated(st: State, step: Step, n: nat): State {
    Iterate(Taking(step), st, n)
  }

  /** Any number of redeliveries of stored keys leaves tables, waiting tasks and lost tasks as they are. */
  lemma {:induction false} RedeliveriesChangeNothing(st: State, p: ProjectId, batch: seq<Span>, n: nat)
    requires forall s :: s in batch ==> HasKey(st.db.spans, KeyOf(s))
    ensures var after := Repeated(st, Batch(p, batch), n);
            (after.db, after.continuations, after.queue, after.lost) == (st.db, st.continuations, st.queue, st.lost)
  {
    if n > 0 {
      RedeliveriesChangeNothing(st, p, batch, n - 1);
      StoredBatchIsIdentity(st.db, p, batch);
      assert st.continuations + multiset([]) == st.continuations;
    }
  }

  function AfterLoss(s: Span): State {
    Next(Next(INITIAL, Batch(s.project, [s])), Lose(Task(s.project, s.trace, s.startedAt)))
  }

  /** Losing the one task of a new trace leaves its row wrong, and no number of redeliveries repairs it. */
  lemma LostTaskIsNotRepaired(s: Span, n: nat)
    ensures var delivery := Batch(s.project, [s]);
            var after := Repeated(AfterLoss(s), delivery, n);
            && after.continuations == after.queue == multiset{}
            && (after.db.spans, after.db.traces) == ([s], [NewTraceRow(s)])
            && !Exact(NewTraceRow(s), after.db.spans)
  {
    LostState(s);
    RedeliveriesChangeNothing(AfterLoss(s), s.project, [s], n);
  }

  function AfterDrop(s: Span): State {
    var task := Task(s.project, s.trace, s.startedAt);
    Next(Next(Next(INITIAL, Batch(s.project, [s])), Enqueue(task)), Drop(task))
  }

  /** Nor does redelivery repair it when the task was enqueued and its one run failed. */
  lemma DroppedTaskIsNotRepaired(s: Span, n: nat)
    ensures var delivery := Batch(s.project, [s]);
            var after := Repeated(AfterDrop(s), delivery, n);
            && after.continuations == after.queue == multiset{}
            && (after.db.spans, after.db.traces) == ([s], [NewTraceRow(s)])
            && !Exact(NewTraceRow(s), after.db.spans)
  {
    LostState(s);
    DropIsLoss(s);
    RedeliveriesChangeNothing(AfterDrop(s), s.project, [s], n);
  }

  lemma DropIsLoss(s: Span)
    ensures AfterDrop(s) == AfterLoss(s)
  {
    var st := Next(INITIAL, Batch(s.project, [s]));
    FirstState(s, st);
    EnqueueThenDrop(st, Task(s.project, s.trace, s.startedAt));
  }

  lemma EnqueueThenDrop(st: State, task: Task)
    requires st.continuations == multiset{task} && st.queue == multiset{}
    ensures Next(Next(st, Enqueue(task)), Drop(task)) == Next(st, Lose(task))
  {}

  lemma LostState(s: Span)
    ensures var lost := AfterLoss(s);
            && lost.continuations == lost.queue == multiset{}
            && (lost.db.spans, lost.db.traces) == ([s], [NewTraceRow(s)])
            && !Exact(NewTraceRow(s), [s])
            && forall x :: x in [s] ==> HasKey(lost.db.spans, KeyOf(x))
  {
    var task := Task(s.project, s.trace, s.startedAt);
    var st := Next(INITIAL, Batch(s.project, [s]));
    FirstState(s, st);
    LoseOnly(st, task);
    assert s in [s];
  }

  lemma LoseOnly(st: State, task: Task)
    requires st.continuations == multiset{task} && st.queue == multiset{}
    ensures var lost := Next(st, Lose(task));
            lost.continuations == lost.queue == multiset{} && lost.db == st.db
  {}

  lemma FirstState(s: Span, st: State)
    requires st == Next(INITIAL, Batch(s.project, [s]))
    ensures st.continuations == multiset{Task(s.project, s.trace, s.startedAt)} && st.queue == multiset{}
    ensures (st.db.spans, st.db.traces) == ([s], [NewTraceRow(s)])
    ensures !Exact(NewTraceRow(s), [s])
  {
    FirstBatch(s);
    var c := CommitBatch(INITIAL.db, s.project, [s]);
    assert st == Committed(INITIAL, s.project, [s]);
    assert st.db == c.tables && st.continuations == multiset{} + multiset(c.tasks);
  }

  lemma FirstBatch(s: Span)
    ensures var c := CommitBatch(INITIAL.db, s.project, [s]);
            (c.tables.spans, c.tables.traces, c.tasks)
                == ([s], [NewTraceRow(s)], [Task(s.project, s.trace, s.startedAt)])
    ensures !Aborts(INITIAL.db, [s])
    ensures !Exact(NewTraceRow(s), [s])
  {
    assert [s][..0] == [];
    assert Fresh([], [s]) == [s];
    assert Representatives([s]) == [s];
    var traces, tasks := [NewTraceRow(s)], [Task(s.project, s.trace, s.startedAt)];
    assert [] + [NewTraceRow(s)] == traces && [] + tasks == tasks;
    assert EnsureAll([], []) == ([], []);
    assert EnsureTraceRow([], s) == (traces, s.startedAt);
    SingleAborts(INITIAL.db, s);
    assert EnsureAll([], [s]) == (traces, tasks);
    assert Sum([s][..0], OfTrace(s.project, s.trace), Spans) == 0;
  }

  // ---------------------------------------------------------------- at most once

  /**
   In every reachable state: a span identity occurs in at most one row, a span id has at most one outbox
   event in its project, and each minute bucket counts exactly the stored spans of that minute.
   */
  lemma EffectsAtMostOnce(owner: TraceId -> ProjectId, steps: seq<Step>, p: ProjectId, m: Instant)
    requires ValidRun(owner, INITIAL, steps)
    ensures var db := Run(INITIAL, steps).db;
            && (forall i, j :: 0 <= i < j < |db.spans| ==> KeyOf(db.spans[i]) != KeyOf(db.spans[j]))
            && (forall i, j :: 0 <= i < j < |db.outbox| ==>
                  (db.outbox[i].project, db.outbox[i].key) != (db.outbox[j].project, db.outbox[j].key))
            && (forall s :: s in db.spans ==> HasEvent(db.outbox, s.project, s.id))
            && Lookup(db.buckets, (p, m)).count == Sum(db.spans, InMinute(p, m), Spans)
            && Lookup(db.buckets, (p, m)).errors == Sum(db.spans, InMinute(p, m), Errors)
            && Lookup(db.buckets, (p, m)).cost == Sum(db.spans, InMinute(p, m), Cost)
  {
    ReachableInv(owner, steps);
    var db := Run(INITIAL, steps).db;
    assert Lookup(db.buckets, (p, m)) == FoldOf(db.spans, p, m).(latency := Lookup(db.buckets, (p, m)).latency);
  }

  /** How many committed batches put a span into the minute. */
  function Contributions(history: seq<seq<Span>>, p: ProjectId, m: Instant): nat {
    if history == [] then 0
    else Contributions(history[..|history| - 1], p, m)
         + if Sum(history[|history| - 1], InMinute(p, m), Spans) > 0 then 1 else 0
  }

  lemma {:induction false} StoredLatencyError(history: seq<seq<Span>>, p: ProjectId, m: Instant)
    ensures var error := StoredLatency(history, p, m) - LatencySum(Flatten(history), InMinute(p, m));
            var bound := 0.0005 * Contributions(history, p, m) as real;
            -bound <= error <= bound
  {
    if history != [] {
      var init, last := history[..|history| - 1], history[|history| - 1];
      StoredLatencyError(init, p, m);
      LatencyConcat(Flatten(init), last, InMinute(p, m));
      RoundingError(LatencySum(last, InMinute(p, m)));
      if Sum(last, InMinute(p, m), Spans) == 0 {
        FoldIsEmpty(last, p, m);
      }
    }
  }

  /** The stored latency of a bucket is within 0.0005 ms per contributing batch of the true sum. */
  lemma BucketLatencyBound(owner: TraceId -> ProjectId, steps: seq<Step>, p: ProjectId, m: Instant)
    requires ValidRun(owner, INITIAL, steps)
    ensures var st := Run(INITIAL, steps);
            var error := Lookup(st.db.buckets, (p, m)).latency - LatencySum(st.db.spans, InMinute(p, m));
            var bound := 0.0005 * Contributions(st.history, p, m) as real;
            -bound <= error <= bound
  {
    ReachableInv(owner, steps);
    StoredLatencyError(Run(INITIAL, steps).history, p, m);
  }

  // ---------------------------------------------------------------- trace ids shared between projects

  /** The primary key of `traces`, which leaves the project out. */
  ghost predicate UniquePairs(traces: seq<TraceRow>) {
    forall i, j :: 0 <= i < j < |traces| ==> (traces[i].id, traces[i].startedAt) != (traces[j].id, traces[j].startedAt)
  }

  lemma {:induction false} EarliestRowExists(traces: seq<TraceRow>, p: ProjectId, t: TraceId)
    requires EarliestRow(traces, p, t).Some?
    ensures exists i :: 0 <= i < |traces| && (traces[i].project, traces[i].id) == (p, t)
                        && traces[i].startedAt == EarliestRow(traces, p, t).value
  {
    var init, r := traces[..|traces| - 1], traces[|traces| - 1];
    if EarliestRow(init, p, t) == EarliestRow(traces, p, t) {
      EarliestRowExists(init, p, t);
      var i :| 0 <= i < |init| && (init[i].project, init[i].id) == (p, t)
          && init[i].startedAt == EarliestRow(init, p, t).value;
      assert traces[i] == init[i];
    } else {
      assert (r.project, r.id) == (p, t) && r.startedAt == EarliestRow(traces, p, t).value;
    }
  }

  /** The statements keep the primary key exactly when the write is not blocked: blocked is the violation. */
  lemma BlockedIffKeyViolated(traces: seq<TraceRow>, s: Span)
    requires UniquePairs(traces)
    ensures UniquePairs(EnsureTraceRow(traces, s).0) <==> !MoveBlocked(traces, s)
  {
    var existing := EarliestRow(traces, s.project, s.trace);
    if existing.None? {
      if !HasTraceRow(traces, s.trace, s.startedAt) {
        forall i | 0 <= i < |traces| ensures (traces[i].id, traces[i].startedAt) != (s.trace, s.startedAt) {
          assert traces[i] in traces;
        }
      }
    } else if existing.value > s.startedAt {
      var after := MoveStart(traces, s.project, s.trace, existing.value, s.startedAt);
      EarliestRowExists(traces, s.project, s.trace);
      var i :| 0 <= i < |traces| && (traces[i].project, traces[i].id) == (s.project, s.trace)
          && traces[i].startedAt == existing.value;
      forall k | 0 <= k < |traces| && k != i ensures after[k] == traces[k] {
        assert (traces[k].id, traces[k].startedAt) != (traces[i].id, traces[i].startedAt);
      }
      if MoveBlocked(traces, s) {
        var r :| r in traces && r.id == s.trace && r.startedAt == s.startedAt;
        var j :| 0 <= j < |traces| && traces[j] == r;
        assert (after[i].id, after[i].startedAt) == (after[j].id, after[j].startedAt) && i != j;
      } else {
        forall k | 0 <= k < |traces| && k != i ensures (after[k].id, after[k].startedAt) != (s.trace, s.startedAt) {
          assert traces[k] in traces;
        }
      }
    }
  }

  /** Moving the earliest row of a trace makes the target its earliest start. */
  lemma {:induction false} MoveMovesEarliest(
    traces: seq<TraceRow>, p: ProjectId, t: TraceId, from: Instant, to: Instant)
    requires to < from && (EarliestRow(traces, p, t).Some? ==> EarliestRow(traces, p, t).value >= from)
    ensures EarliestRow(MoveStart(traces, p, t, from, to), p, t)
         == if EarliestRow(traces, p, t) == Some(from) then Some(to) else EarliestRow(traces, p, t)
  {
    if traces != [] {
      var init := traces[..|traces| - 1];
      MoveMovesEarliest(init, p, t, from, to);
      assert MoveStart(traces, p, t, from, to)[..|init|] == MoveStart(init, p, t, from, to);
    }
  }

  /**
   One write without the assumption that a trace has one project. It succeeds, with the project's row at the
   earlier of both starts, exactly when the project has no row and the pair (id, start) is free, or its row
   already starts early enough, or it starts later and the pair is free.
   */
  lemma TraceWriteIff(traces: seq<TraceRow>, s: Span)
    ensures var existing := EarliestRow(traces, s.project, s.trace);
            var free := !HasTraceRow(traces, s.trace, s.startedAt);
            !MoveBlocked(traces, s)
            && EarliestRow(EnsureTraceRow(traces, s).0, s.project, s.trace) == EarlierOf(existing, Some(s.startedAt))
            <==>
            || (existing.None? && free)
            || (existing.Some? && existing.value <= s.startedAt)
            || (existing.Some? && existing.value > s.startedAt && free)
  {
    var existing := EarliestRow(traces, s.project, s.trace);
    if existing.None? {
      assert (traces + [NewTraceRow(s)])[..|traces|] == traces;
    } else if existing.value > s.startedAt {
      MoveMovesEarliest(traces, s.project, s.trace, existing.value, s.startedAt);
    }
  }

  // ---------------------------------------------------------------- batches that abort

  /** Writing the row of another trace leaves what a trace write depends on. */
  ghost predicate SameFor(before: seq<TraceRow>, after: seq<TraceRow>, s: Span) {
    && EarliestRow(after, s.project, s.trace) == EarliestRow(before, s.project, s.trace)
    && (HasTraceRow(after, s.trace, s.startedAt) <==> HasTraceRow(before, s.trace, s.startedAt))
  }

  /** Moving rows of another trace, or of another project, leaves a project's earliest row of its trace. */
  lemma {:induction false} MoveKeepsEarliest(
    traces: seq<TraceRow>, q: ProjectId, u: TraceId, from: Instant, to: Instant, p: ProjectId, t: TraceId)
    requires (q, u) != (p, t)
    ensures EarliestRow(MoveStart(traces, q, u, from, to), p, t) == EarliestRow(traces, p, t)
  {
    if traces != [] {
      var init := traces[..|traces| - 1];
      MoveKeepsEarliest(init, q, u, from, to, p, t);
      assert MoveStart(traces, q, u, from, to)[..|init|] == MoveStart(init, q, u, from, to);
    }
  }

  lemma MoveKeepsRow(
    traces: seq<TraceRow>, q: ProjectId, u: TraceId, from: Instant, to: Instant, t: TraceId, at: Instant)
    requires u != t || from != at
    ensures HasTraceRow(traces, t, at) ==> HasTraceRow(MoveStart(traces, q, u, from, to), t, at)
    ensures u != t ==> (HasTraceRow(MoveStart(traces, q, u, from, to), t, at) ==> HasTraceRow(traces, t, at))
  {
    var after := MoveStart(traces, q, u, from, to);
    if r :| r in traces && r.id == t && r.startedAt == at {
      var i :| 0 <= i < |traces| && traces[i] == r;
      assert after[i] == r;
    }
    if r :| u != t && r in after && r.id == t && r.startedAt == at {
      var i :| 0 <= i < |after| && after[i] == r;
      assert traces[i] == r;
    }
  }

  lemma OtherTraceSame(traces: seq<TraceRow>, x: Span, s: Span)
    requires x.trace != s.trace
    ensures SameFor(traces, EnsureTraceRow(traces, x).0, s)
  {
    var existing := EarliestRow(traces, x.project, x.trace);
    if existing.None? {
      assert (traces + [NewTraceRow(x)])[..|traces|] == traces;
    } else if existing.value > x.startedAt {
      MoveKeepsEarliest(traces, x.project, x.trace, existing.value, x.startedAt, s.project, s.trace);
      MoveKeepsRow(traces, x.project, x.trace, existing.value, x.startedAt, s.trace, s.startedAt);
    }
  }

  lemma {:induction false} OtherTracesSame(traces: seq<TraceRow>, reps: seq<Span>, s: Span)
    requires forall x :: x in reps ==> x.trace != s.trace
    ensures SameFor(traces, EnsureAll(traces, reps).0, s)
  {
    if reps != [] {
      OtherTracesSame(traces, reps[..|reps| - 1], s);
      OtherTraceSame(EnsureAll(traces, reps[..|reps| - 1]).0, reps[|reps| - 1], s);
    }
  }

  ghost predicate SomeMoveBlocked(traces: seq<TraceRow>, reps: seq<Span>) {
    exists s :: s in reps && MoveBlocked(traces, s)
  }

  lemma SomeMoveBlockedOnLast(traces: seq<TraceRow>, reps: seq<Span>)
    requires reps != []
    ensures SomeMoveBlocked(traces, reps)
            <==> SomeMoveBlocked(traces, reps[..|reps| - 1]) || MoveBlocked(traces, reps[|reps| - 1])
  {
    assert reps == reps[..|reps| - 1] + [reps[|reps| - 1]];
    assert forall s :: s in reps <==> s in reps[..|reps| - 1] || s == reps[|reps| - 1];
  }

  lemma LastIsOther(reps: seq<Span>)
    requires DistinctTraces(reps) && reps != []
    ensures DistinctTraces(reps[..|reps| - 1])
    ensures forall x :: x in reps[..|reps| - 1] ==> x.trace != reps[|reps| - 1].trace
  {}

  /** The writes of one transaction do not get in each other's way: it is blocked iff one of them is at its start. */
  lemma {:induction false} BlockedIff(traces: seq<TraceRow>, reps: seq<Span>)
    requires DistinctTraces(reps)
    ensures Blocked(traces, reps) <==> SomeMoveBlocked(traces, reps)
  {
    if reps != [] {
      var init, last := reps[..|reps| - 1], reps[|reps| - 1];
      LastIsOther(reps);
      BlockedIff(traces, init);
      OtherTracesSame(traces, init, last);
      SomeMoveBlockedOnLast(traces, reps);
    }
  }

  /**
   A batch aborts if and only if, in the tables before it, the project's row of some trace starts later than the
   earliest new span of that trace and another row holds the pair that it would move to.
   */
  lemma AbortsIff(db: Tables, batch: seq<Span>)
    ensures Aborts(db, batch) <==>
            SomeMoveBlocked(db.traces, Representatives(Fresh(db.spans, batch)))
  {
    RepresentativesDistinct(Fresh(db.spans, batch));
    BlockedIff(db.traces, Representatives(Fresh(db.spans, batch)));
  }

  /** A write of the same trace that is not earlier leaves a blocked write blocked. */
  lemma WriteKeepsBlock(traces: seq<TraceRow>, x: Span, s: Span)
    requires MoveBlocked(traces, s) && !MoveBlocked(traces, x)
    requires x.trace == s.trace ==> x.startedAt >= s.startedAt
    ensures MoveBlocked(EnsureTraceRow(traces, x).0, s)
  {
    var existing := EarliestRow(traces, x.project, x.trace);
    if x.trace != s.trace {
      OtherTraceSame(traces, x, s);
    } else if existing.None? {
      assert (traces + [NewTraceRow(x)])[..|traces|] == traces;
    } else if existing.value > x.startedAt {
      MoveKeepsRow(traces, x.project, x.trace, existing.value, x.startedAt, s.trace, s.startedAt);
      if x.project == s.project {
        MoveMovesEarliest(traces, x.project, x.trace, existing.value, x.startedAt);
      } else {
        MoveKeepsEarliest(traces, x.project, x.trace, existing.value, x.startedAt, s.project, s.trace);
      }
    }
  }

  lemma {:induction false} WritesKeepBlock(traces: seq<TraceRow>, reps: seq<Span>, s: Span)
    requires MoveBlocked(traces, s) && !Blocked(traces, reps)
    requires forall x :: x in reps && x.trace == s.trace ==> x.startedAt >= s.startedAt
    ensures MoveBlocked(EnsureAll(traces, reps).0, s)
  {
    if reps != [] {
      WritesKeepBlock(traces, reps[..|reps| - 1], s);
      WriteKeepsBlock(EnsureAll(traces, reps[..|reps| - 1]).0, reps[|reps| - 1], s);
    }
  }

  lemma {:induction false} TaskKeepsTrace(traces: seq<TraceRow>, spans: seq<Span>, task: Task, s: Span)
    ensures SameFor(traces, Recompute(traces, spans, task), s)
  {
    if traces != [] {
      var init := traces[..|traces| - 1];
      TaskKeepsTrace(init, spans, task, s);
      assert Recompute(traces, spans, task)[..|init|] == Recompute(init, spans, task);
      HasOnLast(traces, s);
      HasOnLast(Recompute(traces, spans, task), s);
    }
  }

  lemma HasOnLast(traces: seq<TraceRow>, s: Span)
    requires traces != []
    ensures var r := traces[|traces| - 1];
            HasTraceRow(traces, s.trace, s.startedAt) <==>
            HasTraceRow(traces[..|traces| - 1], s.trace, s.startedAt) || (r.id == s.trace && r.startedAt == s.startedAt)
  {
    assert traces == traces[..|traces| - 1] + [traces[|traces| - 1]];
  }

  /** What is inserted only matters for the identities of the batch. */
  lemma {:induction false} FreshSame(table: seq<Span>, more: seq<Span>, batch: seq<Span>)
    requires forall s :: s in batch ==> (HasKey(table, KeyOf(s)) <==> HasKey(more, KeyOf(s)))
    ensures Fresh(table, batch) == Fresh(more, batch)
  {
    if batch != [] {
      assert batch[|batch| - 1] in batch;
      FreshSame(table, more, batch[..|batch| - 1]);
    }
  }

  /** The step stores no identity of the batch, and no span of the trace that is earlier than `s`. */
  ghost predicate StoresNothingBefore(st: State, step: Step, batch: seq<Span>, s: Span) {
    step.Batch? && !Aborts(st.db, step.prepared) ==>
      forall x :: x in Fresh(st.db.spans, step.prepared) ==>
        && (x.trace == s.trace ==> x.startedAt >= s.startedAt)
        && forall y :: y in batch ==> KeyOf(x) != KeyOf(y)
  }

  ghost predicate NothingBefore(st: State, steps: seq<Step>, batch: seq<Span>, s: Span) {
    steps == [] ||
    (var init := steps[..|steps| - 1];
     NothingBefore(st, init, batch, s) && StoresNothingBefore(Run(st, init), steps[|steps| - 1], batch, s))
  }

  lemma StepKeepsBlock(st: State, step: Step, batch: seq<Span>, s: Span)
    requires s in Representatives(Fresh(st.db.spans, batch)) && MoveBlocked(st.db.traces, s)
    requires StoresNothingBefore(st, step, batch, s)
    ensures var after := Next(st, step);
            s in Representatives(Fresh(after.db.spans, batch)) && MoveBlocked(after.db.traces, s)
  {
    match step
    case Batch(p, other) =>
      if !Aborts(st.db, other) {
        var inserted := Fresh(st.db.spans, other);
        RepresentativesDistinct(inserted);
        WritesKeepBlock(st.db.traces, Representatives(inserted), s);
        FreshSame(st.db.spans, st.db.spans + inserted, batch);
      }
    case RunTask(task, acked) => TaskKeepsTrace(st.db.traces, st.db.spans, task, s);
    case _ =>
  }

  /**
   A batch that aborts over a span `s` aborts again on every redelivery, whatever other steps run in between, until
   some batch stores one of its identities or an earlier span of the trace of `s`.
   */
  lemma {:induction false} AbortRepeats(st: State, steps: seq<Step>, batch: seq<Span>, s: Span)
    requires s in Representatives(Fresh(st.db.spans, batch)) && MoveBlocked(st.db.traces, s)
    requires NothingBefore(st, steps, batch, s)
    ensures var after := Run(st, steps);
            && s in Representatives(Fresh(after.db.spans, batch)) && MoveBlocked(after.db.traces, s)
            && Aborts(after.db, batch)
  {
    if steps != [] {
      var init := steps[..|steps| - 1];
      AbortRepeats(st, init, batch, s);
      StepKeepsBlock(Run(st, init), steps[|steps| - 1], batch, s);
    }
    AbortsIff(Run(st, steps).db, batch);
  }

  /** A batch of one span aborts exactly when its span's trace write is blocked. */
  lemma SingleAborts(db: Tables, s: Span)
    requires !HasKey(db.spans, KeyOf(s))
    ensures Aborts(db, [s]) <==> MoveBlocked(db.traces, s)
  {
    assert [s][..0] == [] && [] + [s] == [s];
    assert !HasKey([], KeyOf(s));
    assert Fresh(db.spans, [s]) == [s];
    assert Representatives([s]) == [s];
    assert EnsureAll(db.traces, []) == (db.traces, []) && !Blocked(db.traces, []);
    assert Blocked(db.traces, [s]) == MoveBlocked(db.traces, s);
  }

  /** Project 0 has trace 7 from instant 10 on, project 1 has it at 5. */
  function SharedTraces(totals: Totals): seq<TraceRow> {
    [TraceRow(7, 0, 10, totals), TraceRow(7, 1, 5, totals)]
  }

  function SharedState(totals: Totals): State {
    INITIAL.(db := INITIAL.db.(traces := SharedTraces(totals)))
  }

  lemma SharedStarts(totals: Totals)
    ensures UniquePairs(SharedTraces(totals))
    ensures EarliestRow(SharedTraces(totals), 0, 7) == Some(10) && EarliestRow(SharedTraces(totals), 1, 7) == Some(5)
    ensures HasTraceRow(SharedTraces(totals), 7, 5) && !HasTraceRow(SharedTraces(totals), 7, 3)
  {
    var traces := SharedTraces(totals);
    assert traces[..1] == [traces[0]] && [traces[0]][..0] == [];
    assert EarliestRow([], 0, 7) == EarliestRow([], 1, 7) == None;
    assert EarliestRow([traces[0]], 0, 7) == Some(10) && EarliestRow([traces[0]], 1, 7) == None;
    assert traces[1] in traces;
  }

  /** There, a span of project 0 at 5 fails its batch: storing it would break the primary key. */
  lemma SharedTraceAborts(s: Span, totals: Totals)
    requires (s.project, s.trace, s.startedAt) == (0, 7, 5)
    ensures Aborts(SharedState(totals).db, [s]) && Next(SharedState(totals), Batch(0, [s])) == SharedState(totals)
    ensures !UniquePairs(EnsureTraceRow(SharedTraces(totals), s).0)
  {
    SharedStarts(totals);
    BlockedIffKeyViolated(SharedTraces(totals), s);
    SingleAborts(SharedState(totals).db, s);
  }

  lemma OneSpanCommit(db: Tables, x: Span)
    requires !HasKey(db.spans, KeyOf(x))
    ensures CommitBatch(db, x.project, [x]).tables.spans == db.spans + [x]
    ensures CommitBatch(db, x.project, [x]).tables.traces == EnsureTraceRow(db.traces, x).0
  {
    assert [x][..0] == [] && [] + [x] == [x];
    assert Fresh(db.spans, [x]) == [x];
    assert Representatives([x]) == [x];
    assert EnsureAll(db.traces, []) == (db.traces, []);
    assert EnsureAll(db.traces, [x]).0 == EnsureTraceRow(db.traces, x).0;
  }

  lemma ReleasedState(x: Span, totals: Totals)
    requires (x.project, x.trace, x.startedAt) == (1, 7, 3)
    ensures var released := Next(SharedState(totals), Batch(1, [x]));
            && !Aborts(SharedState(totals).db, [x]) && released.db.spans == [x]
            && released.db.traces == [TraceRow(7, 0, 10, totals), TraceRow(7, 1, 3, totals)]
  {
    var st := SharedState(totals);
    SharedStarts(totals);
    SingleAborts(st.db, x);
    OneSpanCommit(st.db, x);
    assert [] + [x] == [x];
    assert Next(st, Batch(1, [x])) == Committed(st, 1, [x]);
    MovedRow(x, totals);
  }

  lemma MovedRow(x: Span, totals: Totals)
    requires (x.project, x.trace, x.startedAt) == (1, 7, 3)
    ensures EnsureTraceRow(SharedTraces(totals), x).0 == [TraceRow(7, 0, 10, totals), TraceRow(7, 1, 3, totals)]
  {
    SharedStarts(totals);
    assert MoveStart(SharedTraces(totals), 1, 7, 5, 3) == [TraceRow(7, 0, 10, totals), TraceRow(7, 1, 3, totals)];
  }

  /** Until project 1 stores a span of the trace at 3, which moves its row out of the way. */
  lemma EarlierSpanReleases(s: Span, x: Span, totals: Totals)
    requires (s.project, s.trace, s.startedAt) == (0, 7, 5) && (x.project, x.trace, x.startedAt) == (1, 7, 3)
    ensures var released := Next(SharedState(totals), Batch(1, [x]));
            Aborts(SharedState(totals).db, [s]) && !Aborts(SharedState(totals).db, [x]) && !Aborts(released.db, [s])
  {
    var released := Next(SharedState(totals), Batch(1, [x]));
    SharedTraceAborts(s, totals);
    ReleasedState(x, totals);
    assert !HasTraceRow(released.db.traces, 7, 5);
    SingleAborts(released.db, s);
  }
}
