/**
 Whole runs of the storage worker: batch transactions, post-commit enqueues that succeed or get lost,
 and aggregate tasks in any order, repeated, stale, dropped or re-issued by an operator.
 */
module StorageRuns {
  import opened Options
  import opened SpanTable
  import opened MetricBuckets
  import opened ProcessSpan

  /**
   `continuations` are the tasks a worker still has to enqueue after its commit, `lost` those whose enqueue
   raised or whose run failed: the aggregate task is not retried. `history` lists what each committed batch
   really inserted.
   */
  datatype State = State(
    db: Tables, continuations: multiset<Task>, queue: multiset<Task>, lost: multiset<Task>, history: seq<seq<Span>>)

  const INITIAL := State(Tables([], [], [], []), multiset{}, multiset{}, multiset{}, [])

  datatype Step =
    | Batch(project: ProjectId, prepared: seq<Span>)  // first delivery or redelivery; may abort and change nothing
    | Enqueue(task: Task)
    | Lose(task: Task)
    | Drop(task: Task)                                // taken off the queue, then its UPDATE or its worker failed
    | RunTask(task: Task, acked: bool)                // unacknowledged tasks run again

  ghost predicate Enabled(owner: TraceId -> ProjectId, st: State, step: Step) {
    match step
    case Batch(p, prepared) => forall s :: s in prepared ==> s.project == p == owner(s.trace)
    case Enqueue(task) => task in st.continuations
    case Lose(task) => task in st.continuations
    case Drop(task) => task in st.queue
    case RunTask(task, acked) => acked ==> task in st.queue
  }

  function Committed(st: State, p: ProjectId, prepared: seq<Span>): State {
    var c := CommitBatch(st.db, p, prepared);
    st.(db := c.tables, continuations := st.continuations + multiset(c.tasks), history := st.history + [c.inserted])
  }

  function Next(st: State, step: Step): State {
    match step
    case Batch(p, prepared) => if Aborts(st.db, prepared) then st else Committed(st, p, prepared)
    case Enqueue(task) =>
      st.(continuations := st.continuations - multiset{task}, queue := st.queue + multiset{task})
    case Lose(task) =>
      st.(continuations := st.continuations - multiset{task}, lost := st.lost + multiset{task})
    case Drop(task) =>
      st.(queue := st.queue - multiset{task}, lost := st.lost + multiset{task})
    case RunTask(task, acked) =>
      st.(db := st.db.(traces := Recompute(st.db.traces, st.db.spans, task)),
          queue := if acked then st.queue - multiset{task} else st.queue)
  }

  function Run(st: State, steps: seq<Step>): State {
    if steps == [] then st else Next(Run(st, steps[..|steps| - 1]), steps[|steps| - 1])
  }

  ghost predicate ValidRun(owner: TraceId -> ProjectId, st: State, steps: seq<Step>) {
    steps == [] ||
    (ValidRun(owner, st, steps[..|steps| - 1]) && Enabled(owner, Run(st, steps[..|steps| - 1]), steps[|steps| - 1]))
  }

  // ---------------------------------------------------------------- the invariant

  ghost predicate OneRowPerTrace(owner: TraceId -> ProjectId, traces: seq<TraceRow>) {
    && (forall i, j :: 0 <= i < j < |traces| ==> traces[i].id != traces[j].id)
    && (forall r :: r in traces ==> r.project == owner(r.id))
  }

  function Owned(owner: TraceId -> ProjectId, t: TraceId): Selector {
    OfTrace(owner(t), t)
  }

  ghost predicate StartsAgree(owner: TraceId -> ProjectId, traces: seq<TraceRow>, spans: seq<Span>) {
    forall t :: EarliestRow(traces, owner(t), t) == FirstStart(owner, spans, t)
  }

  ghost predicate Exact(r: TraceRow, spans: seq<Span>) {
    r.totals == TotalsOf(spans, OfTrace(r.project, r.id))
  }

  function TaskOf(r: TraceRow): Task {
    Task(r.project, r.id, r.startedAt)
  }

  function Outstanding(st: State): multiset<Task> {
    st.continuations + st.queue + st.lost
  }

  ghost predicate Covered(st: State) {
    forall r :: r in st.db.traces ==> Exact(r, st.db.spans) || TaskOf(r) in Outstanding(st)
  }

  /** One outbox event per span id of a project, and none for anything else. */
  ghost predicate OutboxMatches(outbox: seq<Event>, spans: seq<Span>) {
    && (forall i, j :: 0 <= i < j < |outbox| ==>
          (outbox[i].project, outbox[i].key) != (outbox[j].project, outbox[j].key))
    && (forall e :: e in outbox ==> exists s :: s in spans && EventOf(s) == e)
    && (forall s :: s in spans ==> HasEvent(outbox, s.project, s.id))
  }

  function Flatten(history: seq<seq<Span>>): seq<Span> {
    if history == [] then [] else Flatten(history[..|history| - 1]) + history[|history| - 1]
  }

  /** The latency a bucket stores: one rounded contribution per batch. */
  function StoredLatency(history: seq<seq<Span>>, p: ProjectId, m: Instant): real {
    if history == [] then 0.0
    else StoredLatency(history[..|history| - 1], p, m)
         + RoundMillis(LatencySum(history[|history| - 1], InMinute(p, m)))
  }

  ghost predicate LatencyFollows(st: State) {
    && Flatten(st.history) == st.db.spans
    && forall p, m :: Lookup(st.db.buckets, (p, m)).latency == StoredLatency(st.history, p, m)
  }

  ghost predicate Inv(owner: TraceId -> ProjectId, st: State) {
    && DistinctKeys(st.db.spans)
    && AllOwned(owner, st.db.spans)
    && OneRowPerTrace(owner, st.db.traces)
    && StartsAgree(owner, st.db.traces, st.db.spans)
    && Covered(st)
    && OutboxMatches(st.db.outbox, st.db.spans)
    && Refines(st.db.buckets, st.db.spans)
    && LatencyFollows(st)
  }

  // ---------------------------------------------------------------- trace rows under a batch

  lemma {:induction false} EarliestRowIs(owner: TraceId -> ProjectId, traces: seq<TraceRow>, t: TraceId)
    requires OneRowPerTrace(owner, traces)
    ensures EarliestRow(traces, owner(t), t).None? <==> forall r :: r in traces ==> r.id != t
    ensures forall r :: r in traces && r.id == t ==> EarliestRow(traces, owner(t), t) == Some(r.startedAt)
  {
    if traces != [] {
      var init, last := traces[..|traces| - 1], traces[|traces| - 1];
      assert traces == init + [last];
      EarliestRowIs(owner, init, t);
      forall r | r in init ensures r.id != last.id {
        var i :| 0 <= i < |init| && init[i] == r;
        assert traces[i].id != traces[|traces| - 1].id;
      }
    }
  }

  /** Lowering the start of the one row of a trace leaves every other row alone. */
  lemma MoveEffect(owner: TraceId -> ProjectId, traces: seq<TraceRow>, t: TraceId, from: Instant, to: Instant)
    requires OneRowPerTrace(owner, traces) && exists r :: r in traces && r.id == t && r.startedAt == from
    ensures var after := MoveStart(traces, owner(t), t, from, to);
            && OneRowPerTrace(owner, after)
            && (exists r :: r in after && r.id == t && r.startedAt == to)
            && (forall r: TraceRow :: r.id != t ==> (r in after <==> r in traces))
  {
    var after := MoveStart(traces, owner(t), t, from, to);
    var moved :| moved in traces && moved.id == t && moved.startedAt == from;
    var k :| 0 <= k < |traces| && traces[k] == moved;
    assert after[k] == moved.(startedAt := to) && after[k] in after;
    forall r: TraceRow | r.id != t ensures r in after <==> r in traces {
      if r in traces {
        var i :| 0 <= i < |traces| && traces[i] == r;
        assert after[i] == r;
      }
    }
    forall r | r in after ensures r.project == owner(r.id) {
      var i :| 0 <= i < |after| && after[i] == r;
      assert traces[i] in traces;
    }
  }

  lemma AppendEffect(owner: TraceId -> ProjectId, traces: seq<TraceRow>, added: TraceRow)
    requires OneRowPerTrace(owner, traces) && added.project == owner(added.id)
    requires forall r :: r in traces ==> r.id != added.id
    ensures OneRowPerTrace(owner, traces + [added])
  {
    forall i | 0 <= i < |traces| ensures traces[i].id != added.id {
      assert traces[i] in traces;
    }
  }

  lemma EnsureTraceRowEffect(owner: TraceId -> ProjectId, traces: seq<TraceRow>, s: Span)
    requires OneRowPerTrace(owner, traces) && s.project == owner(s.trace)
    ensures var (after, start) := EnsureTraceRow(traces, s);
            && OneRowPerTrace(owner, after)
            && Some(start) == EarlierOf(EarliestRow(traces, s.project, s.trace), Some(s.startedAt))
            && (exists r :: r in after && r.id == s.trace && r.startedAt == start)
            && (forall r: TraceRow :: r.id != s.trace ==> (r in after <==> r in traces))
  {
    EarliestRowIs(owner, traces, s.trace);
    var existing := EarliestRow(traces, s.project, s.trace);
    if existing.None? {
      AppendEffect(owner, traces, NewTraceRow(s));
      assert NewTraceRow(s) in traces + [NewTraceRow(s)];
    } else {
      var r :| r in traces && r.id == s.trace;
      assert r.startedAt == existing.value;
      if existing.value > s.startedAt {
        MoveEffect(owner, traces, s.trace, existing.value, s.startedAt);
      }
    }
  }

  ghost predicate AllOwned(owner: TraceId -> ProjectId, rows: seq<Span>) {
    forall s :: s in rows ==> s.project == owner(s.trace)
  }

  ghost predicate DistinctTraces(rows: seq<Span>) {
    forall i, j :: 0 <= i < j < |rows| ==> rows[i].trace != rows[j].trace
  }

  /** The first start of a trace among spans or representatives; `None` when the trace does not occur. */
  function FirstStart(owner: TraceId -> ProjectId, rows: seq<Span>, t: TraceId): Option<Instant> {
    MinStart(rows, Owned(owner, t))
  }

  lemma FirstStartNone(owner: TraceId -> ProjectId, rows: seq<Span>, t: TraceId)
    requires AllOwned(owner, rows)
    ensures FirstStart(owner, rows, t).None? <==> forall s :: s in rows ==> s.trace != t
  {
    MinStartIsMinimum(rows, Owned(owner, t));
  }

  lemma StartsAfterEnsure(owner: TraceId -> ProjectId, traces: seq<TraceRow>, s: Span)
    requires OneRowPerTrace(owner, traces) && s.project == owner(s.trace)
    ensures forall t ::
              EarliestRow(EnsureTraceRow(traces, s).0, owner(t), t)
              == EarlierOf(EarliestRow(traces, owner(t), t), if t == s.trace then Some(s.startedAt) else None)
  {
    forall t ensures EarliestRow(EnsureTraceRow(traces, s).0, owner(t), t)
         == EarlierOf(EarliestRow(traces, owner(t), t), if t == s.trace then Some(s.startedAt) else None)
    {
      EnsureTraceRowEffect(owner, traces, s);
      EarliestRowIs(owner, traces, t);
      EarliestRowIs(owner, EnsureTraceRow(traces, s).0, t);
    }
  }

  /** The loop over representatives lowers every stored start to the minimum with the batch. */
  lemma {:induction false} EnsureAllStarts(owner: TraceId -> ProjectId, traces: seq<TraceRow>, reps: seq<Span>)
    requires OneRowPerTrace(owner, traces) && AllOwned(owner, reps)
    ensures OneRowPerTrace(owner, EnsureAll(traces, reps).0)
    ensures forall t :: EarliestRow(EnsureAll(traces, reps).0, owner(t), t)
                     == EarlierOf(EarliestRow(traces, owner(t), t), FirstStart(owner, reps, t))
  {
    if reps != [] {
      var init, s := reps[..|reps| - 1], reps[|reps| - 1];
      assert s in reps;
      EnsureAllStarts(owner, traces, init);
      EnsureTraceRowEffect(owner, EnsureAll(traces, init).0, s);
      StartsAfterEnsure(owner, EnsureAll(traces, init).0, s);
    }
  }

  /** When every trace has one project, no transaction aborts. */
  lemma {:induction false} NeverBlocked(owner: TraceId -> ProjectId, traces: seq<TraceRow>, reps: seq<Span>)
    requires OneRowPerTrace(owner, traces) && AllOwned(owner, reps)
    ensures !Blocked(traces, reps)
  {
    if reps != [] {
      var init, s := reps[..|reps| - 1], reps[|reps| - 1];
      assert s in reps;
      NeverBlocked(owner, traces, init);
      EnsureAllStarts(owner, traces, init);
      EarliestRowIs(owner, EnsureAll(traces, init).0, s.trace);
    }
  }

  lemma NeverAborts(owner: TraceId -> ProjectId, st: State, prepared: seq<Span>)
    requires Inv(owner, st) && AllOwned(owner, prepared)
    ensures !Aborts(st.db, prepared)
  {
    FreshKeys(st.db.spans, prepared);
    RepresentativesAre(owner, Fresh(st.db.spans, prepared));
    NeverBlocked(owner, st.db.traces, Representatives(Fresh(st.db.spans, prepared)));
  }

  /** Rows of traces that are not in the batch stay as they are. */
  lemma {:induction false} EnsureAllUntouched(
    owner: TraceId -> ProjectId, traces: seq<TraceRow>, reps: seq<Span>, r: TraceRow)
    requires OneRowPerTrace(owner, traces) && AllOwned(owner, reps)
    requires forall s :: s in reps ==> s.trace != r.id
    ensures r in EnsureAll(traces, reps).0 <==> r in traces
  {
    if reps != [] {
      var init, s := reps[..|reps| - 1], reps[|reps| - 1];
      assert s in reps;
      EnsureAllUntouched(owner, traces, init, r);
      EnsureAllStarts(owner, traces, init);
      EnsureTraceRowEffect(owner, EnsureAll(traces, init).0, s);
    }
  }

  /** Every trace of the batch gets a task that carries the start its row ends up with. */
  lemma {:induction false} EnsureAllTasks(owner: TraceId -> ProjectId, traces: seq<TraceRow>, reps: seq<Span>, s: Span)
    requires OneRowPerTrace(owner, traces) && AllOwned(owner, reps) && DistinctTraces(reps) && s in reps
    ensures var (after, tasks) := EnsureAll(traces, reps);
            exists at :: Task(s.project, s.trace, at) in tasks && EarliestRow(after, s.project, s.trace) == Some(at)
  {
    var init, last := reps[..|reps| - 1], reps[|reps| - 1];
    assert last in reps;
    var (before, tasks) := EnsureAll(traces, init);
    EnsureAllStarts(owner, traces, init);
    EnsureTraceRowEffect(owner, before, last);
    StartsAfterEnsure(owner, before, last);
    if s == last {
      var at := EnsureTraceRow(before, last).1;
      assert Task(s.project, s.trace, at) in tasks + [Task(s.project, s.trace, at)];
    } else {
      var i :| 0 <= i < |init| && reps[i] == s;
      assert init[i] in init && reps[i].trace != reps[|reps| - 1].trace;
      EnsureAllTasks(owner, traces, init, s);
      var at :| Task(s.project, s.trace, at) in tasks && EarliestRow(before, s.project, s.trace) == Some(at);
      assert Task(s.project, s.trace, at) in EnsureAll(traces, reps).1;
    }
  }

  lemma FirstStartLast(owner: TraceId -> ProjectId, rows: seq<Span>, s: Span, t: TraceId)
    requires s.project == owner(s.trace)
    ensures FirstStart(owner, rows + [s], t)
         == EarlierOf(FirstStart(owner, rows, t), if t == s.trace then Some(s.startedAt) else None)
  {
    assert (rows + [s])[..|rows|] == rows;
  }

  lemma {:induction false} NoteEarliestStart(owner: TraceId -> ProjectId, reps: seq<Span>, s: Span, t: TraceId)
    requires AllOwned(owner, reps) && s.project == owner(s.trace)
    ensures FirstStart(owner, NoteEarliest(reps, s), t)
         == EarlierOf(FirstStart(owner, reps, t), if t == s.trace then Some(s.startedAt) else None)
  {
    FirstStartLast(owner, reps, s, t);
    if reps != [] {
      var init, r := reps[..|reps| - 1], reps[|reps| - 1];
      assert r in reps && reps == init + [r];
      FirstStartLast(owner, init, r, t);
      FirstStartLast(owner, init, s, t);
      if r.trace != s.trace && exists x :: x in init && x.trace == s.trace {
        NoteEarliestStart(owner, init, s, t);
        FirstStartLast(owner, NoteEarliest(init, s), r, t);
      }
    }
  }

  /** Noting a span keeps the traces that have a representative, in order, and may add its own at the end. */
  lemma {:induction false} NoteEarliestTraces(reps: seq<Span>, s: Span)
    ensures var noted := NoteEarliest(reps, s);
            && |reps| <= |noted| <= |reps| + 1
            && (forall i :: 0 <= i < |reps| ==> noted[i].trace == reps[i].trace)
            && (|noted| > |reps| ==> noted[|reps|].trace == s.trace && forall r :: r in reps ==> r.trace != s.trace)
  {
    if reps != [] {
      var init, last := reps[..|reps| - 1], reps[|reps| - 1];
      assert reps == init + [last];
      NoteEarliestTraces(init, s);
    }
  }

  lemma {:induction false} NoteEarliestMembers(reps: seq<Span>, s: Span)
    ensures forall r :: r in NoteEarliest(reps, s) ==> r == s || r in reps
  {
    if reps != [] {
      NoteEarliestMembers(reps[..|reps| - 1], s);
    }
  }

  lemma {:induction false} RepresentativesDistinct(inserted: seq<Span>)
    ensures DistinctTraces(Representatives(inserted))
    ensures forall r :: r in Representatives(inserted) ==> r in inserted
  {
    if inserted != [] {
      RepresentativesDistinct(inserted[..|inserted| - 1]);
      NoteEarliestTraces(Representatives(inserted[..|inserted| - 1]), inserted[|inserted| - 1]);
      NoteEarliestMembers(Representatives(inserted[..|inserted| - 1]), inserted[|inserted| - 1]);
    }
  }

  /** Each trace of the batch has one representative, started at the batch's minimum for that trace. */
  lemma {:induction false} RepresentativesAre(owner: TraceId -> ProjectId, inserted: seq<Span>)
    requires AllOwned(owner, inserted)
    ensures AllOwned(owner, Representatives(inserted)) && DistinctTraces(Representatives(inserted))
    ensures forall t :: FirstStart(owner, Representatives(inserted), t) == FirstStart(owner, inserted, t)
  {
    if inserted != [] {
      var init, s := inserted[..|inserted| - 1], inserted[|inserted| - 1];
      assert s in inserted;
      RepresentativesAre(owner, init);
      var reps := Representatives(init);
      RepresentativesDistinct(inserted);
      forall t ensures FirstStart(owner, Representatives(inserted), t) == FirstStart(owner, inserted, t) {
        NoteEarliestStart(owner, reps, s, t);
      }
    }
  }

  /** The representative of a trace is an inserted span of it, and none of them starts earlier. */
  lemma RepresentativeIsEarliest(owner: TraceId -> ProjectId, inserted: seq<Span>, r: Span)
    requires AllOwned(owner, inserted) && r in Representatives(inserted)
    ensures r in inserted && forall s :: s in inserted && s.trace == r.trace ==> r.startedAt <= s.startedAt
  {
    var reps := Representatives(inserted);
    RepresentativesDistinct(inserted);
    RepresentativesAre(owner, inserted);
    assert FirstStart(owner, reps, r.trace) == FirstStart(owner, inserted, r.trace);
    OnlyOneOfTrace(owner, reps, r);
    EarliestOfTrace(owner, inserted, r.trace, r.startedAt);
  }

  lemma OnlyOneOfTrace(owner: TraceId -> ProjectId, reps: seq<Span>, r: Span)
    requires AllOwned(owner, reps) && DistinctTraces(reps) && r in reps
    ensures FirstStart(owner, reps, r.trace) == Some(r.startedAt)
  {
    MinStartIsMinimum(reps, Owned(owner, r.trace));
    assert Selects(Owned(owner, r.trace), r);
    var first := MinStart(reps, Owned(owner, r.trace));
    assert first.Some?;
    var x :| x in reps && Selects(Owned(owner, r.trace), x) && x.startedAt == first.value;
    var i :| 0 <= i < |reps| && reps[i] == x;
    var j :| 0 <= j < |reps| && reps[j] == r;
    assert i == j;
  }

  lemma EarliestOfTrace(owner: TraceId -> ProjectId, rows: seq<Span>, t: TraceId, at: Instant)
    requires AllOwned(owner, rows) && FirstStart(owner, rows, t) == Some(at)
    ensures forall s :: s in rows && s.trace == t ==> at <= s.startedAt
  {
    MinStartIsMinimum(rows, Owned(owner, t));
    forall s | s in rows && s.trace == t ensures at <= s.startedAt {
      assert Selects(Owned(owner, t), s);
    }
  }
}
