/**
 The storage worker: one database transaction per span batch, and the task that recomputes the totals of
 one trace. The specification functions say what each SQL statement does to its table; class `Database`
 performs the statements and is proved to do exactly that.
 */
module ProcessSpan {
  import opened Options
  import opened SpanTable
  import opened MetricBuckets

  datatype TraceRow = TraceRow(id: TraceId, project: ProjectId, startedAt: Instant, totals: Totals)

  /** What a live-stream subscriber gets for an inserted span. */
  datatype Event = Event(project: ProjectId, key: SpanId, name: string, latencyMs: real, isError: bool)

  datatype Tables = Tables(spans: seq<Span>, traces: seq<TraceRow>, outbox: seq<Event>, buckets: seq<Bucket>)

  /** Arguments of a queued `update_trace_aggregates` call. */
  datatype Task = Task(project: ProjectId, trace: TraceId, startedAt: Instant)

  // ---------------------------------------------------------------- INSERT ... ON CONFLICT DO NOTHING

  /** The rows of `batch` that a bulk insert really adds: the first of each key the table does not have. */
  function Fresh(table: seq<Span>, batch: seq<Span>): seq<Span> {
    if batch == [] then []
    else
      var before := Fresh(table, batch[..|batch| - 1]);
      var s := batch[|batch| - 1];
      if HasKey(table, KeyOf(s)) || HasKey(before, KeyOf(s)) then before else before + [s]
  }

  function Keys(rows: seq<Span>): seq<Key> {
    if rows == [] then [] else Keys(rows[..|rows| - 1]) + [KeyOf(rows[|rows| - 1])]
  }

  /** Scan with a counter of returned identities: the rows chosen so far and the counter that is left. */
  function SelectInserted(prepared: seq<Span>, returned: multiset<Key>): (seq<Span>, multiset<Key>) {
    if prepared == [] then ([], returned)
    else
      var (chosen, left) := SelectInserted(prepared[..|prepared| - 1], returned);
      var s := prepared[|prepared| - 1];
      if left[KeyOf(s)] <= 0 then (chosen, left) else (chosen + [s], left - multiset{KeyOf(s)})
  }

  lemma {:induction false} FreshKeys(table: seq<Span>, batch: seq<Span>)
    ensures forall s :: s in Fresh(table, batch) ==> s in batch && !HasKey(table, KeyOf(s))
    ensures DistinctKeys(Fresh(table, batch))
    ensures forall s :: s in batch ==> HasKey(table + Fresh(table, batch), KeyOf(s))
  {
    if batch != [] {
      var init, last := batch[..|batch| - 1], batch[|batch| - 1];
      FreshKeys(table, init);
      var before := Fresh(table, init);
      assert batch == init + [last];
      forall s | s in batch ensures HasKey(table + Fresh(table, batch), KeyOf(s)) {
        if s == last && !HasKey(table, KeyOf(s)) && !HasKey(before, KeyOf(s)) {
          assert s in before + [s];
        } else {
          assert HasKey(table + before, KeyOf(s)) by {
            if s in init {
            } else if HasKey(table, KeyOf(s)) {
              var x :| x in table && KeyOf(x) == KeyOf(s);
              assert x in table + before;
            } else {
              var x :| x in before && KeyOf(x) == KeyOf(s);
              assert x in table + before;
            }
          }
          var x :| x in table + before && KeyOf(x) == KeyOf(s);
          assert x in table + Fresh(table, batch);
        }
      }
      if Fresh(table, batch) != before {
        forall i | 0 <= i < |before| ensures KeyOf(before[i]) != KeyOf(last) {
          assert before[i] in before;
        }
      }
    }
  }

  lemma FreshNext(table: seq<Span>, batch: seq<Span>, i: nat)
    requires i < |batch|
    ensures var s, added := batch[i], Fresh(table, batch[..i]);
            var all := Fresh(table, batch[..i + 1]);
            if HasKey(table + added, KeyOf(s)) then all == added
            else all == added + [s] && Keys(all) == Keys(added) + [KeyOf(s)] && table + all == table + added + [s]
  {
    var s, added := batch[i], Fresh(table, batch[..i]);
    assert batch[..i + 1][..i] == batch[..i];
    HasKeyConcat(table, added, KeyOf(s));
    assert (added + [s])[..|added|] == added;
  }

  /** The row is the first of the batch with its key. */
  ghost predicate FirstOfKey(batch: seq<Span>, s: Span) {
    exists i :: 0 <= i < |batch| && batch[i] == s
                && forall j :: 0 <= j < i ==> (batch[j].id, batch[j].startedAt) != (s.id, s.startedAt)
  }

  lemma FirstOfKeyLast(batch: seq<Span>, last: Span, s: Span)
    ensures FirstOfKey(batch + [last], s) <==> FirstOfKey(batch, s) || (s == last && !HasKey(batch, KeyOf(s)))
  {
    var all := batch + [last];
    if FirstOfKey(batch, s) {
      var i :| 0 <= i < |batch| && batch[i] == s
               && forall j :: 0 <= j < i ==> (batch[j].id, batch[j].startedAt) != (s.id, s.startedAt);
      assert all[i] == s && forall j :: 0 <= j < i ==> all[j] == batch[j];
    }
    if s == last && !HasKey(batch, KeyOf(s)) {
      assert all[|batch|] == s;
      forall j | 0 <= j < |batch| ensures (all[j].id, all[j].startedAt) != (s.id, s.startedAt) {
        assert batch[j] in batch;
      }
    }
    if FirstOfKey(all, s) {
      var i :| 0 <= i < |all| && all[i] == s
               && forall j :: 0 <= j < i ==> (all[j].id, all[j].startedAt) != (s.id, s.startedAt);
      if i < |batch| {
        assert batch[i] == s && forall j :: 0 <= j < i ==> batch[j] == all[j];
      } else {
        forall x | x in batch ensures KeyOf(x) != KeyOf(s) {
          var j :| 0 <= j < |batch| && batch[j] == x;
          assert all[j] == x;
        }
      }
    }
  }

  lemma FreshHasKey(table: seq<Span>, batch: seq<Span>, k: Key)
    ensures HasKey(Fresh(table, batch), k) <==> HasKey(batch, k) && !HasKey(table, k)
  {
    FreshKeys(table, batch);
    if HasKey(batch, k) {
      var s :| s in batch && KeyOf(s) == k;
      HasKeyConcat(table, Fresh(table, batch), k);
    }
  }

  /** The insert adds those rows of the batch whose key the table does not have, of several the first. */
  lemma {:induction false} FreshIsFirst(table: seq<Span>, batch: seq<Span>, s: Span)
    ensures s in Fresh(table, batch) <==>
              FirstOfKey(batch, s) && forall x :: x in table ==> (x.id, x.startedAt) != (s.id, s.startedAt)
  {
    if batch != [] {
      var init, last := batch[..|batch| - 1], batch[|batch| - 1];
      assert batch == init + [last];
      FreshIsFirst(table, init, s);
      FreshHasKey(table, init, KeyOf(s));
      FirstOfKeyLast(init, last, s);
    }
  }

  lemma HasKeyAppend(init: seq<Span>, last: Span, k: Key)
    ensures HasKey(init + [last], k) <==> HasKey(init, k) || KeyOf(last) == k
  {
    assert last in init + [last];
    assert forall s :: s in init + [last] <==> s in init || s == last;
  }

  lemma LastKeyIsNew(rows: seq<Span>)
    requires DistinctKeys(rows) && rows != []
    ensures !HasKey(rows[..|rows| - 1], KeyOf(rows[|rows| - 1]))
  {}

  lemma {:induction false} KeysCount(rows: seq<Span>, k: Key)
    requires DistinctKeys(rows)
    ensures multiset(Keys(rows))[k] == if HasKey(rows, k) then 1 else 0
  {
    if rows != [] {
      var init, last := rows[..|rows| - 1], rows[|rows| - 1];
      assert rows == init + [last];
      KeysCount(init, k);
      HasKeyAppend(init, last, k);
      LastKeyIsNew(rows);
    }
  }

  /** `Fresh` only grows along the batch. */
  lemma {:induction false} FreshGrows(table: seq<Span>, batch: seq<Span>, n: nat)
    requires n <= |batch|
    ensures Fresh(table, batch[..n]) <= Fresh(table, batch)
  {
    if n == |batch| {
      assert batch[..n] == batch;
    } else {
      assert batch[..|batch| - 1][..n] == batch[..n];
      FreshGrows(table, batch[..|batch| - 1], n);
    }
  }

  /** Whether the counter still holds the key of the next row is whether the insert added that row. */
  lemma CounterDecides(table: seq<Span>, batch: seq<Span>, n: nat)
    requires n < |batch|
    ensures var k := KeyOf(batch[n]);
            var before := Fresh(table, batch[..n]);
            multiset(Keys(Fresh(table, batch)))[k] > multiset(Keys(before))[k]
            <==> !HasKey(table, k) && !HasKey(before, k)
  {
    var s := batch[n];
    var k := KeyOf(s);
    var all, before := Fresh(table, batch), Fresh(table, batch[..n]);
    FreshKeys(table, batch);
    FreshKeys(table, batch[..n]);
    KeysCount(all, k);
    KeysCount(before, k);
    FreshGrows(table, batch, n + 1);
    assert batch[..n + 1][..n] == batch[..n];
    if !HasKey(table, k) && !HasKey(before, k) {
      assert s == Fresh(table, batch[..n + 1])[|before|] == all[|before|];
    }
  }

  /** Taking one more row off the counter that `taken` left. */
  lemma CounterStep(returned: multiset<Key>, taken: seq<Span>, s: Span)
    ensures var left := returned - multiset(Keys(taken));
            && (left[KeyOf(s)] > 0 <==> returned[KeyOf(s)] > multiset(Keys(taken))[KeyOf(s)])
            && left - multiset{KeyOf(s)} == returned - multiset(Keys(taken + [s]))
  {
    assert (taken + [s])[..|taken|] == taken;
    assert Keys(taken + [s]) == Keys(taken) + [KeyOf(s)];
  }

  lemma PrefixStep(table: seq<Span>, batch: seq<Span>, n: nat, returned: multiset<Key>)
    requires n < |batch|
    ensures var s := batch[n];
            var before := Fresh(table, batch[..n]);
            var (chosen, left) := SelectInserted(batch[..n], returned);
            && Fresh(table, batch[..n + 1])
                == (if HasKey(table, KeyOf(s)) || HasKey(before, KeyOf(s)) then before else before + [s])
            && SelectInserted(batch[..n + 1], returned)
               == (if left[KeyOf(s)] <= 0 then (chosen, left) else (chosen + [s], left - multiset{KeyOf(s)}))
  {
    assert batch[..n + 1][..n] == batch[..n];
  }

  /** The rows chosen from a prefix, and the counter left, when the selection is right so far. */
  ghost predicate SelectedSoFar(table: seq<Span>, batch: seq<Span>, n: nat)
    requires n <= |batch|
  {
    var returned := multiset(Keys(Fresh(table, batch)));
    var before := Fresh(table, batch[..n]);
    SelectInserted(batch[..n], returned) == (before, returned - multiset(Keys(before)))
  }

  lemma SelectNext(table: seq<Span>, batch: seq<Span>, n: nat)
    requires n < |batch| && SelectedSoFar(table, batch, n)
    ensures SelectedSoFar(table, batch, n + 1)
  {
    var returned := multiset(Keys(Fresh(table, batch)));
    CounterDecides(table, batch, n);
    PrefixStep(table, batch, n, returned);
    CounterStep(returned, Fresh(table, batch[..n]), batch[n]);
  }

  lemma {:induction false} SelectPrefix(table: seq<Span>, batch: seq<Span>, n: nat)
    requires n <= |batch|
    ensures SelectedSoFar(table, batch, n)
  {
    if n == 0 {
      var returned := multiset(Keys(Fresh(table, batch)));
      assert returned - multiset{} == returned;
    } else {
      SelectPrefix(table, batch, n - 1);
      SelectNext(table, batch, n - 1);
    }
  }

  /** Counting returned identities recovers exactly the rows that the database inserted, duplicates included. */
  lemma SelectRecoversInserted(table: seq<Span>, batch: seq<Span>)
    ensures SelectInserted(batch, multiset(Keys(Fresh(table, batch)))).0 == Fresh(table, batch)
  {
    SelectPrefix(table, batch, |batch|);
    assert batch[..|batch|] == batch;
  }

  // ---------------------------------------------------------------- trace rows

  /** `SELECT started_at ... ORDER BY started_at ASC LIMIT 1` for one trace. */
  function EarliestRow(traces: seq<TraceRow>, p: ProjectId, t: TraceId): Option<Instant> {
    if traces == [] then None
    else
      var r := traces[|traces| - 1];
      var before := EarliestRow(traces[..|traces| - 1], p, t);
      if r.project == p && r.id == t then EarlierOf(before, Some(r.startedAt)) else before
  }

  /** `UPDATE traces SET started_at = :to WHERE ... started_at = :from`. */
  function MoveStart(traces: seq<TraceRow>, p: ProjectId, t: TraceId, from: Instant, to: Instant): seq<TraceRow> {
    seq(|traces|, i requires 0 <= i < |traces| =>
      var r := traces[i];
      if r.project == p && r.id == t && r.startedAt == from then r.(startedAt := to) else r)
  }

  predicate HasTraceRow(traces: seq<TraceRow>, t: TraceId, at: Instant) {
    exists r :: r in traces && r.id == t && r.startedAt == at
  }

  function NewTraceRow(s: Span): TraceRow {
    TraceRow(s.trace, s.project, s.startedAt, Totals(0, 0, 0, None, s.isError))
  }

  /** A new row has zero sums and the status of its span. */
  lemma NewRowIs(s: Span)
    ensures var r := NewTraceRow(s);
            && (r.id, r.project, r.startedAt) == (s.trace, s.project, s.startedAt)
            && r.totals == Totals(0, 0, 0, None, s.isError)
  {}

  /** The new table and the start under which the trace is stored from now on. */
  function EnsureTraceRow(traces: seq<TraceRow>, s: Span): (seq<TraceRow>, Instant) {
    match EarliestRow(traces, s.project, s.trace)
    case None =>
      (if HasTraceRow(traces, s.trace, s.startedAt) then traces else traces + [NewTraceRow(s)], s.startedAt)
    case Some(existing) =>
      if existing <= s.startedAt then (traces, existing)
      else (MoveStart(traces, s.project, s.trace, existing, s.startedAt), s.startedAt)
  }

  /**
   The UPDATE that lowers a start fails on the primary key `(id, started_at)`, which leaves the project out: the
   pair it moves to belongs to another row.
   */
  predicate MoveBlocked(traces: seq<TraceRow>, s: Span) {
    var existing := EarliestRow(traces, s.project, s.trace);
    existing.Some? && existing.value > s.startedAt && HasTraceRow(traces, s.trace, s.startedAt)
  }

  /** The dictionary from trace to its earliest inserted span, in order of first appearance. */
  function NoteEarliest(reps: seq<Span>, s: Span): seq<Span> {
    if reps == [] then [s]
    else
      var init, r := reps[..|reps| - 1], reps[|reps| - 1];
      if r.trace == s.trace then init + [if s.startedAt < r.startedAt then s else r]
      else if exists x :: x in init && x.trace == s.trace then NoteEarliest(init, s) + [r]
      else reps + [s]
  }

  function Representatives(inserted: seq<Span>): seq<Span> {
    if inserted == [] then []
    else NoteEarliest(Representatives(inserted[..|inserted| - 1]), inserted[|inserted| - 1])
  }

  function EnsureAll(traces: seq<TraceRow>, reps: seq<Span>): (seq<TraceRow>, seq<Task>) {
    if reps == [] then (traces, [])
    else
      var (before, tasks) := EnsureAll(traces, reps[..|reps| - 1]);
      var s := reps[|reps| - 1];
      var (after, start) := EnsureTraceRow(before, s);
      (after, tasks + [Task(s.project, s.trace, start)])
  }

  /** One of the trace rows cannot be stored, so the transaction fails. */
  predicate Blocked(traces: seq<TraceRow>, reps: seq<Span>) {
    reps != [] &&
    (Blocked(traces, reps[..|reps| - 1]) || MoveBlocked(EnsureAll(traces, reps[..|reps| - 1]).0, reps[|reps| - 1]))
  }

  // ---------------------------------------------------------------- outbox rows

  predicate HasEvent(outbox: seq<Event>, p: ProjectId, key: SpanId) {
    exists e :: e in outbox && e.project == p && e.key == key
  }

  function EventOf(s: Span): Event {
    Event(s.project, s.id, s.name, s.latencyMs, s.isError)
  }

  function EnqueueEvent(outbox: seq<Event>, e: Event): seq<Event> {
    if HasEvent(outbox, e.project, e.key) then outbox else outbox + [e]
  }

  function EnqueueAll(outbox: seq<Event>, inserted: seq<Span>): seq<Event> {
    if inserted == [] then outbox
    else EnqueueEvent(EnqueueAll(outbox, inserted[..|inserted| - 1]), EventOf(inserted[|inserted| - 1]))
  }

  // ---------------------------------------------------------------- the two transactions

  datatype Commit = Commit(tables: Tables, inserted: seq<Span>, tasks: seq<Task>)

  function CommitBatch(db: Tables, p: ProjectId, prepared: seq<Span>): Commit {
    var inserted := Fresh(db.spans, prepared);
    var (traces, tasks) := EnsureAll(db.traces, Representatives(inserted));
    Commit(
      Tables(db.spans + inserted, traces, EnqueueAll(db.outbox, inserted),
             if inserted == [] then db.buckets else UpdateBuckets(db.buckets, p, inserted)),
      inserted, tasks)
  }

  predicate Aborts(db: Tables, prepared: seq<Span>) {
    Blocked(db.traces, Representatives(Fresh(db.spans, prepared)))
  }

  /** The WHERE clause of the five subqueries. */
  function Since(task: Task): Selector {
    OfTraceFrom(task.project, task.trace, task.startedAt)
  }

  function TotalsSince(spans: seq<Span>, task: Task): Totals {
    TotalsOf(spans, Since(task))
  }

  /** `UPDATE traces SET totals WHERE project, id and started_at all match`. */
  function Recompute(traces: seq<TraceRow>, spans: seq<Span>, task: Task): seq<TraceRow> {
    seq(|traces|, i requires 0 <= i < |traces| =>
      var r := traces[i];
      if Task(r.project, r.id, r.startedAt) == task
      then r.(totals := TotalsSince(spans, task))
      else r)
  }

  // ---------------------------------------------------------------- preparing a batch

  /** What the per-span `try` block ends in. */
  datatype Preparation =
    | Ready(span: Span)
    | Malformed        // permanent: counted as failed and skipped
    | TransientError   // raised: the whole batch is retried

  function ReadyPart(items: seq<Preparation>): seq<Span> {
    if items == [] then []
    else
      var item := items[|items| - 1];
      ReadyPart(items[..|items| - 1]) + if item.Ready? then [item.span] else []
  }

  function MalformedCount(items: seq<Preparation>): nat {
    if items == [] then 0
    else MalformedCount(items[..|items| - 1]) + if items[|items| - 1].Malformed? then 1 else 0
  }

  /** The ready spans in order, and how many items were malformed, item by item. */
  lemma PreparedStep(items: seq<Preparation>, item: Preparation)
    ensures ReadyPart([]) == [] && MalformedCount([]) == 0
    ensures ReadyPart(items + [item]) == ReadyPart(items) + if item.Ready? then [item.span] else []
    ensures MalformedCount(items + [item]) == MalformedCount(items) + if item.Malformed? then 1 else 0
  {
    assert (items + [item])[..|items|] == items;
  }

  datatype Outcome = Raised | Finished(processed: nat, failed: nat, tasks: seq<Task>)

  // ---------------------------------------------------------------- the statements, on a database

  class Database {
    var spans: seq<Span>
    var traces: seq<TraceRow>
    var outbox: seq<Event>
    var buckets: seq<Bucket>

    constructor ()
      ensures Snapshot() == Tables([], [], [], [])
    {
      spans, traces, outbox, buckets := [], [], [], [];
    }

    function Snapshot(): Tables
      reads this
    {
      Tables(spans, traces, outbox, buckets)
    }

    method BulkInsertSpans(batch: seq<Span>) returns (returned: seq<Key>)
      modifies this`spans
      ensures spans == old(spans) + Fresh(old(spans), batch)
      ensures returned == Keys(Fresh(old(spans), batch))
    {
      returned := [];
      ghost var before := spans;
      for i := 0 to |batch|
        invariant spans == before + Fresh(before, batch[..i])
        invariant returned == Keys(Fresh(before, batch[..i]))
      {
        var s := batch[i];
        FreshNext(before, batch, i);
        if !HasKey(spans, KeyOf(s)) {
          spans := spans + [s];
          returned := returned + [KeyOf(s)];
        }
      }
      assert batch[..|batch|] == batch;
    }

    /** `ensure_trace_row`; not `stored` is the integrity error of its UPDATE. */
    method StoreTrace(s: Span) returns (stored: bool, start: Instant)
      modifies this`traces
      ensures stored <==> !MoveBlocked(old(traces), s)
      ensures if stored then (traces, start) == EnsureTraceRow(old(traces), s) else traces == old(traces)
    {
      var existing := EarliestRow(traces, s.project, s.trace);
      if existing.None? {
        if !HasTraceRow(traces, s.trace, s.startedAt) {
          traces := traces + [NewTraceRow(s)];
        }
        return true, s.startedAt;
      }
      if existing.value <= s.startedAt {
        return true, existing.value;
      }
      if HasTraceRow(traces, s.trace, s.startedAt) {
        return false, s.startedAt;
      }
      traces := MoveStart(traces, s.project, s.trace, existing.value, s.startedAt);
      return true, s.startedAt;
    }

    method EnqueueOutboxEvent(e: Event)
      modifies this`outbox
      ensures outbox == EnqueueEvent(old(outbox), e)
    {
      if !HasEvent(outbox, e.project, e.key) {
        outbox := outbox + [e];
      }
    }

    method UpdateSpanMetricBuckets(p: ProjectId, inserted: seq<Span>)
      modifies this`buckets
      ensures buckets == if inserted == [] then old(buckets) else UpdateBuckets(old(buckets), p, inserted)
    {
      if inserted == [] {
        return;
      }
      var dict := [];
      for i := 0 to |inserted|
        invariant dict == Accumulate(p, inserted[..i])
      {
        var s := inserted[i];
        assert inserted[..i + 1][..i] == inserted[..i];
        dict := Merge(dict, (p, FloorToMinute(s.startedAt)), AccOf(s));
      }
      assert inserted[..|inserted|] == inserted;
      var payload := Payload(dict);
      ghost var before := buckets;
      for i := 0 to |payload|
        invariant buckets == UpsertAll(before, payload[..i])
      {
        assert payload[..i + 1][..i] == payload[..i];
        buckets := Upsert(buckets, payload[i]);
      }
      assert payload[..|payload|] == payload;
    }

    method EnsureTraceRows(reps: seq<Span>) returns (stored: bool, tasks: seq<Task>)
      modifies this`traces
      ensures stored <==> !Blocked(old(traces), reps)
      ensures stored ==> (traces, tasks) == EnsureAll(old(traces), reps)
    {
      tasks := [];
      for i := 0 to |reps|
        invariant (traces, tasks) == EnsureAll(old(traces), reps[..i]) && !Blocked(old(traces), reps[..i])
      {
        assert reps[..i + 1][..i] == reps[..i];
        var at;
        stored, at := StoreTrace(reps[i]);
        if !stored {
          BlockedStays(old(traces), reps, i + 1);
          return;
        }
        tasks := tasks + [Task(reps[i].project, reps[i].trace, at)];
      }
      assert reps[..|reps|] == reps;
      stored := true;
    }

    method EnqueueSpanEvents(inserted: seq<Span>)
      modifies this`outbox
      ensures outbox == EnqueueAll(old(outbox), inserted)
    {
      for i := 0 to |inserted|
        invariant outbox == EnqueueAll(old(outbox), inserted[..i])
      {
        assert inserted[..i + 1][..i] == inserted[..i];
        EnqueueOutboxEvent(EventOf(inserted[i]));
      }
      assert inserted[..|inserted|] == inserted;
    }

    /**
     The batch task: prepare every span, then one transaction; the tasks are enqueued after the commit. It
     raises, with all tables as they were, when a preparation fails transiently or the transaction aborts.
     */
    method ProcessSpanBatch(p: ProjectId, items: seq<Preparation>) returns (out: Outcome)
      modifies this
      ensures out.Raised? <==> TransientError in items || Aborts(old(Snapshot()), ReadyPart(items))
      ensures out.Raised? ==> Snapshot() == old(Snapshot())
      ensures out.Finished? ==>
                var commit := CommitBatch(old(Snapshot()), p, ReadyPart(items));
                && Snapshot() == commit.tables
                && out == Finished(|commit.inserted|, MalformedCount(items), commit.tasks)
    {
      var raised, prepared, failed := PrepareSpans(items);
      if raised {
        return Raised;
      }
      var stored, inserted, tasks := StoreBatch(p, prepared);
      return if stored then Finished(|inserted|, failed, tasks) else Raised;
    }

    /** The transaction itself: all of it, or nothing. */
    method StoreBatch(p: ProjectId, prepared: seq<Span>) returns (stored: bool, inserted: seq<Span>, tasks: seq<Task>)
      modifies this
      ensures stored <==> !Aborts(old(Snapshot()), prepared)
      ensures if stored then Commit(Snapshot(), inserted, tasks) == CommitBatch(old(Snapshot()), p, prepared)
              else Snapshot() == old(Snapshot())
    {
      var before := Snapshot();
      var returned := BulkInsertSpans(prepared);
      inserted := SelectInsertedSpans(prepared, returned);
      SelectRecoversInserted(old(spans), prepared);
      assert inserted == Fresh(old(spans), prepared) && spans == old(spans) + inserted;
      var reps := EarliestByTrace(inserted);
      stored, tasks := EnsureTraceRows(reps);
      if !stored {
        spans, traces := before.spans, before.traces;
        return;
      }
      assert (traces, tasks) == EnsureAll(old(traces), Representatives(inserted));
      EnqueueSpanEvents(inserted);
      assert outbox == EnqueueAll(old(outbox), inserted);
      UpdateSpanMetricBuckets(p, inserted);
    }

    /** Row by row: the row with the task's trace and start gets the totals of its spans, no other row changes. */
    method UpdateTraceAggregates(task: Task)
      modifies this`traces
      ensures |traces| == |old(traces)|
      ensures forall i :: 0 <= i < |traces| ==>
                traces[i] == if Task(old(traces)[i].project, old(traces)[i].id, old(traces)[i].startedAt) == task
                             then old(traces)[i].(totals := TotalsSince(spans, task)) else old(traces)[i]
      ensures traces == Recompute(old(traces), spans, task)
      ensures forall i :: 0 <= i < |traces| && (traces[i].project, traces[i].id) == (task.project, task.trace)
                          && traces[i].startedAt == task.startedAt ==>
                Aggregates(traces[i].totals, TraceRows(spans, task.project, task.trace, task.startedAt))
    {
      TotalsAreAggregates(spans, task.project, task.trace, task.startedAt);
      for i := 0 to |traces|
        invariant |traces| == |old(traces)|
        invariant forall k :: 0 <= k < i ==> traces[k] == Recompute(old(traces), spans, task)[k]
        invariant forall k :: i <= k < |traces| ==> traces[k] == old(traces)[k]
      {
        var r := traces[i];
        if r.project == task.project && r.id == task.trace && r.startedAt == task.startedAt {
          var cost: nat, tokens: nat, count: nat, errors: nat := 0, 0, 0, 0;
          var ended: Option<real> := None;
          for n := 0 to |spans|
            invariant Totals(cost, tokens, count, ended, errors > 0) == TotalsSince(spans[..n], task)
            invariant errors == Sum(spans[..n], Since(task), Errors)
          {
            assert spans[..n + 1][..n] == spans[..n];
            var s := spans[n];
            if Selects(Since(task), s) {
              cost, tokens, count := cost + s.cost, tokens + s.inputTokens + s.outputTokens, count + 1;
              errors := errors + if s.isError then 1 else 0;
              ended := if ended.Some? && ended.value >= EndOf(s) then ended else Some(EndOf(s));
            }
          }
          assert spans[..|spans|] == spans;
          traces := traces[i := r.(totals := Totals(cost, tokens, count, ended, errors > 0))];
        }
      }
    }
  }

  /** Once blocked, the transaction stays so whatever representatives follow. */
  lemma {:induction false} BlockedStays(traces: seq<TraceRow>, reps: seq<Span>, n: nat)
    requires n <= |reps| && Blocked(traces, reps[..n])
    ensures Blocked(traces, reps)
  {
    if n == |reps| {
      assert reps[..n] == reps;
    } else {
      assert reps[..|reps| - 1][..n] == reps[..n];
      BlockedStays(traces, reps[..|reps| - 1], n);
    }
  }

  lemma HasKeyConcat(a: seq<Span>, b: seq<Span>, k: Key)
    ensures HasKey(a + b, k) <==> HasKey(a, k) || HasKey(b, k)
  {
    assert forall s :: s in a + b <==> s in a || s in b;
  }

  method SelectInsertedSpans(prepared: seq<Span>, returned: seq<Key>) returns (inserted: seq<Span>)
    ensures inserted == SelectInserted(prepared, multiset(returned)).0
  {
    var remaining := multiset(returned);
    inserted := [];
    for i := 0 to |prepared|
      invariant (inserted, remaining) == SelectInserted(prepared[..i], multiset(returned))
    {
      assert prepared[..i + 1][..i] == prepared[..i];
      var k := KeyOf(prepared[i]);
      if remaining[k] <= 0 {
        continue;
      }
      inserted := inserted + [prepared[i]];
      remaining := remaining - multiset{k};
    }
    assert prepared[..|prepared|] == prepared;
  }

  method PrepareSpans(items: seq<Preparation>) returns (raised: bool, prepared: seq<Span>, failed: nat)
    ensures raised <==> TransientError in items
    ensures !raised ==> prepared == ReadyPart(items) && failed == MalformedCount(items)
  {
    prepared, failed := [], 0;
    for i := 0 to |items|
      invariant TransientError !in items[..i]
      invariant prepared == ReadyPart(items[..i]) && failed == MalformedCount(items[..i])
    {
      assert items[..i + 1][..i] == items[..i];
      match items[i] {
        case Ready(span) => prepared := prepared + [span];
        case Malformed => failed := failed + 1;
        case TransientError => return true, prepared, failed;
      }
    }
    assert items[..|items|] == items;
    raised := false;
  }

  method EarliestByTrace(inserted: seq<Span>) returns (reps: seq<Span>)
    ensures reps == Representatives(inserted)
  {
    reps := [];
    for i := 0 to |inserted|
      invariant reps == Representatives(inserted[..i])
    {
      assert inserted[..i + 1][..i] == inserted[..i];
      reps := NoteEarliest(reps, inserted[i]);
    }
    assert inserted[..|inserted|] == inserted;
  }
}
