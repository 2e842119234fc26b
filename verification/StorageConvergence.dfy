/**
 When the rows of `traces` are exact: at any point of a run, once the aggregate tasks are drained, and whatever
 the order of batches and tasks.
 */
module StorageConvergence {
  import opened Options
  import opened SpanTable
  import opened ProcessSpan
  import opened StorageRuns
  import opened StorageSafety

  // ---------------------------------------------------------------- the span count decides

  function CountOf(r: TraceRow, spans: seq<Span>): nat {
    Sum(spans, OfTrace(r.project, r.id), Spans)
  }

  /** A row that is behind has counted fewer spans than are stored. */
  ghost predicate Lags(r: TraceRow, spans: seq<Span>) {
    r.totals.count <= CountOf(r, spans) && (r.totals.count == CountOf(r, spans) ==> Exact(r, spans))
  }

  ghost predicate AllLag(db: Tables) {
    forall r :: r in db.traces ==> Lags(r, db.spans)
  }

  /** A trace row keeps its totals through a batch; a new one counts nothing yet. */
  ghost predicate KeepsTotals(before: seq<TraceRow>, r: TraceRow) {
    r.totals.count == 0 || exists q :: q in before && (q.id, q.project, q.totals) == (r.id, r.project, r.totals)
  }

  lemma EnsureKeepsTotals(traces: seq<TraceRow>, s: Span, r: TraceRow)
    requires r in EnsureTraceRow(traces, s).0
    ensures KeepsTotals(traces, r)
  {
    var after := EnsureTraceRow(traces, s).0;
    var i :| 0 <= i < |after| && after[i] == r;
    if i < |traces| {
      assert traces[i] in traces && (traces[i].id, traces[i].project, traces[i].totals) == (r.id, r.project, r.totals);
    }
  }

  lemma {:induction false} EnsureAllKeepsTotals(traces: seq<TraceRow>, reps: seq<Span>, r: TraceRow)
    requires r in EnsureAll(traces, reps).0
    ensures KeepsTotals(traces, r)
  {
    if reps != [] {
      var before := EnsureAll(traces, reps[..|reps| - 1]).0;
      EnsureKeepsTotals(before, reps[|reps| - 1], r);
      if r.totals.count != 0 {
        var q :| q in before && (q.id, q.project, q.totals) == (r.id, r.project, r.totals);
        EnsureAllKeepsTotals(traces, reps[..|reps| - 1], q);
      }
    }
  }

  ghost predicate Touches(inserted: seq<Span>, t: TraceId) {
    exists s :: s in inserted && s.trace == t
  }

  lemma TouchedByRepresentatives(owner: TraceId -> ProjectId, inserted: seq<Span>, t: TraceId)
    requires AllOwned(owner, inserted)
    ensures Touches(inserted, t) <==> Touches(Representatives(inserted), t)
  {
    RepresentativesAre(owner, inserted);
    FirstStartNone(owner, inserted, t);
    FirstStartNone(owner, Representatives(inserted), t);
  }

  /** A batch leaves the row of an untouched trace as exact as it was, and a touched one behind. */
  lemma BatchLags(owner: TraceId -> ProjectId, st: State, inserted: seq<Span>, r: TraceRow)
    requires Inv(owner, st) && AllLag(st.db) && AllOwned(owner, inserted)
    requires r in EnsureAll(st.db.traces, Representatives(inserted)).0
    ensures var after := st.db.spans + inserted;
            && Lags(r, after)
            && (if Touches(inserted, r.id) then !Exact(r, after)
                else r in st.db.traces && (Exact(r, after) <==> Exact(r, st.db.spans)))
  {
    var sel := OfTrace(r.project, r.id);
    RepresentativesAre(owner, inserted);
    TouchedByRepresentatives(owner, inserted, r.id);
    EnsureAllStarts(owner, st.db.traces, Representatives(inserted));
    SumConcat(st.db.spans, inserted, sel, Spans);
    if Touches(inserted, r.id) {
      var s :| s in inserted && s.trace == r.id;
      SumPositive(inserted, sel, s);
      EnsureAllKeepsTotals(st.db.traces, Representatives(inserted), r);
      assert r.totals.count <= Sum(st.db.spans, sel, Spans);
    } else {
      EnsureAllUntouched(owner, st.db.traces, Representatives(inserted), r);
      TotalsIgnore(st.db.spans, inserted, sel);
    }
  }

  lemma NextKeepsLag(owner: TraceId -> ProjectId, st: State, step: Step)
    requires Inv(owner, st) && AllLag(st.db) && Enabled(owner, st, step)
    ensures AllLag(Next(st, step).db)
  {
    var after := Next(st, step);
    match step
    case Batch(p, prepared) =>
      BatchKeepsInv(owner, st, p, prepared);
      FreshKeys(st.db.spans, prepared);
      forall r | r in after.db.traces ensures Lags(r, after.db.spans) {
        BatchLags(owner, st, Fresh(st.db.spans, prepared), r);
      }
    case RunTask(task, acked) =>
      forall r | r in after.db.traces ensures Lags(r, after.db.spans) {
        var i :| 0 <= i < |after.db.traces| && after.db.traces[i] == r;
        TaskEffect(owner, st, task, i);
        assert st.db.traces[i] in st.db.traces;
      }
    case _ =>
  }

  lemma {:induction false} ReachableLag(owner: TraceId -> ProjectId, steps: seq<Step>)
    requires ValidRun(owner, INITIAL, steps)
    ensures Inv(owner, Run(INITIAL, steps)) && AllLag(Run(INITIAL, steps).db)
  {
    ReachableInv(owner, steps);
    if steps != [] {
      ReachableLag(owner, steps[..|steps| - 1]);
      NextKeepsLag(owner, Run(INITIAL, steps[..|steps| - 1]), steps[|steps| - 1]);
    }
  }

  /** In every run, all the totals of a row are exact if and only if its span count is the number of stored spans. */
  lemma SpanCountDecides(owner: TraceId -> ProjectId, steps: seq<Step>, r: TraceRow)
    requires ValidRun(owner, INITIAL, steps) && r in Run(INITIAL, steps).db.traces
    ensures Exact(r, Run(INITIAL, steps).db.spans) <==> r.totals.count == CountOf(r, Run(INITIAL, steps).db.spans)
  {
    ReachableLag(owner, steps);
  }

  // ---------------------------------------------------------------- the last batch decides

  /** A task with the row's start ran after the last batch that inserted a span of the trace. */
  ghost predicate Refreshed(owner: TraceId -> ProjectId, steps: seq<Step>, t: TraceId) {
    steps != [] &&
    var init := steps[..|steps| - 1];
    var st := Run(INITIAL, init);
    match steps[|steps| - 1]
    case Batch(_, prepared) => !Touches(Fresh(st.db.spans, prepared), t) && Refreshed(owner, init, t)
    case RunTask(task, _) =>
      || Refreshed(owner, init, t)
      || (task.project == owner(t) && task.trace == t && EarliestRow(st.db.traces, owner(t), t) == Some(task.startedAt))
    case _ => Refreshed(owner, init, t)
  }

  lemma BatchRefreshes(owner: TraceId -> ProjectId, init: seq<Step>, p: ProjectId, prepared: seq<Span>, r: TraceRow)
    requires ValidRun(owner, INITIAL, init) && Enabled(owner, Run(INITIAL, init), Batch(p, prepared))
    requires r in Next(Run(INITIAL, init), Batch(p, prepared)).db.traces
    ensures var st := Run(INITIAL, init);
            var after := Next(st, Batch(p, prepared));
            if Touches(Fresh(st.db.spans, prepared), r.id) then !Exact(r, after.db.spans)
            else r in st.db.traces && (Exact(r, after.db.spans) <==> Exact(r, st.db.spans))
  {
    var st := Run(INITIAL, init);
    ReachableLag(owner, init);
    BatchKeepsInv(owner, st, p, prepared);
    FreshKeys(st.db.spans, prepared);
    BatchLags(owner, st, Fresh(st.db.spans, prepared), r);
  }

  lemma TaskRefreshes(owner: TraceId -> ProjectId, st: State, task: Task, i: nat)
    requires Inv(owner, st) && i < |st.db.traces|
    ensures var q, r := st.db.traces[i], Recompute(st.db.traces, st.db.spans, task)[i];
            var current := task.project == owner(q.id) && task.trace == q.id
                           && EarliestRow(st.db.traces, owner(q.id), q.id) == Some(task.startedAt);
            r.id == q.id && if current then Exact(r, st.db.spans) else r == q
  {
    TaskEffect(owner, st, task, i);
    assert st.db.traces[i] in st.db.traces;
    EarliestRowIs(owner, st.db.traces, st.db.traces[i].id);
  }

  lemma BatchLast(owner: TraceId -> ProjectId, steps: seq<Step>, r: TraceRow)
    requires steps != [] && steps[|steps| - 1].Batch? && ValidRun(owner, INITIAL, steps)
    requires r in Run(INITIAL, steps).db.traces
    ensures var init, spans := steps[..|steps| - 1], Run(INITIAL, steps).db.spans;
            || (!Exact(r, spans) && !Refreshed(owner, steps, r.id))
            || (&& r in Run(INITIAL, init).db.traces && (Exact(r, spans) <==> Exact(r, Run(INITIAL, init).db.spans))
                && (Refreshed(owner, steps, r.id) <==> Refreshed(owner, init, r.id)))
  {
    var last := steps[|steps| - 1];
    BatchRefreshes(owner, steps[..|steps| - 1], last.project, last.prepared, r);
  }

  lemma TaskLast(owner: TraceId -> ProjectId, steps: seq<Step>, r: TraceRow) returns (q: TraceRow)
    requires steps != [] && steps[|steps| - 1].RunTask? && ValidRun(owner, INITIAL, steps)
    requires r in Run(INITIAL, steps).db.traces
    ensures var init, spans := steps[..|steps| - 1], Run(INITIAL, steps).db.spans;
            && q in Run(INITIAL, init).db.traces && q.id == r.id
            && (|| (Exact(r, spans) && Refreshed(owner, steps, r.id))
                || (&& (Exact(r, spans) <==> Exact(q, Run(INITIAL, init).db.spans))
                    && (Refreshed(owner, steps, r.id) <==> Refreshed(owner, init, r.id))))
  {
    var init, last := steps[..|steps| - 1], steps[|steps| - 1];
    var st := Run(INITIAL, init);
    var i :| 0 <= i < |st.db.traces| && Recompute(st.db.traces, st.db.spans, last.task)[i] == r;
    q := st.db.traces[i];
    ReachableInv(owner, init);
    TaskRefreshes(owner, st, last.task, i);
  }

  lemma OtherLast(owner: TraceId -> ProjectId, steps: seq<Step>, t: TraceId)
    requires steps != [] && !steps[|steps| - 1].Batch? && !steps[|steps| - 1].RunTask?
    ensures Run(INITIAL, steps).db == Run(INITIAL, steps[..|steps| - 1]).db
    ensures Refreshed(owner, steps, t) <==> Refreshed(owner, steps[..|steps| - 1], t)
  {}

  /**
   At any point of any run a row is exact if and only if a task with its start ran after the last batch that
   inserted a span of its trace.
   */
  lemma {:induction false} ExactIffRefreshed(owner: TraceId -> ProjectId, steps: seq<Step>, r: TraceRow)
    requires ValidRun(owner, INITIAL, steps) && r in Run(INITIAL, steps).db.traces
    ensures Exact(r, Run(INITIAL, steps).db.spans) <==> Refreshed(owner, steps, r.id)
  {
    if steps != [] {
      var init := steps[..|steps| - 1];
      if steps[|steps| - 1].Batch? {
        BatchLast(owner, steps, r);
        if r in Run(INITIAL, init).db.traces {
          ExactIffRefreshed(owner, init, r);
        }
      } else if steps[|steps| - 1].RunTask? {
        var q := TaskLast(owner, steps, r);
        ExactIffRefreshed(owner, init, q);
      } else {
        OtherLast(owner, steps, r.id);
        ExactIffRefreshed(owner, init, r);
      }
    }
  }

  // ---------------------------------------------------------------- convergence

  /**
   Convergence. Whatever the order, repetition and staleness of the tasks: once none is waiting, every trace
   that has spans has exactly one row, and it starts at the trace's first span. It is exact if and only if
   it counts all stored spans, if and only if its task ran after the last batch of the trace; and where that
   did not happen, the enqueue or the run of precisely that task was lost.
   */
  lemma DrainedTracesAreExact(owner: TraceId -> ProjectId, steps: seq<Step>, t: TraceId)
    requires ValidRun(owner, INITIAL, steps)
    requires Run(INITIAL, steps).continuations == Run(INITIAL, steps).queue == multiset{}
    ensures var st := Run(INITIAL, steps);
            && (forall i, j :: 0 <= i < j < |st.db.traces| ==> !(st.db.traces[i].id == t == st.db.traces[j].id))
            && ((exists s :: s in st.db.spans && s.trace == t) <==> (exists r :: r in st.db.traces && r.id == t))
            && (forall r :: r in st.db.traces && r.id == t ==>
                  && (forall s :: s in st.db.spans && s.trace == t ==> r.startedAt <= s.startedAt)
                  && (exists s :: s in st.db.spans && s.trace == t && r.startedAt == s.startedAt)
                  && (Exact(r, st.db.spans) <==> Refreshed(owner, steps, t))
                  && (Exact(r, st.db.spans) <==> r.totals.count == CountOf(r, st.db.spans))
                  && (!Exact(r, st.db.spans) ==> TaskOf(r) in st.lost))
  {
    var st := Run(INITIAL, steps);
    ReachableInv(owner, steps);
    EarliestRowIs(owner, st.db.traces, t);
    FirstStartNone(owner, st.db.spans, t);
    MinStartIsMinimum(st.db.spans, Owned(owner, t));
    assert Outstanding(st) == st.lost;
    forall s | s in st.db.spans && s.trace == t ensures Selects(Owned(owner, t), s) {
    }
    forall r | r in st.db.traces && r.id == t
      ensures Exact(r, st.db.spans) <==> Refreshed(owner, steps, t)
      ensures Exact(r, st.db.spans) <==> r.totals.count == CountOf(r, st.db.spans)
    {
      ExactIffRefreshed(owner, steps, r);
      SpanCountDecides(owner, steps, r);
    }
  }

  /**
   Two drained runs that stored the same spans, in whatever order of batches and tasks, agree on every trace
   row.
   */
  lemma OrderIsIrrelevant(owner: TraceId -> ProjectId, a: seq<Step>, b: seq<Step>, r: TraceRow)
    requires ValidRun(owner, INITIAL, a) && ValidRun(owner, INITIAL, b)
    requires Outstanding(Run(INITIAL, a)) == Outstanding(Run(INITIAL, b)) == multiset{}
    requires multiset(Run(INITIAL, a).db.spans) == multiset(Run(INITIAL, b).db.spans)
    ensures r in Run(INITIAL, a).db.traces <==> r in Run(INITIAL, b).db.traces
  {
    ReachableInv(owner, a);
    ReachableInv(owner, b);
    RowsDetermined(owner, Run(INITIAL, a), Run(INITIAL, b), r);
    RowsDetermined(owner, Run(INITIAL, b), Run(INITIAL, a), r);
  }

  lemma RowsDetermined(owner: TraceId -> ProjectId, a: State, b: State, r: TraceRow)
    requires Inv(owner, a) && Inv(owner, b) && multiset(a.db.spans) == multiset(b.db.spans)
    requires Outstanding(a) == Outstanding(b) == multiset{}
    ensures r in a.db.traces ==> r in b.db.traces
  {
    if r in a.db.traces {
      TotalsPermute(a.db.spans, b.db.spans, Owned(owner, r.id));
      EarliestRowIs(owner, a.db.traces, r.id);
      EarliestRowIs(owner, b.db.traces, r.id);
      var r' :| r' in b.db.traces && r'.id == r.id;
      assert Exact(r, a.db.spans) && Exact(r', b.db.spans);
    }
  }

  function Backlog(st: State): nat {
    2 * |st.continuations| + |st.queue|
  }

  ghost predicate Drained(st: State) {
    st.continuations == multiset{} && st.queue == multiset{}
  }

  /** Only enqueues and acknowledged tasks. */
  ghost predicate Drains(steps: seq<Step>) {
    forall step :: step in steps ==> step.Enqueue? || (step.RunTask? && step.acked)
  }

  lemma DrainStep(owner: TraceId -> ProjectId, st: State) returns (step: Step)
    requires !Drained(st)
    ensures Enabled(owner, st, step) && Backlog(Next(st, step)) < Backlog(st)
    ensures step.Enqueue? || (step.RunTask? && step.acked)
  {
    if st.continuations != multiset{} {
      var task :| task in st.continuations;
      step := Enqueue(task);
      assert |st.continuations - multiset{task}| == |st.continuations| - 1;
      assert |st.queue + multiset{task}| == |st.queue| + 1;
    } else {
      var task :| task in st.queue;
      step := RunTask(task, true);
      assert |st.queue - multiset{task}| == |st.queue| - 1;
    }
  }

  /** From every state some run of enqueues and tasks drains everything. */
  lemma {:induction false} DrainingRunExists(owner: TraceId -> ProjectId, st: State, begun: seq<Step>)
    requires ValidRun(owner, st, begun) && Drains(begun)
    ensures exists steps :: begun <= steps && ValidRun(owner, st, steps) && Drains(steps) && Drained(Run(st, steps))
    decreases Backlog(Run(st, begun))
  {
    if Drained(Run(st, begun)) {
      assert begun <= begun;
    } else {
      var step := DrainStep(owner, Run(st, begun));
      assert (begun + [step])[..|begun|] == begun;
      DrainingRunExists(owner, st, begun + [step]);
      var steps :| begun + [step] <= steps && ValidRun(owner, st, steps) && Drains(steps) && Drained(Run(st, steps));
      assert begun <= steps;
    }
  }
}
