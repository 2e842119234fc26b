/**
 The `spans` table and the SQL folds that the rest of the pipeline takes over it.

 The table is a sequence of rows in insertion order whose keys `(id, started_at)` are distinct.
 Instants are integer microseconds, money is in units of 10^-8 dollar, latencies are exact milliseconds.
 Folds consume the last row first, so that appending a row is one unfolding.
 */
module SpanTable {
  import opened Options

  type ProjectId = nat
  type TraceId = nat
  type SpanId = nat
  type Instant = int
  type Key = (SpanId, Instant)

  datatype Span = Span(
    id: SpanId, trace: TraceId, project: ProjectId, startedAt: Instant, name: string,
    inputTokens: nat, outputTokens: nat, cost: nat, latencyMs: real, isError: bool)

  function KeyOf(s: Span): Key {
    (s.id, s.startedAt)
  }

  predicate HasKey(rows: seq<Span>, k: Key) {
    exists s :: s in rows && KeyOf(s) == k
  }

  ghost predicate DistinctKeys(rows: seq<Span>) {
    forall i, j :: 0 <= i < j < |rows| ==> KeyOf(rows[i]) != KeyOf(rows[j])
  }

  const MICROS_PER_MINUTE := 60_000_000

  function FloorToMinute(t: Instant): Instant {
    t - t % MICROS_PER_MINUTE
  }

  // ---------------------------------------------------------------- WHERE clauses and aggregates

  /** The WHERE clauses that appear in aggregate queries over `spans`. */
  datatype Selector =
    | OfTrace(project: ProjectId, trace: TraceId)
    | OfTraceFrom(project: ProjectId, trace: TraceId, from: Instant)
    | InMinute(project: ProjectId, minute: Instant)
    | SinceMinute(project: ProjectId, from: Instant)

  predicate Selects(sel: Selector, s: Span) {
    match sel
    case OfTrace(p, t) => s.project == p && s.trace == t
    case OfTraceFrom(p, t, from) => s.project == p && s.trace == t && s.startedAt >= from
    case InMinute(p, m) => s.project == p && FloorToMinute(s.startedAt) == m
    case SinceMinute(p, from) => s.project == p && FloorToMinute(s.startedAt) >= from
  }

  datatype Measure = Spans | Errors | Cost | Tokens

  function Weight(m: Measure, s: Span): nat {
    match m
    case Spans => 1
    case Errors => if s.isError then 1 else 0
    case Cost => s.cost
    case Tokens => s.inputTokens + s.outputTokens
  }

  function Sum(rows: seq<Span>, sel: Selector, m: Measure): nat {
    if rows == [] then 0
    else
      var s := rows[|rows| - 1];
      Sum(rows[..|rows| - 1], sel, m) + if Selects(sel, s) then Weight(m, s) else 0
  }

  function LatencySum(rows: seq<Span>, sel: Selector): real {
    if rows == [] then 0.0
    else
      var s := rows[|rows| - 1];
      LatencySum(rows[..|rows| - 1], sel) + if Selects(sel, s) then s.latencyMs else 0.0
  }

  function EndOf(s: Span): real {
    s.startedAt as real + s.latencyMs * 1000.0
  }

  function MaxEnd(rows: seq<Span>, sel: Selector): Option<real> {
    if rows == [] then None
    else
      var s := rows[|rows| - 1];
      var before := MaxEnd(rows[..|rows| - 1], sel);
      if !Selects(sel, s) || (before.Some? && before.value >= EndOf(s)) then before else Some(EndOf(s))
  }

  /** The earliest start among the selected rows. */
  function MinStart(rows: seq<Span>, sel: Selector): Option<Instant> {
    if rows == [] then None
    else
      var s := rows[|rows| - 1];
      var before := MinStart(rows[..|rows| - 1], sel);
      if !Selects(sel, s) || (before.Some? && before.value <= s.startedAt) then before else Some(s.startedAt)
  }

  /** The columns that the aggregate task recomputes for a trace row. */
  datatype Totals = Totals(cost: nat, tokens: nat, count: nat, ended: Option<real>, isError: bool)

  function TotalsOf(rows: seq<Span>, sel: Selector): Totals {
    Totals(Sum(rows, sel, Cost), Sum(rows, sel, Tokens), Sum(rows, sel, Spans), MaxEnd(rows, sel),
           Sum(rows, sel, Errors) > 0)
  }

  // ---------------------------------------------------------------- the folds in terms of columns

  /** The whole minute at or before an instant. */
  lemma FloorIs(t: Instant)
    ensures FloorToMinute(t) <= t < FloorToMinute(t) + 60_000_000 && FloorToMinute(t) % 60_000_000 == 0
  {}

  /** The spans of a trace, from a start on when one is given. */
  function TraceSelector(p: ProjectId, t: TraceId, from: Option<Instant>): Selector {
    if from.Some? then OfTraceFrom(p, t, from.value) else OfTrace(p, t)
  }

  lemma AppendOne(rows: seq<Span>, s: Span)
    ensures (rows + [s])[..|rows|] == rows && (rows + [s])[|rows|] == s
  {}

  /**
   What one more stored span does to the columns of its trace: the cost grows by its cost, the tokens by its input
   and output tokens, the count by one, the end moves to its end when that is later, and an error stays an error.
   */
  lemma TotalsStep(rows: seq<Span>, s: Span, p: ProjectId, t: TraceId, from: Option<Instant>)
    ensures TotalsOf([], TraceSelector(p, t, from)) == Totals(0, 0, 0, None, false)
    ensures var before := TotalsOf(rows, TraceSelector(p, t, from));
            var after := TotalsOf(rows + [s], TraceSelector(p, t, from));
            if s.project == p && s.trace == t && (from.Some? ==> s.startedAt >= from.value)
            then
              && after.cost == before.cost + s.cost
              && after.tokens == before.tokens + s.inputTokens + s.outputTokens
              && after.count == before.count + 1
              && (after.isError <==> before.isError || s.isError)
              && after.ended.Some?
              && var end := s.startedAt as real + s.latencyMs * 1000.0;
                 after.ended == if before.ended.Some? && before.ended.value >= end then before.ended else Some(end)
            else after == before
  {
    AppendOne(rows, s);
  }

  /** The same for a minute of a project, as the metric buckets fold it. */
  lemma MinuteStep(rows: seq<Span>, s: Span, p: ProjectId, m: Instant)
    requires m % 60_000_000 == 0
    ensures var sel := InMinute(p, m);
            var mine := s.project == p && m <= s.startedAt < m + 60_000_000;
            && Sum(rows + [s], sel, Spans) == Sum(rows, sel, Spans) + (if mine then 1 else 0)
            && Sum(rows + [s], sel, Errors) == Sum(rows, sel, Errors) + (if mine && s.isError then 1 else 0)
            && Sum(rows + [s], sel, Cost) == Sum(rows, sel, Cost) + (if mine then s.cost else 0)
            && LatencySum(rows + [s], sel) == LatencySum(rows, sel) + (if mine then s.latencyMs else 0.0)
    ensures Sum([], InMinute(p, m), Spans) == Sum([], InMinute(p, m), Errors) == Sum([], InMinute(p, m), Cost) == 0
    ensures LatencySum([], InMinute(p, m)) == 0.0
  {
    AppendOne(rows, s);
    SameMinute(s.startedAt, m);
  }

  lemma SameMinute(t: Instant, m: Instant)
    requires m % 60_000_000 == 0
    ensures FloorToMinute(t) == m <==> m <= t < m + 60_000_000
  {
    assert t / 60_000_000 == m / 60_000_000 <==> m <= t < m + 60_000_000;
  }

  /** The rows of one trace of a project from an instant on, in table order. */
  function TraceRows(rows: seq<Span>, p: ProjectId, t: TraceId, from: Instant): seq<Span> {
    if rows == [] then []
    else
      var s := rows[|rows| - 1];
      TraceRows(rows[..|rows| - 1], p, t, from)
      + if s.project == p && s.trace == t && s.startedAt >= from then [s] else []
  }

  lemma TraceRowsLast(rows: seq<Span>, s: Span, p: ProjectId, t: TraceId, from: Instant)
    ensures TraceRows(rows + [s], p, t, from)
            == if s.project == p && s.trace == t && s.startedAt >= from then TraceRows(rows, p, t, from) + [s]
               else TraceRows(rows, p, t, from)
  {
    AppendOne(rows, s);
  }

  lemma {:induction false} TraceRowsAre(rows: seq<Span>, p: ProjectId, t: TraceId, from: Instant, s: Span)
    ensures multiset(TraceRows(rows, p, t, from))[s]
            == if s.project == p && s.trace == t && s.startedAt >= from then multiset(rows)[s] else 0
  {
    if rows != [] {
      var init, last := rows[..|rows| - 1], rows[|rows| - 1];
      assert rows == init + [last];
      TraceRowsAre(init, p, t, from, s);
      TraceRowsLast(init, last, p, t, from);
      CountLast(init, last, s);
      CountLast(TraceRows(init, p, t, from), last, s);
    }
  }

  lemma CountLast(rows: seq<Span>, last: Span, s: Span)
    ensures multiset(rows + [last])[s] == multiset(rows)[s] + if last == s then 1 else 0
  {}

  function SumOf(xs: seq<nat>): nat {
    if xs == [] then 0 else SumOf(xs[..|xs| - 1]) + xs[|xs| - 1]
  }

  function Costs(rows: seq<Span>): seq<nat> {
    seq(|rows|, i requires 0 <= i < |rows| => rows[i].cost)
  }

  function TokenCounts(rows: seq<Span>): seq<nat> {
    seq(|rows|, i requires 0 <= i < |rows| => rows[i].inputTokens + rows[i].outputTokens)
  }

  /** Start plus latency, in microseconds. */
  function Ends(rows: seq<Span>): seq<real> {
    seq(|rows|, i requires 0 <= i < |rows| => rows[i].startedAt as real + rows[i].latencyMs * 1000.0)
  }

  ghost predicate IsMaximum(x: Option<real>, xs: seq<real>) {
    && (x.None? <==> xs == [])
    && (x.Some? ==> x.value in xs && forall y :: y in xs ==> y <= x.value)
  }

  /** The columns of a trace row, each from its own column of the given spans. */
  ghost predicate Aggregates(totals: Totals, own: seq<Span>) {
    && totals.cost == SumOf(Costs(own))
    && totals.tokens == SumOf(TokenCounts(own))
    && totals.count == |own|
    && (totals.isError <==> exists s :: s in own && s.isError)
    && IsMaximum(totals.ended, Ends(own))
  }

  lemma SumOfLast(xs: seq<nat>, x: nat)
    ensures SumOf(xs + [x]) == SumOf(xs) + x
  {
    assert (xs + [x])[..|xs|] == xs;
  }

  lemma MaximumLast(before: Option<real>, xs: seq<real>, y: real)
    requires IsMaximum(before, xs)
    ensures IsMaximum(if before.Some? && before.value >= y then before else Some(y), xs + [y])
  {
    assert forall x :: x in xs + [y] <==> x in xs || x == y;
  }

  lemma ErrorsLast(own: seq<Span>, s: Span)
    ensures (exists x :: x in own + [s] && x.isError) <==> s.isError || exists x :: x in own && x.isError
  {
    assert forall x :: x in own + [s] <==> x in own || x == s;
  }

  lemma ColumnsLast(own: seq<Span>, s: Span)
    ensures SumOf(Costs(own + [s])) == SumOf(Costs(own)) + s.cost
    ensures SumOf(TokenCounts(own + [s])) == SumOf(TokenCounts(own)) + s.inputTokens + s.outputTokens
    ensures Ends(own + [s]) == Ends(own) + [s.startedAt as real + s.latencyMs * 1000.0]
  {
    assert Costs(own + [s]) == Costs(own) + [s.cost];
    assert TokenCounts(own + [s]) == TokenCounts(own) + [s.inputTokens + s.outputTokens];
    SumOfLast(Costs(own), s.cost);
    SumOfLast(TokenCounts(own), s.inputTokens + s.outputTokens);
  }

  lemma AggregatesLast(rows: seq<Span>, s: Span, p: ProjectId, t: TraceId, from: Instant)
    requires Aggregates(TotalsOf(rows, OfTraceFrom(p, t, from)), TraceRows(rows, p, t, from))
    requires s.project == p && s.trace == t && s.startedAt >= from
    ensures Aggregates(TotalsOf(rows + [s], OfTraceFrom(p, t, from)), TraceRows(rows, p, t, from) + [s])
  {
    var own := TraceRows(rows, p, t, from);
    TotalsStep(rows, s, p, t, Some(from));
    ColumnsLast(own, s);
    ErrorsLast(own, s);
    MaximumLast(TotalsOf(rows, OfTraceFrom(p, t, from)).ended, Ends(own), s.startedAt as real + s.latencyMs * 1000.0);
  }

  lemma {:induction false} TotalsAreAggregates(rows: seq<Span>, p: ProjectId, t: TraceId, from: Instant)
    ensures Aggregates(TotalsOf(rows, OfTraceFrom(p, t, from)), TraceRows(rows, p, t, from))
  {
    if rows != [] {
      var init, s := rows[..|rows| - 1], rows[|rows| - 1];
      assert rows == init + [s];
      TotalsAreAggregates(init, p, t, from);
      TraceRowsLast(init, s, p, t, from);
      if s.project == p && s.trace == t && s.startedAt >= from {
        AggregatesLast(init, s, p, t, from);
      } else {
        TotalsStep(init, s, p, t, Some(from));
      }
    }
  }

  // ---------------------------------------------------------------- laws of the folds

  lemma {:induction false} SumConcat(a: seq<Span>, b: seq<Span>, sel: Selector, m: Measure)
    ensures Sum(a + b, sel, m) == Sum(a, sel, m) + Sum(b, sel, m)
  {
    if b == [] {
      assert a + b == a;
    } else {
      assert (a + b)[..|a + b| - 1] == a + b[..|b| - 1];
      SumConcat(a, b[..|b| - 1], sel, m);
    }
  }

  lemma {:induction false} LatencyConcat(a: seq<Span>, b: seq<Span>, sel: Selector)
    ensures LatencySum(a + b, sel) == LatencySum(a, sel) + LatencySum(b, sel)
  {
    if b == [] {
      assert a + b == a;
    } else {
      assert (a + b)[..|a + b| - 1] == a + b[..|b| - 1];
      LatencyConcat(a, b[..|b| - 1], sel);
    }
  }

  lemma {:induction false} TotalsAgree(rows: seq<Span>, sel: Selector, sel': Selector)
    requires forall s :: s in rows ==> Selects(sel, s) == Selects(sel', s)
    ensures TotalsOf(rows, sel) == TotalsOf(rows, sel')
  {
    if rows != [] {
      assert rows[|rows| - 1] in rows;
      TotalsAgree(rows[..|rows| - 1], sel, sel');
      TotalsErrors(rows[..|rows| - 1], sel, sel');
    }
  }

  lemma {:induction false} TotalsErrors(rows: seq<Span>, sel: Selector, sel': Selector)
    requires forall s :: s in rows ==> Selects(sel, s) == Selects(sel', s)
    ensures Sum(rows, sel, Errors) == Sum(rows, sel', Errors)
  {
    if rows != [] {
      assert rows[|rows| - 1] in rows;
      TotalsErrors(rows[..|rows| - 1], sel, sel');
    }
  }

  /** Rows that a WHERE clause does not select leave its aggregates alone. */
  lemma {:induction false} TotalsIgnore(a: seq<Span>, b: seq<Span>, sel: Selector)
    requires forall s :: s in b ==> !Selects(sel, s)
    ensures TotalsOf(a + b, sel) == TotalsOf(a, sel)
    ensures MinStart(a + b, sel) == MinStart(a, sel)
  {
    if b == [] {
      assert a + b == a;
    } else {
      assert (a + b)[..|a + b| - 1] == a + b[..|b| - 1];
      assert b[|b| - 1] in b;
      SumConcat(a, b, sel, Errors);
      SumConcat(a, b[..|b| - 1], sel, Errors);
      TotalsIgnore(a, b[..|b| - 1], sel);
    }
  }

  /** `MinStart` is the minimum: it is attained by a selected row and no selected row is earlier. */
  lemma {:induction false} MinStartIsMinimum(rows: seq<Span>, sel: Selector)
    ensures MinStart(rows, sel).None? <==> forall s :: s in rows ==> !Selects(sel, s)
    ensures MinStart(rows, sel).Some? ==>
              && (exists s :: s in rows && Selects(sel, s) && s.startedAt == MinStart(rows, sel).value)
              && (forall s :: s in rows && Selects(sel, s) ==> MinStart(rows, sel).value <= s.startedAt)
  {
    if rows != [] {
      var init, last := rows[..|rows| - 1], rows[|rows| - 1];
      MinStartIsMinimum(init, sel);
      assert rows == init + [last];
      assert forall s :: s in rows <==> s in init || s == last;
    }
  }

  lemma {:induction false} MinStartConcat(a: seq<Span>, b: seq<Span>, sel: Selector)
    ensures MinStart(a + b, sel) == EarlierOf(MinStart(a, sel), MinStart(b, sel))
  {
    if b == [] {
      assert a + b == a;
    } else {
      assert (a + b)[..|a + b| - 1] == a + b[..|b| - 1];
      MinStartConcat(a, b[..|b| - 1], sel);
    }
  }

  /** `MaxEnd` is the maximum: it is attained by a selected row and no selected row ends later. */
  lemma {:induction false} MaxEndIsMaximum(rows: seq<Span>, sel: Selector)
    ensures MaxEnd(rows, sel).None? <==> forall s :: s in rows ==> !Selects(sel, s)
    ensures MaxEnd(rows, sel).Some? ==>
              && (exists s :: s in rows && Selects(sel, s) && EndOf(s) == MaxEnd(rows, sel).value)
              && (forall s :: s in rows && Selects(sel, s) ==> EndOf(s) <= MaxEnd(rows, sel).value)
  {
    if rows != [] {
      var init, last := rows[..|rows| - 1], rows[|rows| - 1];
      MaxEndIsMaximum(init, sel);
      assert rows == init + [last];
      assert forall s :: s in rows <==> s in init || s == last;
    }
  }

  lemma {:induction false} SumPositive(rows: seq<Span>, sel: Selector, s: Span)
    requires s in rows && Selects(sel, s)
    ensures Sum(rows, sel, Spans) > 0
  {
    if rows[|rows| - 1] != s {
      SumPositive(rows[..|rows| - 1], sel, s);
    }
  }

  /** The order of the rows does not matter to a sum. */
  lemma {:induction false} SumPermutes(a: seq<Span>, b: seq<Span>, sel: Selector, m: Measure)
    requires multiset(a) == multiset(b)
    ensures Sum(a, sel, m) == Sum(b, sel, m)
  {
    if a == [] {
      SameSize(a, b);
    } else {
      var init, x := a[..|a| - 1], a[|a| - 1];
      var i := IndexIn(a, b, x);
      var front, back := b[..i], b[i + 1..];
      WithoutOne(a, b, i);
      SumPermutes(init, front + back, sel, m);
      SumConcat(front, back, sel, m);
      SumConcat(front + [x], back, sel, m);
      SumConcat(front, [x], sel, m);
      assert b == front + [x] + back;
      assert [x][..0] == [];
    }
  }

  lemma SameSize(a: seq<Span>, b: seq<Span>)
    requires multiset(a) == multiset(b)
    ensures |a| == |b|
  {
    assert |a| == |multiset(a)| == |multiset(b)| == |b|;
  }

  lemma IndexIn(a: seq<Span>, b: seq<Span>, x: Span) returns (i: nat)
    requires multiset(a) == multiset(b) && x in a
    ensures i < |b| && b[i] == x
  {
    assert x in multiset(b);
    i :| 0 <= i < |b| && b[i] == x;
  }

  lemma WithoutOne(a: seq<Span>, b: seq<Span>, i: nat)
    requires a != [] && multiset(a) == multiset(b) && i < |b| && b[i] == a[|a| - 1]
    ensures multiset(a[..|a| - 1]) == multiset(b[..i] + b[i + 1..])
  {
    var x := b[i];
    assert a == a[..|a| - 1] + [x];
    assert b == b[..i] + [x] + b[i + 1..];
    assert multiset(a) == multiset(a[..|a| - 1]) + multiset{x};
    assert multiset(b) == multiset(b[..i]) + multiset{x} + multiset(b[i + 1..]);
    assert multiset(a[..|a| - 1]) == multiset(a) - multiset{x};
    assert multiset(b[..i] + b[i + 1..]) == multiset(b) - multiset{x};
  }

  lemma SameMembers(a: seq<Span>, b: seq<Span>)
    requires multiset(a) == multiset(b)
    ensures forall s :: s in a <==> s in b
  {
    forall s ensures s in a <==> s in b {
      assert s in multiset(a) <==> s in multiset(b);
    }
  }

  /** Nor does it matter to any aggregate of a trace. */
  lemma TotalsPermute(a: seq<Span>, b: seq<Span>, sel: Selector)
    requires multiset(a) == multiset(b)
    ensures TotalsOf(a, sel) == TotalsOf(b, sel) && MinStart(a, sel) == MinStart(b, sel)
  {
    SumPermutes(a, b, sel, Cost);
    SumPermutes(a, b, sel, Tokens);
    SumPermutes(a, b, sel, Spans);
    SumPermutes(a, b, sel, Errors);
    assert MaxEnd(a, sel) == MaxEnd(b, sel) && MinStart(a, sel) == MinStart(b, sel) by {
      SameMembers(a, b);
      MaxEndPermutes(a, b, sel);
      MinStartPermutes(a, b, sel);
    }
  }

  lemma MinStartPermutes(a: seq<Span>, b: seq<Span>, sel: Selector)
    requires forall s :: s in a <==> s in b
    ensures MinStart(a, sel) == MinStart(b, sel)
  {
    MinStartIsMinimum(a, sel);
    MinStartIsMinimum(b, sel);
  }

  lemma MaxEndPermutes(a: seq<Span>, b: seq<Span>, sel: Selector)
    requires forall s :: s in a <==> s in b
    ensures MaxEnd(a, sel) == MaxEnd(b, sel)
  {
    MaxEndIsMaximum(a, sel);
    MaxEndIsMaximum(b, sel);
  }

  function EarlierOf(a: Option<Instant>, b: Option<Instant>): Option<Instant> {
    if a.None? then b else if b.None? || a.value <= b.value then a else b
  }
}
