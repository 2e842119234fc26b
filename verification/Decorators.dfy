/**
 The `@trace` wrapper and the `span(...)` context manager: nested calls are flattened into spans that carry
 parent pointers taken from two context variables.

 Span ids and fresh trace ids are random UUIDs; the n-th span that is entered gets the number n for both.
 */
module Decorators {
  import opened Options
  import opened SpanTable
  import opened Wire

  /** How a body ends. `RaisedOther` is a BaseException such as a cancellation. */
  datatype Ending = Returned | RaisedException | RaisedOther

  /** One execution of a traced function or of a manual span, with the spans entered directly inside it. */
  datatype Call = Call(manual: bool, ending: Ending, body: seq<Call>)

  datatype Context = Context(trace: Option<TraceId>, span: Option<SpanId>)

  const OUTSIDE := Context(None, None)

  /** The call tree with the span recorded for each call. */
  datatype Tree = Tree(span: SpanData, kids: seq<Tree>)

  function Size(c: Call): nat {
    1 + SizeAll(c.body)
  }

  function SizeAll(calls: seq<Call>): nat {
    if calls == [] then 0 else SizeAll(calls[..|calls| - 1]) + Size(calls[|calls| - 1])
  }

  /** The wrapper's `except Exception` misses other exceptions; `__aexit__` sees them all. */
  predicate RecordsError(c: Call) {
    c.ending == RaisedException || (c.manual && c.ending == RaisedOther)
  }

  function Inside(ctx: Context, n: nat): Context {
    Context(Some(if ctx.trace.Some? then ctx.trace.value else n), Some(n))
  }

  function SpanFor(c: Call, ctx: Context, n: nat, stamp: nat -> Instant): SpanData {
    SpanData(n, Inside(ctx, n).trace.value, ctx.span, stamp(n), RecordsError(c))
  }

  /** A decorated function fails only with an `Exception`, a manual span with whatever its body raised. */
  lemma FailureIs(c: Call)
    ensures c.ending == Returned ==> !RecordsError(c)
    ensures c.ending == RaisedException ==> RecordsError(c)
    ensures c.ending == RaisedOther ==> RecordsError(c) == c.manual
  {}

  /**
   The span of the n-th entry: its own id is new, its trace that of the surrounding context or new as well, and its
   parent the span it was entered in; and what the calls inside it see as their context.
   */
  lemma SpanForIs(c: Call, ctx: Context, n: nat, stamp: nat -> Instant)
    ensures var s := SpanFor(c, ctx, n, stamp);
            && s.spanId == n && s.parentSpanId == ctx.span && s.startedAt == stamp(n)
            && s.traceId == (match ctx.trace case Some(t) => t case None => n)
            && (s.failed <==> c.ending == RaisedException || (c.manual && c.ending != Returned))
            && Inside(ctx, n).trace == Some(s.traceId) && Inside(ctx, n).span == Some(n)
  {}

  /** Each call directly inside another is entered after its earlier siblings and all that ran inside those. */
  lemma {:induction false} SiblingsAreNumbered(calls: seq<Call>, ctx: Context, n: nat, stamp: nat -> Instant, i: nat)
    requires i < |calls|
    ensures |TracedAll(calls, ctx, n, stamp)| == |calls|
    ensures TracedAll(calls, ctx, n, stamp)[i] == Traced(calls[i], ctx, n + SizeAll(calls[..i]), stamp)
  {
    var init := calls[..|calls| - 1];
    if init != [] {
      SiblingsAreNumbered(init, ctx, n, stamp, 0);
    }
    if i < |init| {
      SiblingsAreNumbered(init, ctx, n, stamp, i);
      assert init[..i] == calls[..i];
    }
  }

  /** The tree of a call entered as number `n` in context `ctx`. */
  function Traced(c: Call, ctx: Context, n: nat, stamp: nat -> Instant): Tree
    decreases c, 0
  {
    Tree(SpanFor(c, ctx, n, stamp), TracedAll(c.body, Inside(ctx, n), n + 1, stamp))
  }

  function TracedAll(calls: seq<Call>, ctx: Context, n: nat, stamp: nat -> Instant): seq<Tree>
    decreases calls, 1
  {
    if calls == [] then []
    else
      var init := calls[..|calls| - 1];
      TracedAll(init, ctx, n, stamp) + [Traced(calls[|calls| - 1], ctx, n + SizeAll(init), stamp)]
  }

  /** Spans are recorded when their call ends. */
  function Postorder(t: Tree): Content {
    PostorderAll(t.kids) + [t.span]
  }

  function PostorderAll(ts: seq<Tree>): Content {
    if ts == [] then [] else PostorderAll(ts[..|ts| - 1]) + Postorder(ts[|ts| - 1])
  }

  /** The spans that were entered from number `n` on, each before number `n + |spans|`. */
  ghost predicate EnteredFrom(spans: Content, n: nat) {
    forall k :: 0 <= k < |spans| ==> n <= spans[k].spanId < n + |spans|
  }

  /** A call's span is recorded last of all spans entered since it was, and so has the smallest number of them. */
  lemma {:induction false} OwnSpanIsLast(c: Call, ctx: Context, n: nat, stamp: nat -> Instant)
    ensures var spans := Postorder(Traced(c, ctx, n, stamp));
            |spans| == Size(c) && spans[Size(c) - 1].spanId == n && EnteredFrom(spans[..Size(c) - 1], n + 1)
            && EnteredFrom(spans, n)
    decreases c, 0
  {
    var inner := PostorderAll(TracedAll(c.body, Inside(ctx, n), n + 1, stamp));
    BodyIsEnteredFrom(c.body, Inside(ctx, n), n + 1, stamp);
    assert Postorder(Traced(c, ctx, n, stamp))[..Size(c) - 1] == inner;
  }

  lemma {:induction false} BodyIsEnteredFrom(calls: seq<Call>, ctx: Context, n: nat, stamp: nat -> Instant)
    ensures var spans := PostorderAll(TracedAll(calls, ctx, n, stamp));
            |spans| == SizeAll(calls) && EnteredFrom(spans, n)
    decreases calls, 1
  {
    if calls != [] {
      var init := calls[..|calls| - 1];
      var m := n + SizeAll(init);
      BodyIsEnteredFrom(init, ctx, n, stamp);
      OwnSpanIsLast(calls[|calls| - 1], ctx, m, stamp);
      PostorderAppend(TracedAll(init, ctx, n, stamp), Traced(calls[|calls| - 1], ctx, m, stamp));
    }
  }

  /** Siblings end in the order of their calls: one more call adds its spans after those of the earlier ones. */
  lemma SiblingsEndInOrder(calls: seq<Call>, c: Call, ctx: Context, n: nat, stamp: nat -> Instant)
    ensures PostorderAll(TracedAll(calls + [c], ctx, n, stamp))
         == PostorderAll(TracedAll(calls, ctx, n, stamp)) + Postorder(Traced(c, ctx, n + SizeAll(calls), stamp))
  {
    var all := calls + [c];
    assert all[..|calls|] == calls && all[..|calls| + 1] == all && all[|calls|] == c;
    LastTraced(all, |calls|, ctx, n, stamp);
    PostorderAppend(TracedAll(calls, ctx, n, stamp), Traced(c, ctx, n + SizeAll(calls), stamp));
  }

  class Tracing {
    const stamp: nat -> Instant       // the clock at the n-th entry
    var traceId: Option<TraceId>      // _current_trace_id
    var spanId: Option<SpanId>        // _current_span_id
    var entered: nat
    var recorded: Content

    constructor (stamp: nat -> Instant)
      ensures this.stamp == stamp && Current() == OUTSIDE && entered == 0 && recorded == []
    {
      this.stamp := stamp;
      traceId, spanId, entered, recorded := None, None, 0, [];
    }

    function Current(): Context
      reads this
    {
      Context(traceId, spanId)
    }

    /** Runs a call: the context is what it was, and the spans of the tree have been recorded. */
    method Execute(c: Call)
      modifies this
      ensures Current() == old(Current())
      ensures entered == old(entered) + Size(c)
      ensures recorded == old(recorded) + Postorder(Traced(c, old(Current()), old(entered), stamp))
      decreases c, 0
    {
      var n := entered;
      entered := entered + 1;
      var trace := if traceId.Some? then traceId.value else n;
      var parent := spanId;
      var traceToken, spanToken := traceId, spanId;
      traceId, spanId := Some(trace), Some(n);
      var startedAt := stamp(n);
      ghost var outside := old(Current());
      assert Current() == Inside(outside, n);
      ExecuteBody(c.body);
      ghost var before := recorded;
      LeaveSpan(c, SpanData(n, trace, parent, startedAt, false), traceToken, spanToken);
      RecordedWhole(old(recorded), c, outside, n, stamp, before, recorded);
    }

    /** Leaving a span, by whatever way its body ended: restore the context and record the span. */
    method LeaveSpan(c: Call, span: SpanData, traceToken: Option<TraceId>, spanToken: Option<SpanId>)
      modifies this
      ensures Current() == Context(traceToken, spanToken) && entered == old(entered)
      ensures recorded == old(recorded) + [span.(failed := RecordsError(c))]
    {
      var failed := c.ending == RaisedException;
      if c.manual {
        failed := c.ending != Returned;
        spanId := spanToken;
        traceId := traceToken;
      } else {
        traceId := traceToken;
        spanId := spanToken;
      }
      recorded := recorded + [span.(failed := failed)];
    }

    method ExecuteBody(calls: seq<Call>)
      modifies this
      ensures Current() == old(Current())
      ensures entered == old(entered) + SizeAll(calls)
      ensures recorded == old(recorded) + PostorderAll(TracedAll(calls, old(Current()), old(entered), stamp))
      decreases calls, 1
    {
      for i := 0 to |calls|
        invariant Current() == old(Current())
        invariant entered == old(entered) + SizeAll(calls[..i])
        invariant recorded == old(recorded) + PostorderAll(TracedAll(calls[..i], old(Current()), old(entered), stamp))
      {
        ghost var before := TracedAll(calls[..i], Current(), old(entered), stamp);
        ghost var next := Traced(calls[i], Current(), entered, stamp);
        LastTraced(calls, i, Current(), old(entered), stamp);
        PostorderAppend(before, next);
        RecordedGroups(old(recorded), PostorderAll(before), Postorder(next));
        Execute(calls[i]);
      }
      assert calls[..|calls|] == calls;
    }
  }

  lemma LastTraced(calls: seq<Call>, i: nat, ctx: Context, n: nat, stamp: nat -> Instant)
    requires i < |calls|
    ensures SizeAll(calls[..i + 1]) == SizeAll(calls[..i]) + Size(calls[i])
    ensures TracedAll(calls[..i + 1], ctx, n, stamp)
            == TracedAll(calls[..i], ctx, n, stamp) + [Traced(calls[i], ctx, n + SizeAll(calls[..i]), stamp)]
  {
    assert calls[..i + 1][..i] == calls[..i];
  }

  /** Recording the body's spans and then the call's own span records the call's tree. */
  lemma RecordedWhole(
    recorded: Content, c: Call, ctx: Context, n: nat, stamp: nat -> Instant, before: Content, after: Content)
    requires before == recorded + PostorderAll(TracedAll(c.body, Inside(ctx, n), n + 1, stamp))
    requires after == before + [SpanFor(c, ctx, n, stamp)]
    ensures after == recorded + Postorder(Traced(c, ctx, n, stamp))
  {
    var kids := TracedAll(c.body, Inside(ctx, n), n + 1, stamp);
    RecordedGroups(recorded, PostorderAll(kids), [SpanFor(c, ctx, n, stamp)]);
  }

  lemma RecordedGroups(recorded: Content, a: Content, b: Content)
    ensures recorded + a + b == recorded + (a + b)
  {}

  lemma PostorderAppend(ts: seq<Tree>, t: Tree)
    ensures PostorderAll(ts + [t]) == PostorderAll(ts) + Postorder(t)
  {
    assert (ts + [t])[..|ts|] == ts;
  }
}
