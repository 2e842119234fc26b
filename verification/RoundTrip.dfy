/** From the call tree through recorded spans and back: what the trace page shows is the call tree. */
module RoundTrip {
  import opened Options
  import opened SpanTable
  import opened Wire
  import opened Decorators
  import opened SpanHierarchy

  // ---------------------------------------------------------------- the call tree, as a list

  function Preorder(t: Tree): Content {
    [t.span] + PreorderAll(t.kids)
  }

  function PreorderAll(ts: seq<Tree>): Content {
    if ts == [] then [] else PreorderAll(ts[..|ts| - 1]) + Preorder(ts[|ts| - 1])
  }

  /** The rows that show the tree: preorder, indented by nesting. */
  function TreeRows(t: Tree, depth: nat): seq<Row> {
    [Row(t.span, depth, |t.kids|, t.span.parentSpanId.Some?)] + TreeRowsAll(t.kids, depth + 1)
  }

  function TreeRowsAll(ts: seq<Tree>, depth: nat): seq<Row> {
    if ts == [] then [] else TreeRowsAll(ts[..|ts| - 1], depth) + TreeRows(ts[|ts| - 1], depth)
  }

  ghost predicate Increasing(stamp: nat -> Instant) {
    forall i: nat, j: nat :: i < j ==> stamp(i) < stamp(j)
  }

  /** Entry numbers and stamps run through the preorder list. */
  ghost predicate Numbered(spans: Content, n: nat, stamp: nat -> Instant) {
    forall i :: 0 <= i < |spans| ==> spans[i].spanId == n + i && spans[i].startedAt == stamp(n + i)
  }

  lemma {:induction false} TracedNumbered(c: Call, ctx: Context, n: nat, stamp: nat -> Instant)
    ensures |Preorder(Traced(c, ctx, n, stamp))| == Size(c)
    ensures Numbered(Preorder(Traced(c, ctx, n, stamp)), n, stamp)
    decreases c, 0
  {
    TracedAllNumbered(c.body, Inside(ctx, n), n + 1, stamp);
  }

  lemma {:induction false} TracedAllNumbered(calls: seq<Call>, ctx: Context, n: nat, stamp: nat -> Instant)
    ensures |PreorderAll(TracedAll(calls, ctx, n, stamp))| == SizeAll(calls)
    ensures Numbered(PreorderAll(TracedAll(calls, ctx, n, stamp)), n, stamp)
    decreases calls, 1
  {
    if calls != [] {
      var init := calls[..|calls| - 1];
      TracedAllNumbered(init, ctx, n, stamp);
      TracedNumbered(calls[|calls| - 1], ctx, n + SizeAll(init), stamp);
      TracedAllSplits(calls, ctx, n, stamp);
    }
  }

  lemma TracedAllSplits(calls: seq<Call>, ctx: Context, n: nat, stamp: nat -> Instant)
    requires calls != []
    ensures var init := calls[..|calls| - 1];
            var ts := TracedAll(calls, ctx, n, stamp);
            && ts != [] && ts[..|ts| - 1] == TracedAll(init, ctx, n, stamp)
            && ts[|ts| - 1] == Traced(calls[|calls| - 1], ctx, n + SizeAll(init), stamp)
  {
  }

  /** All spans of one call tree carry the trace id of its outermost call. */
  lemma {:induction false} OneTracePerTree(c: Call, ctx: Context, n: nat, stamp: nat -> Instant)
    ensures forall x :: x in Preorder(Traced(c, ctx, n, stamp)) ==> x.traceId == Inside(ctx, n).trace.value
    decreases c, 0
  {
    OneTraceInside(c.body, Inside(ctx, n), n + 1, stamp);
  }

  lemma {:induction false} OneTraceInside(calls: seq<Call>, ctx: Context, n: nat, stamp: nat -> Instant)
    requires ctx.trace.Some?
    ensures forall x :: x in PreorderAll(TracedAll(calls, ctx, n, stamp)) ==> x.traceId == ctx.trace.value
    decreases calls, 1
  {
    if calls != [] {
      var init := calls[..|calls| - 1];
      OneTraceInside(init, ctx, n, stamp);
      OneTracePerTree(calls[|calls| - 1], ctx, n + SizeAll(init), stamp);
      TracedAllSplits(calls, ctx, n, stamp);
    }
  }

  // ---------------------------------------------------------------- parents stay inside the tree

  ghost predicate ParentsIn(spans: Content, outer: Option<SpanId>, lo: nat, hi: nat) {
    forall x :: x in spans ==> x.parentSpanId == outer || (x.parentSpanId.Some? && lo <= x.parentSpanId.value < hi)
  }

  lemma {:induction false} TracedParents(c: Call, ctx: Context, n: nat, stamp: nat -> Instant)
    ensures ParentsIn(Preorder(Traced(c, ctx, n, stamp)), ctx.span, n, n + Size(c))
    decreases c, 0
  {
    TracedAllParents(c.body, Inside(ctx, n), n + 1, stamp);
  }

  lemma {:induction false} TracedAllParents(calls: seq<Call>, ctx: Context, n: nat, stamp: nat -> Instant)
    ensures ParentsIn(PreorderAll(TracedAll(calls, ctx, n, stamp)), ctx.span, n, n + SizeAll(calls))
    decreases calls, 1
  {
    if calls != [] {
      var init := calls[..|calls| - 1];
      TracedAllParents(init, ctx, n, stamp);
      TracedParents(calls[|calls| - 1], ctx, n + SizeAll(init), stamp);
      TracedAllSplits(calls, ctx, n, stamp);
    }
  }

  /** No span of the list has its parent among the ids `lo .. hi`. */
  ghost predicate NoParentIn(spans: Content, lo: nat, hi: nat) {
    forall x :: x in spans && x.parentSpanId.Some? ==> !(lo <= x.parentSpanId.value < hi)
  }

  lemma {:induction false} ChildrenConcat(a: Content, b: Content, id: SpanId)
    ensures Children(a + b, id) == Children(a, id) + Children(b, id)
  {
    if b == [] {
      assert a + b == a;
    } else {
      assert (a + b)[..|a + b| - 1] == a + b[..|b| - 1];
      ChildrenConcat(a, b[..|b| - 1], id);
    }
  }

  lemma {:induction false} NoChildren(spans: Content, id: SpanId)
    requires NoParentIn(spans, id, id + 1)
    ensures Children(spans, id) == []
  {
    if spans != [] {
      assert spans[|spans| - 1] in spans;
      NoChildren(spans[..|spans| - 1], id);
    }
  }

  function Roots(ts: seq<Tree>): Content {
    if ts == [] then [] else Roots(ts[..|ts| - 1]) + [ts[|ts| - 1].span]
  }

  lemma RootsAppend(ts: seq<Tree>, t: Tree)
    ensures Roots(ts + [t]) == Roots(ts) + [t.span]
  {
    assert (ts + [t])[..|ts|] == ts;
  }

  lemma PreorderAppend(ts: seq<Tree>, t: Tree)
    ensures PreorderAll(ts + [t]) == PreorderAll(ts) + Preorder(t)
  {
    assert (ts + [t])[..|ts|] == ts;
  }

  /** Of a whole inner tree, only its root is a child of the surrounding span. */
  lemma OneChild(c: Call, ctx: Context, m: nat, stamp: nat -> Instant)
    requires ctx.span.Some? && ctx.span.value < m
    ensures Children(Preorder(Traced(c, ctx, m, stamp)), ctx.span.value) == [Traced(c, ctx, m, stamp).span]
  {
    var t := Traced(c, ctx, m, stamp);
    TracedAllParents(c.body, Inside(ctx, m), m + 1, stamp);
    NoChildren(PreorderAll(t.kids), ctx.span.value);
    ChildrenConcat([t.span], PreorderAll(t.kids), ctx.span.value);
    assert [t.span][..0] == [];
  }

  /** Among the spans traced inside a call, its children are the roots of the inner trees, in order. */
  lemma {:induction false} InnerChildren(calls: seq<Call>, ctx: Context, n: nat, stamp: nat -> Instant)
    requires ctx.span.Some? && ctx.span.value < n
    ensures Children(PreorderAll(TracedAll(calls, ctx, n, stamp)), ctx.span.value)
         == Roots(TracedAll(calls, ctx, n, stamp))
  {
    if calls != [] {
      var init, last := calls[..|calls| - 1], calls[|calls| - 1];
      var m := n + SizeAll(init);
      var before, t := TracedAll(init, ctx, n, stamp), Traced(last, ctx, m, stamp);
      InnerChildren(init, ctx, n, stamp);
      assert TracedAll(calls, ctx, n, stamp) == before + [t];
      PreorderAppend(before, t);
      RootsAppend(before, t);
      OneChild(last, ctx, m, stamp);
      ChildrenConcat(PreorderAll(before), Preorder(t), ctx.span.value);
    }
  }

  /** In `all`, every node of the tree has exactly its kids as children. */
  ghost predicate ChildrenMatch(all: Content, t: Tree)
    decreases t
  {
    Children(all, t.span.spanId) == Roots(t.kids) && forall k :: k in t.kids ==> ChildrenMatch(all, k)
  }

  lemma NodeMatches(front: Content, c: Call, b: Content, ctx: Context, n: nat, stamp: nat -> Instant)
    requires NoParentIn(front, n, n + 1) && NoParentIn(b, n, n + 1)
    ensures var inner := PreorderAll(Traced(c, ctx, n, stamp).kids);
            Children(front + inner + b, n) == Roots(Traced(c, ctx, n, stamp).kids)
  {
    var inner := PreorderAll(Traced(c, ctx, n, stamp).kids);
    InnerChildren(c.body, Inside(ctx, n), n + 1, stamp);
    NoChildren(front, n);
    NoChildren(b, n);
    ChildrenConcat(front + inner, b, n);
    ChildrenConcat(front, inner, n);
  }

  lemma Regroup(a: Content, x: Content, y: Content, b: Content)
    ensures a + (x + y) + b == a + x + y + b == a + x + (y + b)
  {
  }

  lemma {:induction false} TreeMatches(a: Content, c: Call, b: Content, ctx: Context, n: nat, stamp: nat -> Instant)
    requires NoParentIn(a, n, n + Size(c)) && NoParentIn(b, n, n + Size(c))
    requires ctx.span.Some? ==> ctx.span.value < n
    ensures ChildrenMatch(a + Preorder(Traced(c, ctx, n, stamp)) + b, Traced(c, ctx, n, stamp))
    decreases c, 0
  {
    var t := Traced(c, ctx, n, stamp);
    var front := a + [t.span];
    Regroup(a, [t.span], PreorderAll(t.kids), b);
    NodeMatches(front, c, b, ctx, n, stamp);
    TreesMatch(front, c.body, b, Inside(ctx, n), n + 1, stamp);
  }

  /** Spans traced under `ctx` keep clear of ids outside their own range. */
  lemma EarlierAside(a: Content, init: seq<Call>, ctx: Context, n: nat, stamp: nat -> Instant, hi: nat)
    requires NoParentIn(a, n, hi) && (ctx.span.Some? ==> ctx.span.value < n)
    ensures NoParentIn(a + PreorderAll(TracedAll(init, ctx, n, stamp)), n + SizeAll(init), hi)
  {
    TracedAllParents(init, ctx, n, stamp);
  }

  lemma LaterAside(last: Call, b: Content, ctx: Context, n: nat, m: nat, stamp: nat -> Instant)
    requires NoParentIn(b, n, m) && n <= m && (ctx.span.Some? ==> ctx.span.value < n)
    ensures NoParentIn(Preorder(Traced(last, ctx, m, stamp)) + b, n, m)
  {
    TracedParents(last, ctx, m, stamp);
  }

  lemma {:induction false} TreesMatch(
    a: Content, calls: seq<Call>, b: Content, ctx: Context, n: nat, stamp: nat -> Instant)
    requires NoParentIn(a, n, n + SizeAll(calls)) && NoParentIn(b, n, n + SizeAll(calls))
    requires ctx.span.Some? ==> ctx.span.value < n
    ensures forall t :: t in TracedAll(calls, ctx, n, stamp) ==>
              ChildrenMatch(a + PreorderAll(TracedAll(calls, ctx, n, stamp)) + b, t)
    decreases calls, 1
  {
    if calls != [] {
      var init, last := calls[..|calls| - 1], calls[|calls| - 1];
      var m := n + SizeAll(init);
      var before, t := TracedAll(init, ctx, n, stamp), Traced(last, ctx, m, stamp);
      assert TracedAll(calls, ctx, n, stamp) == before + [t];
      assert PreorderAll(before + [t]) == PreorderAll(before) + Preorder(t);
      Regroup(a, PreorderAll(before), Preorder(t), b);
      EarlierAside(a, init, ctx, n, stamp, m + Size(last));
      LaterAside(last, b, ctx, n, m, stamp);
      TreeMatches(a + PreorderAll(before), last, b, ctx, m, stamp);
      TreesMatch(a, init, Preorder(t) + b, ctx, n, stamp);
    }
  }

  // ---------------------------------------------------------------- sorting a sorted list

  ghost predicate Ascending(spans: Content) {
    forall i, j :: 0 <= i < j < |spans| ==> spans[i].startedAt < spans[j].startedAt
  }

  /** The page's stable millisecond sort keeps a list that is already in order. */
  lemma {:induction false} SortIsIdentity(spans: Content)
    requires Ascending(spans)
    ensures SortByStart(spans) == spans
  {
    if spans != [] {
      SortIsIdentity(spans[..|spans| - 1]);
    }
  }

  lemma {:induction false} ChildrenAscending(spans: Content, id: SpanId)
    requires Ascending(spans)
    ensures Ascending(Children(spans, id))
  {
    if spans != [] {
      var init, s := spans[..|spans| - 1], spans[|spans| - 1];
      ChildrenAscending(init, id);
      ChildrenAre(init, id);
      var before := Children(init, id);
      forall i | 0 <= i < |before| ensures before[i].startedAt < s.startedAt {
        assert before[i] in before && before[i] in init;
        var j :| 0 <= j < |init| && init[j] == before[i];
        assert spans[j].startedAt < spans[|spans| - 1].startedAt;
      }
    }
  }

  // ---------------------------------------------------------------- visiting a tree

  ghost predicate Unvisited(p: Progress, lo: nat, hi: nat) {
    forall i: nat :: lo <= i < hi ==> i !in p.visited
  }

  /** `r` adds these rows to `p`, and visits the ids `lo .. hi`. */
  ghost predicate Adds(p: Progress, r: Progress, rows: seq<Row>, lo: nat, hi: nat) {
    r.rows == p.rows + rows && forall i :: i in r.visited <==> i in p.visited || lo <= i < hi
  }

  ghost predicate Page(all: Content) {
    Ascending(all) && forall x :: x in all && x.parentSpanId.Some? ==> HasKnownParent(all, x)
  }

  /** A page lists a span's children in order, so sorting them changes nothing. */
  lemma PageChildren(all: Content, id: SpanId)
    requires Page(all)
    ensures SortedChildren(all, id) == Children(all, id)
  {
    ChildrenAscending(all, id);
    SortIsIdentity(Children(all, id));
  }

  lemma {:induction false} VisitTree(
    all: Content, p: Progress, c: Call, ctx: Context, n: nat, stamp: nat -> Instant, depth: nat)
    requires Page(all) && Unvisited(p, n, n + Size(c))
    requires ChildrenMatch(all, Traced(c, ctx, n, stamp)) && Traced(c, ctx, n, stamp).span in all
    ensures var t := Traced(c, ctx, n, stamp);
            Adds(p, Visit(all, p, t.span, depth), TreeRows(t, depth), n, n + Size(c))
    decreases c, 0
  {
    var t := Traced(c, ctx, n, stamp);
    var row := Row(t.span, depth, |t.kids|, t.span.parentSpanId.Some?);
    var begun := Progress(p.rows + [row], p.visited + {n});
    var r := Visit(all, p, t.span, depth);
    assert AllFrom(Roots(t.kids), all) && r == VisitAll(all, begun, Roots(t.kids), depth + 1) by {
      VisitNode(all, p, t, depth);
    }
    assert Adds(begun, r, TreeRowsAll(t.kids, depth + 1), n + 1, n + Size(c)) by {
      VisitTrees(all, begun, c.body, Inside(ctx, n), n + 1, stamp, depth + 1);
    }
    AddsAfterRow(p, n, row, r, TreeRowsAll(t.kids, depth + 1), n + Size(c));
  }

  lemma AddsAfterRow(p: Progress, n: nat, row: Row, r: Progress, rows: seq<Row>, hi: nat)
    requires n < hi && Adds(Progress(p.rows + [row], p.visited + {n}), r, rows, n + 1, hi)
    ensures Adds(p, r, [row] + rows, n, hi)
  {
    RowsRegroup(p.rows, [row], rows);
  }

  /** What two visits one after the other add. */
  lemma AddsChain(p: Progress, mid: Progress, r: Progress, ts: seq<Tree>, t: Tree, depth: nat, lo: nat, m: nat, hi: nat)
    requires lo <= m <= hi
    requires Adds(p, mid, TreeRowsAll(ts, depth), lo, m) && Adds(mid, r, TreeRows(t, depth), m, hi)
    ensures Adds(p, r, TreeRowsAll(ts + [t], depth), lo, hi)
  {
    assert (ts + [t])[..|ts|] == ts;
    RowsRegroup(p.rows, TreeRowsAll(ts, depth), TreeRows(t, depth));
  }

  lemma StillUnvisited(p: Progress, mid: Progress, rows: seq<Row>, lo: nat, m: nat, hi: nat)
    requires Unvisited(p, lo, hi) && lo <= m && Adds(p, mid, rows, lo, m)
    ensures Unvisited(mid, m, hi)
  {}

  lemma RowsRegroup(a: seq<Row>, b: seq<Row>, c: seq<Row>)
    ensures a + b + c == a + (b + c)
  {
  }

  /** Visiting an unvisited node of the tree writes its row and goes on with its kids. */
  lemma VisitNode(all: Content, p: Progress, t: Tree, depth: nat)
    requires Page(all) && t.span in all && t.span.spanId !in p.visited
    requires Children(all, t.span.spanId) == Roots(t.kids)
    ensures AllFrom(Roots(t.kids), all)
    ensures Visit(all, p, t.span, depth)
         == VisitAll(all, Progress(p.rows + [Row(t.span, depth, |t.kids|, t.span.parentSpanId.Some?)],
                                   p.visited + {t.span.spanId}), Roots(t.kids), depth + 1)
  {
    PageChildren(all, t.span.spanId);
    SortedChildrenAre(all, t.span.spanId);
    RootsLength(t.kids);
    assert Begun(all, p, t.span, depth)
        == Progress(p.rows + [Row(t.span, depth, |t.kids|, t.span.parentSpanId.Some?)], p.visited + {t.span.spanId});
  }

  lemma {:induction false} RootsLength(ts: seq<Tree>)
    ensures |Roots(ts)| == |ts|
  {
    if ts != [] {
      RootsLength(ts[..|ts| - 1]);
    }
  }

  lemma {:induction false} VisitTrees(
    all: Content, p: Progress, calls: seq<Call>, ctx: Context, n: nat, stamp: nat -> Instant, depth: nat)
    requires Page(all) && Unvisited(p, n, n + SizeAll(calls))
    requires forall t :: t in TracedAll(calls, ctx, n, stamp) ==> ChildrenMatch(all, t)
    requires AllFrom(Roots(TracedAll(calls, ctx, n, stamp)), all)
    ensures var ts := TracedAll(calls, ctx, n, stamp);
            Adds(p, VisitAll(all, p, Roots(ts), depth), TreeRowsAll(ts, depth), n, n + SizeAll(calls))
    decreases calls, 1
  {
    var ts := TracedAll(calls, ctx, n, stamp);
    if calls == [] {
      assert p.rows + [] == p.rows;
    } else {
      var init, last := calls[..|calls| - 1], calls[|calls| - 1];
      var m := n + SizeAll(init);
      TracedAllSplits(calls, ctx, n, stamp);
      var before, t := TracedAll(init, ctx, n, stamp), Traced(last, ctx, m, stamp);
      assert ts == before + [t];
      RootsAppend(before, t);
      VisitAllSplits(all, p, Roots(before), t.span, depth);
      VisitTrees(all, p, init, ctx, n, stamp, depth);
      var mid := VisitAll(all, p, Roots(before), depth);
      StillUnvisited(p, mid, TreeRowsAll(before, depth), n, m, m + Size(last));
      VisitTree(all, mid, last, ctx, m, stamp, depth);
      AddsChain(p, mid, Visit(all, mid, t.span, depth), before, t, depth, n, m, m + Size(last));
    }
  }

  lemma VisitAllSplits(all: Content, p: Progress, list: Content, s: SpanData, depth: nat)
    requires AllFrom(list + [s], all)
    ensures AllFrom(list, all) && s in all
    ensures VisitAll(all, p, list + [s], depth) == Visit(all, VisitAll(all, p, list, depth), s, depth)
  {
    assert s in list + [s] && forall x :: x in list ==> x in list + [s];
    assert (list + [s])[..|list|] == list;
  }

  // ---------------------------------------------------------------- the whole page

  /** A listing of the recorded spans by start time, as the API's ORDER BY returns it. */
  ghost predicate ListedByStart(list: Content, recorded: Content) {
    multiset(list) == multiset(recorded) && Ascending(list)
  }

  lemma {:induction false} SameSpans(t: Tree)
    ensures multiset(Preorder(t)) == multiset(Postorder(t))
  {
    SameSpansAll(t.kids);
  }

  lemma {:induction false} SameSpansAll(ts: seq<Tree>)
    ensures multiset(PreorderAll(ts)) == multiset(PostorderAll(ts))
  {
    if ts != [] {
      SameSpansAll(ts[..|ts| - 1]);
      SameSpans(ts[|ts| - 1]);
    }
  }

  lemma NumberedAscends(spans: Content, n: nat, stamp: nat -> Instant)
    requires Numbered(spans, n, stamp) && Increasing(stamp)
    ensures Ascending(spans)
  {
  }

  /** The last element of an ascending list is its only element that starts latest. */
  lemma AscendingLast(a: Content)
    requires Ascending(a) && a != []
    ensures forall x :: x in a ==> x == a[|a| - 1] || x.startedAt < a[|a| - 1].startedAt
    ensures forall x :: x in a[..|a| - 1] <==> x in a && x != a[|a| - 1]
  {
    assert a == a[..|a| - 1] + [a[|a| - 1]];
    forall x | x in a[..|a| - 1] ensures x.startedAt < a[|a| - 1].startedAt {
      var i :| 0 <= i < |a| - 1 && a[i] == x;
    }
  }

  /** Strictly ascending lists with the same elements are the same list. */
  lemma {:induction false} AscendingUnique(a: Content, b: Content)
    requires Ascending(a) && Ascending(b) && forall x :: x in a <==> x in b
    ensures a == b
  {
    if a == [] {
      assert forall i :: 0 <= i < |b| ==> b[i] in a;
    } else {
      assert a[|a| - 1] in b;
      AscendingLast(a);
      AscendingLast(b);
      assert b[|b| - 1] in a;
      assert a[|a| - 1] == b[|b| - 1];
      var a', b' := a[..|a| - 1], b[..|b| - 1];
      forall x ensures x in a' <==> x in b' {
        assert x in a' <==> x in a && x != a[|a| - 1];
        assert x in b' <==> x in b && x != b[|b| - 1];
      }
      AscendingUnique(a', b');
      assert a == a[..|a| - 1] + [a[|a| - 1]] && b == b[..|b| - 1] + [b[|b| - 1]];
    }
  }

  /** Among spans traced outside any other call, exactly the roots have no parent, and every parent is present. */
  lemma TopLevelParents(calls: seq<Call>, n: nat, stamp: nat -> Instant)
    ensures var all := PreorderAll(TracedAll(calls, OUTSIDE, n, stamp));
            forall x :: x in all && x.parentSpanId.Some? ==> HasKnownParent(all, x)
  {
    var all := PreorderAll(TracedAll(calls, OUTSIDE, n, stamp));
    TracedAllParents(calls, OUTSIDE, n, stamp);
    TracedAllNumbered(calls, OUTSIDE, n, stamp);
    forall x | x in all && x.parentSpanId.Some? ensures HasKnownParent(all, x) {
      var q := all[x.parentSpanId.value - n];
      assert q in all && q.spanId == x.parentSpanId.value;
    }
  }

  lemma {:induction false} FirstPassSkips(all: Content, a: Content, b: Content)
    requires AllFrom(a + b, all) && forall x :: x in b ==> HasKnownParent(all, x)
    ensures AllFrom(a, all) && FirstPass(all, a + b) == FirstPass(all, a)
  {
    forall x | x in a ensures x in all {
      assert x in a + b;
    }
    if b == [] {
      assert a + b == a;
    } else {
      assert b[|b| - 1] in b;
      assert (a + b)[..|a + b| - 1] == a + b[..|b| - 1];
      forall x | x in a + b[..|b| - 1] ensures x in all {
        assert x in a + b;
      }
      FirstPassSkips(all, a, b[..|b| - 1]);
    }
  }

  lemma {:induction false} InnerParentsKnown(c: Call, ctx: Context, n: nat, stamp: nat -> Instant)
    ensures forall x :: x in PreorderAll(Traced(c, ctx, n, stamp).kids) ==> x.parentSpanId.Some?
  {
    TracedAllParents(c.body, Inside(ctx, n), n + 1, stamp);
  }

  /** The first pass over the page visits the roots in order and skips everything else. */
  lemma {:induction false} FirstPassShowsTrees(all: Content, calls: seq<Call>, n: nat, stamp: nat -> Instant)
    requires Page(all)
    requires forall t :: t in TracedAll(calls, OUTSIDE, n, stamp) ==> ChildrenMatch(all, t)
    requires AllFrom(PreorderAll(TracedAll(calls, OUTSIDE, n, stamp)), all)
    ensures var ts := TracedAll(calls, OUTSIDE, n, stamp);
            Adds(Progress([], {}), FirstPass(all, PreorderAll(ts)), TreeRowsAll(ts, 0), n, n + SizeAll(calls))
  {
    if calls != [] {
      var init, last := calls[..|calls| - 1], calls[|calls| - 1];
      var m := n + SizeAll(init);
      TracedAllSplits(calls, OUTSIDE, n, stamp);
      var before, t := TracedAll(init, OUTSIDE, n, stamp), Traced(last, OUTSIDE, m, stamp);
      assert TracedAll(calls, OUTSIDE, n, stamp) == before + [t];
      FirstPassShowsLast(all, before, last, m, stamp);
      FirstPassShowsTrees(all, init, n, stamp);
      var mid := FirstPass(all, PreorderAll(before));
      StillUnvisited(Progress([], {}), mid, TreeRowsAll(before, 0), n, m, m + Size(last));
      VisitTree(all, mid, last, OUTSIDE, m, stamp, 0);
      AddsChain(Progress([], {}), mid, Visit(all, mid, t.span, 0), before, t, 0, n, m, m + Size(last));
    }
  }

  /** The part of the page that shows one more tree: its root is visited, its inner spans are skipped. */
  lemma FirstPassShowsLast(all: Content, before: seq<Tree>, last: Call, m: nat, stamp: nat -> Instant)
    requires Page(all) && AllFrom(PreorderAll(before + [Traced(last, OUTSIDE, m, stamp)]), all)
    ensures var t := Traced(last, OUTSIDE, m, stamp);
            && AllFrom(PreorderAll(before), all) && t.span in all
            && FirstPass(all, PreorderAll(before + [t])) == Visit(all, FirstPass(all, PreorderAll(before)), t.span, 0)
  {
    var t := Traced(last, OUTSIDE, m, stamp);
    var front, inner := PreorderAll(before), PreorderAll(t.kids);
    assert (before + [t])[..|before|] == before;
    assert PreorderAll(before + [t]) == (front + [t.span]) + inner;
    InnerParentsKnown(last, OUTSIDE, m, stamp);
    forall x | x in inner ensures HasKnownParent(all, x) {
      assert x in PreorderAll(before + [t]);
    }
    FirstPassSkips(all, front + [t.span], inner);
    FirstPassVisits(all, front, t.span);
  }

  lemma FirstPassVisits(all: Content, front: Content, s: SpanData)
    requires AllFrom(front + [s], all) && !HasKnownParent(all, s)
    ensures AllFrom(front, all) && s in all
    ensures FirstPass(all, front + [s]) == Visit(all, FirstPass(all, front), s, 0)
  {
    assert s in front + [s] && forall x :: x in front ==> x in front + [s];
    assert (front + [s])[..|front|] == front;
  }

  lemma PageOf(calls: seq<Call>, n: nat, stamp: nat -> Instant)
    requires Increasing(stamp)
    ensures var ts := TracedAll(calls, OUTSIDE, n, stamp);
            Page(PreorderAll(ts)) && forall t :: t in ts ==> ChildrenMatch(PreorderAll(ts), t)
  {
    var ts := TracedAll(calls, OUTSIDE, n, stamp);
    TracedAllNumbered(calls, OUTSIDE, n, stamp);
    NumberedAscends(PreorderAll(ts), n, stamp);
    TopLevelParents(calls, n, stamp);
    TreesMatch([], calls, [], OUTSIDE, n, stamp);
    assert [] + PreorderAll(ts) + [] == PreorderAll(ts);
  }

  /**
   Round trip. Run any well-nested sequence of traced functions and manual spans outside other spans, on a
   clock that advances between entries. However the recorded spans travelled, once they are listed by start
   time the page shows exactly the call trees: their preorder, indented by nesting, with the right numbers
   of children.
   */
  lemma PageShowsCallTrees(calls: seq<Call>, n: nat, stamp: nat -> Instant, list: Content)
    requires Increasing(stamp)
    requires ListedByStart(list, PostorderAll(TracedAll(calls, OUTSIDE, n, stamp)))
    ensures Build(list) == TreeRowsAll(TracedAll(calls, OUTSIDE, n, stamp), 0)
  {
    var ts := TracedAll(calls, OUTSIDE, n, stamp);
    var all := PreorderAll(ts);
    PageOf(calls, n, stamp);
    ListIsPreorder(list, ts);
    SortIsIdentity(all);
    FirstPassShowsTrees(all, calls, n, stamp);
    PreorderIsVisited(calls, n, stamp, FirstPass(all, all));
    VisitedAddsNothing(all, FirstPass(all, all), all, 0);
  }

  /** Listing the recorded spans by start time brings the postorder of recording into preorder. */
  lemma ListIsPreorder(list: Content, ts: seq<Tree>)
    requires ListedByStart(list, PostorderAll(ts)) && Ascending(PreorderAll(ts))
    ensures list == PreorderAll(ts)
  {
    SameSpansAll(ts);
    assert forall x :: (x in list <==> x in multiset(list))
                       && (x in PreorderAll(ts) <==> x in multiset(PreorderAll(ts)));
    AscendingUnique(list, PreorderAll(ts));
  }

  lemma PreorderIsVisited(calls: seq<Call>, n: nat, stamp: nat -> Instant, p: Progress)
    requires forall i :: n <= i < n + SizeAll(calls) ==> i in p.visited
    ensures forall x :: x in PreorderAll(TracedAll(calls, OUTSIDE, n, stamp)) ==> x.spanId in p.visited
  {
    var all := PreorderAll(TracedAll(calls, OUTSIDE, n, stamp));
    TracedAllNumbered(calls, OUTSIDE, n, stamp);
    forall x | x in all ensures x.spanId in p.visited {
      var i :| 0 <= i < |all| && all[i] == x;
    }
  }

  /** The tracer's context does its part: running one call records that call's tree and restores the context. */
  method RunAndShow(tracing: Tracing, c: Call, ghost list: Content)
    requires tracing.Current() == OUTSIDE && tracing.recorded == [] && Increasing(tracing.stamp)
    requires ListedByStart(list, Postorder(Traced(c, OUTSIDE, tracing.entered, tracing.stamp)))
    modifies tracing
    ensures tracing.Current() == OUTSIDE
    ensures ListedByStart(list, tracing.recorded)
    ensures Build(list) == TreeRows(Traced(c, OUTSIDE, old(tracing.entered), tracing.stamp), 0)
  {
    ghost var n := tracing.entered;
    tracing.Execute(c);
    ghost var t := Traced(c, OUTSIDE, n, tracing.stamp);
    assert [c][..0] == [] && TracedAll([c], OUTSIDE, n, tracing.stamp) == [t];
    assert PostorderAll([t]) == PostorderAll([t][..0]) + Postorder(t);
    PageShowsCallTrees([c], n, tracing.stamp, list);
    assert TreeRowsAll([t], 0) == TreeRowsAll([t][..0], 0) + TreeRows(t, 0);
  }
}
