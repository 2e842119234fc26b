/**
 The trace page's `buildSpanHierarchy`: from spans with arbitrary parent pointers (missing, self or cyclic)
 to an indented list of rows.
 */
module SpanHierarchy {
  import opened Options
  import opened SpanTable
  import opened Wire

  datatype Row = Row(span: SpanData, depth: nat, childCount: nat, hasKnownParent: bool)

  /** Rows written so far and the ids already visited. */
  datatype Progress = Progress(rows: seq<Row>, visited: set<SpanId>)

  /** Dates have millisecond resolution. */
  function SpanStart(s: SpanData): int {
    s.startedAt / 1000
  }

  /** The stable sort by start: an element goes behind all elements that do not start later. */
  function InsertByStart(sorted: Content, s: SpanData): Content {
    if sorted == [] || SpanStart(sorted[|sorted| - 1]) <= SpanStart(s) then sorted + [s]
    else InsertByStart(sorted[..|sorted| - 1], s) + [sorted[|sorted| - 1]]
  }

  function SortByStart(spans: Content): Content {
    if spans == [] then [] else InsertByStart(SortByStart(spans[..|spans| - 1]), spans[|spans| - 1])
  }

  function Ids(spans: Content): set<SpanId> {
    set s | s in spans :: s.spanId
  }

  /** What the node map holds for `id` after both filling loops, in input order. */
  function Children(spans: Content, id: SpanId): Content {
    if spans == [] then []
    else
      var s := spans[|spans| - 1];
      Children(spans[..|spans| - 1], id) + if s.parentSpanId == Some(id) && s.spanId != id then [s] else []
  }

  predicate HasKnownParent(spans: Content, s: SpanData) {
    s.parentSpanId.Some? && s.parentSpanId.value in Ids(spans)
  }

  function SortedChildren(spans: Content, id: SpanId): Content {
    SortByStart(Children(spans, id))
  }

  function RowFor(spans: Content, s: SpanData, depth: nat): Row {
    Row(s, depth, |SortedChildren(spans, s.spanId)|, HasKnownParent(spans, s))
  }

  function Begun(spans: Content, p: Progress, s: SpanData, depth: nat): Progress {
    Progress(p.rows + [RowFor(spans, s, depth)], p.visited + {s.spanId})
  }

  lemma {:induction false} InsertMembers(sorted: Content, s: SpanData)
    ensures forall x :: x in InsertByStart(sorted, s) <==> x in sorted || x == s
    ensures |InsertByStart(sorted, s)| == |sorted| + 1
  {
    if sorted != [] && SpanStart(sorted[|sorted| - 1]) > SpanStart(s) {
      InsertMembers(sorted[..|sorted| - 1], s);
      assert sorted == sorted[..|sorted| - 1] + [sorted[|sorted| - 1]];
    }
  }

  lemma {:induction false} SortMembers(spans: Content)
    ensures forall x :: x in SortByStart(spans) <==> x in spans
    ensures |SortByStart(spans)| == |spans|
  {
    if spans != [] {
      SortMembers(spans[..|spans| - 1]);
      InsertMembers(SortByStart(spans[..|spans| - 1]), spans[|spans| - 1]);
      assert spans == spans[..|spans| - 1] + [spans[|spans| - 1]];
    }
  }

  lemma {:induction false} ChildrenAre(spans: Content, id: SpanId)
    ensures forall s :: s in Children(spans, id) <==> s in spans && s.parentSpanId == Some(id) && s.spanId != id
  {
    if spans != [] {
      ChildrenAre(spans[..|spans| - 1], id);
      assert spans == spans[..|spans| - 1] + [spans[|spans| - 1]];
    }
  }

  lemma SortedChildrenAre(spans: Content, id: SpanId)
    ensures forall s :: s in SortedChildren(spans, id) <==> s in spans && s.parentSpanId == Some(id) && s.spanId != id
  {
    ChildrenAre(spans, id);
    SortMembers(Children(spans, id));
  }

  predicate AllFrom(list: Content, spans: Content) {
    forall s :: s in list ==> s in spans
  }

  /** `visit`: recursive, ended by the set of visited ids. */
  function Visit(spans: Content, p: Progress, s: SpanData, depth: nat): (r: Progress)
    requires s in spans
    ensures p.visited <= r.visited
    decreases |Ids(spans) - p.visited|, 0, 0
  {
    if s.spanId in p.visited then p
    else
      var begun := Begun(spans, p, s, depth);
      Shrinks(spans, p.visited, s);
      SortedChildrenAre(spans, s.spanId);
      VisitAll(spans, begun, SortedChildren(spans, s.spanId), depth + 1)
  }

  function VisitAll(spans: Content, p: Progress, list: Content, depth: nat): (r: Progress)
    requires AllFrom(list, spans)
    ensures p.visited <= r.visited
    decreases |Ids(spans) - p.visited|, 1, |list|
  {
    if list == [] then p
    else
      var before := VisitAll(spans, p, list[..|list| - 1], depth);
      assert list[|list| - 1] in list;
      Grows(spans, p.visited, before.visited);
      Visit(spans, before, list[|list| - 1], depth)
  }

  lemma Shrinks(spans: Content, visited: set<SpanId>, s: SpanData)
    requires s in spans && s.spanId !in visited
    ensures |Ids(spans) - (visited + {s.spanId})| < |Ids(spans) - visited|
  {
    assert Ids(spans) - (visited + {s.spanId}) == (Ids(spans) - visited) - {s.spanId};
    assert s.spanId in Ids(spans) - visited;
  }

  lemma Grows(spans: Content, before: set<SpanId>, after: set<SpanId>)
    requires before <= after
    ensures |Ids(spans) - after| <= |Ids(spans) - before|
  {
    SubsetSize(Ids(spans) - after, Ids(spans) - before);
  }

  lemma {:induction false} SubsetSize(a: set<SpanId>, b: set<SpanId>)
    requires a <= b
    ensures |a| <= |b|
  {
    if x :| x in a {
      SubsetSize(a - {x}, b - {x});
    }
  }

  /** The first pass starts from the spans without a known parent. */
  function FirstPass(spans: Content, sorted: Content): Progress
    requires AllFrom(sorted, spans)
  {
    if sorted == [] then Progress([], {})
    else
      var s := sorted[|sorted| - 1];
      var before := FirstPass(spans, sorted[..|sorted| - 1]);
      assert s in sorted;
      if HasKnownParent(spans, s) then before else Visit(spans, before, s, 0)
  }

  function AfterFirstPass(spans: Content): Progress {
    SortMembers(spans);
    FirstPass(spans, SortByStart(spans))
  }

  function BuildProgress(spans: Content): Progress {
    SortMembers(spans);
    VisitAll(spans, AfterFirstPass(spans), SortByStart(spans), 0)
  }

  function Build(spans: Content): seq<Row> {
    BuildProgress(spans).rows
  }

  // ---------------------------------------------------------------- the code

  class HierarchyBuilder {
    const spans: Content
    var nodes: map<SpanId, Content>     // children by id
    var rows: seq<Row>
    var visited: set<SpanId>

    constructor (spans: Content)
      ensures this.spans == spans && State() == Progress([], {})
    {
      this.spans := spans;
      nodes, rows, visited := map[], [], {};
    }

    function State(): Progress
      reads this
    {
      Progress(rows, visited)
    }

    ghost predicate Filled()
      reads this`nodes
    {
      nodes.Keys == Ids(spans) && forall id :: id in nodes ==> nodes[id] == Children(spans, id)
    }

    /** The two filling loops: a node for every id, then every span into its parent's node, in input order. */
    method FillNodes()
      modifies this`nodes
      ensures Filled()
    {
      nodes := map[];
      for i := 0 to |spans|
        invariant nodes.Keys == Ids(spans[..i]) && forall id :: id in nodes ==> nodes[id] == []
      {
        assert spans[..i + 1] == spans[..i] + [spans[i]];
        nodes := nodes[spans[i].spanId := []];
      }
      assert spans[..|spans|] == spans;
      for i := 0 to |spans|
        invariant nodes.Keys == Ids(spans) && forall id :: id in nodes ==> nodes[id] == Children(spans[..i], id)
      {
        var s := spans[i];
        assert spans[..i + 1][..i] == spans[..i];
        if s.parentSpanId.Some? && s.parentSpanId.value != s.spanId {
          var parent := s.parentSpanId.value;
          if parent in nodes {
            nodes := nodes[parent := nodes[parent] + [s]];
          }
        }
      }
    }

    predicate KnowsParent(s: SpanData)
      reads this`nodes
    {
      s.parentSpanId.Some? && s.parentSpanId.value in nodes
    }

    /** Marks the span visited and writes its row. */
    method BeginSpan(s: SpanData, depth: nat) returns (children: Content)
      requires s in spans && Filled()
      modifies this`rows, this`visited
      ensures State() == Begun(spans, old(State()), s, depth)
      ensures children == SortedChildren(spans, s.spanId)
    {
      visited := visited + {s.spanId};
      children := SortByStart(if s.spanId in nodes then nodes[s.spanId] else []);
      rows := rows + [Row(s, depth, |children|, KnowsParent(s))];
    }

    method VisitSpan(s: SpanData, depth: nat)
      requires s in spans && Filled()
      modifies this`rows, this`visited
      ensures State() == Visit(spans, old(State()), s, depth)
      decreases |Ids(spans) - visited|, 0
    {
      if s.spanId in visited {
        return;
      }
      Shrinks(spans, visited, s);
      SortedChildrenAre(spans, s.spanId);
      var children := BeginSpan(s, depth);
      VisitEach(children, depth + 1);
    }

    /** The loop over a span's sorted children, or over all spans in the second pass. */
    method VisitEach(list: Content, depth: nat)
      requires Filled() && AllFrom(list, spans)
      modifies this`rows, this`visited
      ensures State() == VisitAll(spans, old(State()), list, depth)
      decreases |Ids(spans) - visited|, 1
    {
      for i := 0 to |list|
        invariant State() == VisitAll(spans, old(State()), list[..i], depth)
      {
        assert list[..i + 1][..i] == list[..i];
        assert list[i] in list;
        Grows(spans, old(visited), visited);
        VisitSpan(list[i], depth);
      }
      assert list[..|list|] == list;
    }

    method BuildSpanHierarchy()
      requires State() == Progress([], {})
      modifies this
      ensures rows == Build(spans)
    {
      FillNodes();
      var sorted := SortByStart(spans);
      SortMembers(spans);
      VisitRoots(sorted);
      VisitEach(sorted, 0);
    }

    /** The first loop, over the spans whose parent is not on the page. */
    method VisitRoots(sorted: Content)
      requires Filled() && AllFrom(sorted, spans) && State() == Progress([], {})
      modifies this`rows, this`visited
      ensures State() == FirstPass(spans, sorted)
    {
      for i := 0 to |sorted|
        invariant State() == FirstPass(spans, sorted[..i])
      {
        assert sorted[..i + 1][..i] == sorted[..i];
        assert sorted[i] in sorted;
        assert KnowsParent(sorted[i]) == HasKnownParent(spans, sorted[i]);
        if !KnowsParent(sorted[i]) {
          VisitSpan(sorted[i], 0);
        }
      }
      assert sorted[..|sorted|] == sorted;
    }
  }

  // ---------------------------------------------------------------- each id once

  /** The visited set is exactly the ids of the rows, and no id has two rows. */
  ghost predicate Recorded(p: Progress) {
    && (forall i, j :: 0 <= i < j < |p.rows| ==> p.rows[i].span.spanId != p.rows[j].span.spanId)
    && (forall r :: r in p.rows ==> r.span.spanId in p.visited)
    && (forall id :: id in p.visited ==> exists r :: r in p.rows && r.span.spanId == id)
  }

  lemma BegunRecords(spans: Content, p: Progress, s: SpanData, depth: nat)
    requires Recorded(p) && s.spanId !in p.visited
    ensures Recorded(Begun(spans, p, s, depth))
  {
    var after := Begun(spans, p, s, depth);
    forall i | 0 <= i < |p.rows| ensures p.rows[i].span.spanId != s.spanId {
      assert p.rows[i] in p.rows;
    }
    forall id | id in after.visited ensures exists r :: r in after.rows && r.span.spanId == id {
      if id == s.spanId {
        assert RowFor(spans, s, depth) in after.rows;
      } else {
        var r :| r in p.rows && r.span.spanId == id;
        assert r in after.rows;
      }
    }
  }

  /**
   Where row `i` hangs: at depth `d > 0` its parent is the row of depth `d - 1` before it with nothing but
   rows of depth `d` or more in between, that is, the nearest earlier row of depth `d - 1`.
   */
  ghost predicate HangsBelow(rows: seq<Row>, i: nat, j: nat)
    requires j < i < |rows|
  {
    && rows[j].depth == rows[i].depth - 1
    && rows[i].span.parentSpanId == Some(rows[j].span.spanId)
    && forall k :: j < k < i ==> rows[k].depth >= rows[i].depth
  }

  ghost predicate RowPlaced(spans: Content, rows: seq<Row>, i: nat)
    requires i < |rows|
  {
    && rows[i].span in spans
    && rows[i] == RowFor(spans, rows[i].span, rows[i].depth)
    && (rows[i].depth > 0 ==> exists j :: 0 <= j < i && HangsBelow(rows, i, j))
  }

  ghost predicate AllPlaced(spans: Content, rows: seq<Row>) {
    forall i :: 0 <= i < |rows| ==> RowPlaced(spans, rows, i)
  }

  /** Row `a` is an open ancestor for spans at `depth`: everything since is at `depth` or deeper. */
  ghost predicate Anchored(rows: seq<Row>, depth: nat, a: nat) {
    depth > 0 ==>
      && a < |rows| && rows[a].depth == depth - 1
      && forall k :: a < k < |rows| ==> rows[k].depth >= depth
  }

  ghost predicate HasParentAt(rows: seq<Row>, depth: nat, a: nat, s: SpanData)
    requires Anchored(rows, depth, a)
  {
    depth > 0 ==> s.parentSpanId == Some(rows[a].span.spanId)
  }

  lemma BegunPlaced(spans: Content, p: Progress, s: SpanData, depth: nat, a: nat)
    requires s in spans && AllPlaced(spans, p.rows)
    requires Anchored(p.rows, depth, a) && HasParentAt(p.rows, depth, a, s)
    ensures AllPlaced(spans, Begun(spans, p, s, depth).rows)
  {
    var rows := Begun(spans, p, s, depth).rows;
    forall i | 0 <= i < |rows| ensures RowPlaced(spans, rows, i) {
      if i < |p.rows| {
        assert RowPlaced(spans, p.rows, i);
        if rows[i].depth > 0 {
          var j :| 0 <= j < i && HangsBelow(p.rows, i, j);
          assert HangsBelow(rows, i, j);
        }
      } else if depth > 0 {
        assert HangsBelow(rows, i, a);
      }
    }
  }

  /** A visit only appends rows, none of them shallower than its depth. */
  ghost predicate Extends(p: Progress, r: Progress, depth: nat) {
    && p.rows <= r.rows
    && forall k :: |p.rows| <= k < |r.rows| ==> r.rows[k].depth >= depth
  }

  lemma {:induction false} VisitExtends(spans: Content, p: Progress, s: SpanData, depth: nat)
    requires s in spans
    ensures Extends(p, Visit(spans, p, s, depth), depth)
    decreases |Ids(spans) - p.visited|, 0, 0
  {
    if s.spanId !in p.visited {
      Shrinks(spans, p.visited, s);
      SortedChildrenAre(spans, s.spanId);
      VisitAllExtends(spans, Begun(spans, p, s, depth), SortedChildren(spans, s.spanId), depth + 1);
    }
  }

  lemma {:induction false} VisitAllExtends(spans: Content, p: Progress, list: Content, depth: nat)
    requires AllFrom(list, spans)
    ensures Extends(p, VisitAll(spans, p, list, depth), depth)
    decreases |Ids(spans) - p.visited|, 1, |list|
  {
    if list != [] {
      var init, s := list[..|list| - 1], list[|list| - 1];
      assert s in list;
      VisitAllExtends(spans, p, init, depth);
      var before := VisitAll(spans, p, init, depth);
      Grows(spans, p.visited, before.visited);
      VisitExtends(spans, before, s, depth);
    }
  }

  lemma {:induction false} VisitRecords(spans: Content, p: Progress, s: SpanData, depth: nat)
    requires s in spans && Recorded(p)
    ensures Recorded(Visit(spans, p, s, depth))
    decreases |Ids(spans) - p.visited|, 0, 0
  {
    if s.spanId !in p.visited {
      Shrinks(spans, p.visited, s);
      SortedChildrenAre(spans, s.spanId);
      BegunRecords(spans, p, s, depth);
      VisitAllRecords(spans, Begun(spans, p, s, depth), SortedChildren(spans, s.spanId), depth + 1);
    }
  }

  lemma {:induction false} VisitAllRecords(spans: Content, p: Progress, list: Content, depth: nat)
    requires AllFrom(list, spans) && Recorded(p)
    ensures Recorded(VisitAll(spans, p, list, depth))
    decreases |Ids(spans) - p.visited|, 1, |list|
  {
    if list != [] {
      var init, s := list[..|list| - 1], list[|list| - 1];
      assert s in list;
      VisitAllRecords(spans, p, init, depth);
      var before := VisitAll(spans, p, init, depth);
      Grows(spans, p.visited, before.visited);
      VisitRecords(spans, before, s, depth);
    }
  }

  lemma {:induction false} VisitPlaces(spans: Content, p: Progress, s: SpanData, depth: nat, a: nat)
    requires s in spans && AllPlaced(spans, p.rows)
    requires Anchored(p.rows, depth, a) && HasParentAt(p.rows, depth, a, s)
    ensures AllPlaced(spans, Visit(spans, p, s, depth).rows)
    decreases |Ids(spans) - p.visited|, 0, 0
  {
    if s.spanId !in p.visited {
      var begun := Begun(spans, p, s, depth);
      Shrinks(spans, p.visited, s);
      SortedChildrenAre(spans, s.spanId);
      BegunPlaced(spans, p, s, depth, a);
      VisitAllPlaces(spans, begun, SortedChildren(spans, s.spanId), depth + 1, |p.rows|);
    }
  }

  lemma {:induction false} VisitAllPlaces(spans: Content, p: Progress, list: Content, depth: nat, a: nat)
    requires AllFrom(list, spans) && AllPlaced(spans, p.rows)
    requires Anchored(p.rows, depth, a) && forall s :: s in list ==> HasParentAt(p.rows, depth, a, s)
    ensures AllPlaced(spans, VisitAll(spans, p, list, depth).rows)
    decreases |Ids(spans) - p.visited|, 1, |list|
  {
    if list != [] {
      var init, s := list[..|list| - 1], list[|list| - 1];
      assert s in list && list == init + [s];
      VisitAllPlaces(spans, p, init, depth, a);
      var before := VisitAll(spans, p, init, depth);
      Grows(spans, p.visited, before.visited);
      VisitAllExtends(spans, p, init, depth);
      AnchorStays(p, before, depth, a);
      assert HasParentAt(p.rows, depth, a, s);
      VisitPlaces(spans, before, s, depth, a);
    }
  }

  lemma AnchorStays(p: Progress, r: Progress, depth: nat, a: nat)
    requires Anchored(p.rows, depth, a) && Extends(p, r, depth)
    ensures Anchored(r.rows, depth, a)
    ensures forall s :: HasParentAt(p.rows, depth, a, s) ==> HasParentAt(r.rows, depth, a, s)
  {
  }

  // ---------------------------------------------------------------- the first pass

  /** A row at depth 0 of the first pass has no known parent. */
  ghost predicate RootsUnknown(spans: Content, rows: seq<Row>) {
    forall r :: r in rows && r.depth == 0 ==> !HasKnownParent(spans, r.span)
  }

  lemma {:induction false} FirstPassKeeps(spans: Content, sorted: Content)
    requires AllFrom(sorted, spans)
    ensures var r := FirstPass(spans, sorted);
            && Recorded(r) && AllPlaced(spans, r.rows) && RootsUnknown(spans, r.rows)
            && forall s :: s in sorted && !HasKnownParent(spans, s) ==> s.spanId in r.visited
  {
    if sorted != [] {
      var init, s := sorted[..|sorted| - 1], sorted[|sorted| - 1];
      assert s in sorted && sorted == init + [s];
      FirstPassKeeps(spans, init);
      var before := FirstPass(spans, init);
      if !HasKnownParent(spans, s) {
        VisitRecords(spans, before, s, 0);
        VisitPlaces(spans, before, s, 0, 0);
        VisitReaches(spans, before, s, 0);
        VisitRoot(spans, before, s);
      }
    }
  }

  /** A visit at depth 0 writes one row at depth 0, that of its span. */
  lemma VisitRoot(spans: Content, p: Progress, s: SpanData)
    requires s in spans
    ensures forall r :: r in Visit(spans, p, s, 0).rows && r.depth == 0 ==> r in p.rows || r.span == s
  {
    if s.spanId !in p.visited {
      var begun := Begun(spans, p, s, 0);
      SortedChildrenAre(spans, s.spanId);
      VisitAllExtends(spans, begun, SortedChildren(spans, s.spanId), 1);
      var rows := VisitAll(spans, begun, SortedChildren(spans, s.spanId), 1).rows;
      forall r | r in rows && r.depth == 0 ensures r in p.rows || r.span == s {
        var k :| 0 <= k < |rows| && rows[k] == r;
        assert k < |begun.rows| && begun.rows[k] == r;
      }
    }
  }

  // ---------------------------------------------------------------- main results

  lemma BuildKeeps(spans: Content)
    ensures Recorded(BuildProgress(spans)) && AllPlaced(spans, Build(spans))
    ensures forall s :: s in spans ==> s.spanId in BuildProgress(spans).visited
  {
    var sorted := SortByStart(spans);
    var first := AfterFirstPass(spans);
    SortMembers(spans);
    FirstPassKeeps(spans, sorted);
    VisitAllRecords(spans, first, sorted, 0);
    VisitAllReaches(spans, first, sorted, 0);
    assert AllPlaced(spans, Build(spans)) by {
      VisitAllPlaces(spans, first, sorted, 0, 0);
    }
  }

  /**
   For arbitrary parent pointers the result lists every span id exactly once, and each row at depth
   `d > 0` stands below its parent: the nearest earlier row of depth `d - 1`.
   */
  lemma HierarchyIsForest(spans: Content)
    ensures var rows := Build(spans);
            && (forall s :: s in spans ==> exists r :: r in rows && r.span.spanId == s.spanId)
            && (forall i, j :: 0 <= i < j < |rows| ==> rows[i].span.spanId != rows[j].span.spanId)
            && (forall i :: 0 <= i < |rows| ==> RowPlaced(spans, rows, i))
  {
    BuildKeeps(spans);
  }

  /** Where in the input the spans are that point to `id`. */
  ghost function PointingTo(spans: Content, id: SpanId): set<nat> {
    set i | 0 <= i < |spans| && spans[i].parentSpanId == Some(id) && spans[i].spanId != id
  }

  lemma {:induction false} ChildCountIs(spans: Content, id: SpanId)
    ensures |SortedChildren(spans, id)| == |PointingTo(spans, id)|
  {
    SortMembers(Children(spans, id));
    if spans != [] {
      var last := |spans| - 1;
      var init := spans[..last];
      ChildCountIs(init, id);
      SortMembers(Children(init, id));
      assert PointingTo(spans, id)
          == PointingTo(init, id)
             + if spans[last].parentSpanId == Some(id) && spans[last].spanId != id then {last} else {};
    }
  }

  /** What a row shows: how many spans point to its own, and whether a span on the page has the id it points to. */
  lemma RowsTell(spans: Content, r: Row)
    requires r in Build(spans)
    ensures r.span in spans
    ensures r.childCount == |PointingTo(spans, r.span.spanId)|
    ensures r.hasKnownParent <==> exists s :: s in spans && r.span.parentSpanId == Some(s.spanId)
    ensures r.depth > 0 ==> r.hasKnownParent
  {
    BuildKeeps(spans);
    var i :| 0 <= i < |Build(spans)| && Build(spans)[i] == r;
    assert RowPlaced(spans, Build(spans), i);
    ChildCountIs(spans, r.span.spanId);
    if r.depth > 0 {
      var j :| 0 <= j < i && HangsBelow(Build(spans), i, j);
      assert RowPlaced(spans, Build(spans), j);
    }
  }

  ghost predicate DistinctIds(spans: Content) {
    forall a, b :: a in spans && b in spans && a.spanId == b.spanId ==> a == b
  }

  /** `s` has exactly `n` known ancestors, the last of them without a known parent. */
  ghost predicate AncestorCount(spans: Content, s: SpanData, n: nat)
    decreases n
  {
    if n == 0 then !HasKnownParent(spans, s)
    else exists q :: q in spans && s.parentSpanId == Some(q.spanId) && AncestorCount(spans, q, n - 1)
  }

  /** In the first pass, depth is the number of known ancestors. */
  lemma {:induction false} FirstPassDepth(spans: Content, rows: seq<Row>, i: nat)
    requires AllPlaced(spans, rows) && RootsUnknown(spans, rows) && i < |rows|
    ensures AncestorCount(spans, rows[i].span, rows[i].depth)
  {
    assert RowPlaced(spans, rows, i);
    if rows[i].depth > 0 {
      var j :| 0 <= j < i && HangsBelow(rows, i, j);
      FirstPassDepth(spans, rows, j);
      assert RowPlaced(spans, rows, j);
    } else {
      assert rows[i] in rows;
    }
  }

  /** Ids whose children have all been visited. */
  ghost predicate Complete(spans: Content, visited: set<SpanId>, id: SpanId) {
    forall c :: c in spans && c.parentSpanId == Some(id) && c.spanId != id ==> c.spanId in visited
  }

  lemma {:induction false} VisitCompletes(spans: Content, p: Progress, s: SpanData, depth: nat, id: SpanId)
    requires s in spans
    requires id in Visit(spans, p, s, depth).visited && id !in p.visited
    ensures Complete(spans, Visit(spans, p, s, depth).visited, id)
    decreases |Ids(spans) - p.visited|, 0, 0
  {
    var begun := Begun(spans, p, s, depth);
    Shrinks(spans, p.visited, s);
    SortedChildrenAre(spans, s.spanId);
    var children := SortedChildren(spans, s.spanId);
    if id == s.spanId {
      VisitAllReaches(spans, begun, children, depth + 1);
    } else {
      VisitAllCompletes(spans, begun, children, depth + 1, id);
    }
  }

  lemma {:induction false} VisitAllReaches(spans: Content, p: Progress, list: Content, depth: nat)
    requires AllFrom(list, spans)
    ensures forall s :: s in list ==> s.spanId in VisitAll(spans, p, list, depth).visited
    decreases |list|
  {
    if list != [] {
      var init, s := list[..|list| - 1], list[|list| - 1];
      assert list == init + [s] && s in list;
      VisitAllReaches(spans, p, init, depth);
      VisitReaches(spans, VisitAll(spans, p, init, depth), s, depth);
    }
  }

  lemma VisitReaches(spans: Content, p: Progress, s: SpanData, depth: nat)
    requires s in spans
    ensures s.spanId in Visit(spans, p, s, depth).visited
  {
  }

  lemma {:induction false} VisitAllCompletes(spans: Content, p: Progress, list: Content, depth: nat, id: SpanId)
    requires AllFrom(list, spans)
    requires id in VisitAll(spans, p, list, depth).visited && id !in p.visited
    ensures Complete(spans, VisitAll(spans, p, list, depth).visited, id)
    decreases |Ids(spans) - p.visited|, 1, |list|
  {
    var init, s := list[..|list| - 1], list[|list| - 1];
    assert s in list;
    var before := VisitAll(spans, p, init, depth);
    Grows(spans, p.visited, before.visited);
    if id in before.visited {
      VisitAllCompletes(spans, p, init, depth, id);
    } else {
      VisitCompletes(spans, before, s, depth, id);
    }
  }

  lemma {:induction false} FirstPassCompletes(spans: Content, sorted: Content, id: SpanId)
    requires AllFrom(sorted, spans) && id in FirstPass(spans, sorted).visited
    ensures Complete(spans, FirstPass(spans, sorted).visited, id)
  {
    var init, s := sorted[..|sorted| - 1], sorted[|sorted| - 1];
    assert s in sorted;
    var before := FirstPass(spans, init);
    if id in before.visited {
      FirstPassCompletes(spans, init, id);
    } else {
      VisitCompletes(spans, before, s, 0, id);
    }
  }

  lemma RootIsReached(spans: Content, s: SpanData)
    requires s in spans && !HasKnownParent(spans, s)
    ensures s.spanId in AfterFirstPass(spans).visited
  {
    SortMembers(spans);
    FirstPassKeeps(spans, SortByStart(spans));
  }

  lemma ChildIsReached(spans: Content, s: SpanData, parent: SpanData)
    requires s in spans && DistinctIds(spans) && s.parentSpanId == Some(parent.spanId)
    requires parent.spanId in AfterFirstPass(spans).visited
    ensures s.spanId in AfterFirstPass(spans).visited
  {
    SortMembers(spans);
    FirstPassCompletes(spans, SortByStart(spans), parent.spanId);
  }

  /** Every span whose chain of parents ends is reached by the first pass. */
  lemma {:induction false} RootedIsReached(spans: Content, s: SpanData, n: nat)
    requires s in spans && DistinctIds(spans) && AncestorCount(spans, s, n)
    ensures s.spanId in AfterFirstPass(spans).visited
    decreases n
  {
    if n > 0 {
      var q :| q in spans && s.parentSpanId == Some(q.spanId) && AncestorCount(spans, q, n - 1);
      RootedIsReached(spans, q, n - 1);
      ChildIsReached(spans, s, q);
    } else {
      RootIsReached(spans, s);
    }
  }

  /**
   With distinct ids, the first pass emits exactly the spans whose parent chain ends, each at the depth of
   its known-ancestor count; so the second pass adds nothing if and only if no parent chain is cyclic.
   */
  lemma FirstPassIsRooted(spans: Content, s: SpanData)
    requires DistinctIds(spans) && s in spans
    ensures s.spanId in AfterFirstPass(spans).visited <==> exists n :: AncestorCount(spans, s, n)
  {
    SortMembers(spans);
    var first := AfterFirstPass(spans);
    FirstPassKeeps(spans, SortByStart(spans));
    if s.spanId in first.visited {
      var r :| r in first.rows && r.span.spanId == s.spanId;
      var i :| 0 <= i < |first.rows| && first.rows[i] == r;
      assert RowPlaced(spans, first.rows, i);
      FirstPassDepth(spans, first.rows, i);
      assert AncestorCount(spans, s, r.depth);
    } else if n :| AncestorCount(spans, s, n) {
      RootedIsReached(spans, s, n);
    }
  }

  lemma {:induction false} VisitedAddsNothing(spans: Content, p: Progress, list: Content, depth: nat)
    requires AllFrom(list, spans) && forall s :: s in list ==> s.spanId in p.visited
    ensures VisitAll(spans, p, list, depth) == p
    decreases |list|
  {
    if list != [] {
      assert list[|list| - 1] in list;
      VisitedAddsNothing(spans, p, list[..|list| - 1], depth);
    }
  }

  ghost predicate Acyclic(spans: Content) {
    forall s :: s in spans ==> exists n :: AncestorCount(spans, s, n)
  }

  lemma AcyclicIsOnePass(spans: Content)
    requires DistinctIds(spans) && Acyclic(spans)
    ensures Build(spans) == AfterFirstPass(spans).rows
    ensures forall r :: r in Build(spans) ==> AncestorCount(spans, r.span, r.depth)
  {
    SortMembers(spans);
    var sorted := SortByStart(spans);
    var first := AfterFirstPass(spans);
    FirstPassKeeps(spans, sorted);
    forall s | s in sorted ensures s.spanId in first.visited {
      var n :| AncestorCount(spans, s, n);
      RootedIsReached(spans, s, n);
    }
    VisitedAddsNothing(spans, first, sorted, 0);
    forall r | r in first.rows ensures AncestorCount(spans, r.span, r.depth) {
      var i :| 0 <= i < |first.rows| && first.rows[i] == r;
      FirstPassDepth(spans, first.rows, i);
    }
  }

  lemma OnePassIsAcyclic(spans: Content, s: SpanData)
    requires DistinctIds(spans) && Build(spans) == AfterFirstPass(spans).rows && s in spans
    ensures exists n :: AncestorCount(spans, s, n)
  {
    BuildKeeps(spans);
    var r :| r in Build(spans) && r.span.spanId == s.spanId;
    var first := AfterFirstPass(spans);
    SortMembers(spans);
    FirstPassKeeps(spans, SortByStart(spans));
    assert r in first.rows;
    FirstPassIsRooted(spans, s);
  }

  /** The second pass adds rows if and only if some parent chain never ends; otherwise depth counts known ancestors. */
  lemma SecondPassIffCyclic(spans: Content)
    requires DistinctIds(spans)
    ensures Build(spans) == AfterFirstPass(spans).rows <==> Acyclic(spans)
    ensures Acyclic(spans) ==> forall r :: r in Build(spans) ==> AncestorCount(spans, r.span, r.depth)
  {
    if Acyclic(spans) {
      AcyclicIsOnePass(spans);
    } else if Build(spans) == AfterFirstPass(spans).rows {
      forall s | s in spans ensures exists n :: AncestorCount(spans, s, n) {
        OnePassIsAcyclic(spans, s);
      }
    }
  }

  // ---------------------------------------------------------------- siblings

  ghost predicate SortedStarts(spans: Content) {
    forall i, j :: 0 <= i < j < |spans| ==> SpanStart(spans[i]) <= SpanStart(spans[j])
  }

  lemma LastStartsLatest(sorted: Content, s: SpanData)
    requires SortedStarts(sorted) && forall x :: x in sorted ==> SpanStart(x) <= SpanStart(s)
    ensures SortedStarts(sorted + [s])
  {
    forall i | 0 <= i < |sorted| ensures SpanStart(sorted[i]) <= SpanStart(s) {
      assert sorted[i] in sorted;
    }
  }

  lemma {:induction false} InsertSorts(sorted: Content, s: SpanData)
    requires SortedStarts(sorted)
    ensures SortedStarts(InsertByStart(sorted, s))
  {
    if sorted == [] || SpanStart(sorted[|sorted| - 1]) <= SpanStart(s) {
      LastStartsLatest(sorted, s);
    } else {
      var init, last := sorted[..|sorted| - 1], sorted[|sorted| - 1];
      InsertSorts(init, s);
      InsertMembers(init, s);
      LastStartsLatest(InsertByStart(init, s), last);
    }
  }

  lemma {:induction false} SortSorts(spans: Content)
    ensures SortedStarts(SortByStart(spans))
  {
    if spans != [] {
      SortSorts(spans[..|spans| - 1]);
      InsertSorts(SortByStart(spans[..|spans| - 1]), spans[|spans| - 1]);
    }
  }

  /** The spans whose start is in one millisecond, in their order. */
  function AtStart(spans: Content, start: int): Content {
    if spans == [] then []
    else
      var s := spans[|spans| - 1];
      AtStart(spans[..|spans| - 1], start) + if 1000 * start <= s.startedAt < 1000 * start + 1000 then [s] else []
  }

  lemma AtStartLast(spans: Content, s: SpanData, start: int)
    ensures AtStart(spans + [s], start) == AtStart(spans, start) + if SpanStart(s) == start then [s] else []
  {
    assert (spans + [s])[..|spans|] == spans;
  }

  lemma {:induction false} InsertIsStable(sorted: Content, s: SpanData, start: int)
    ensures AtStart(InsertByStart(sorted, s), start)
         == AtStart(sorted, start) + if SpanStart(s) == start then [s] else []
  {
    if sorted == [] || SpanStart(sorted[|sorted| - 1]) <= SpanStart(s) {
      AtStartLast(sorted, s, start);
    } else {
      var init, last := sorted[..|sorted| - 1], sorted[|sorted| - 1];
      InsertIsStable(init, s, start);
      assert sorted == init + [last];
      AtStartLast(InsertByStart(init, s), last, start);
      AtStartLast(init, last, start);
    }
  }

  /** The sort is by millisecond of the start; spans that start in the same one keep their order. */
  lemma {:induction false} SortIs(spans: Content, start: int)
    ensures |SortByStart(spans)| == |spans|
    ensures forall i, j :: 0 <= i < j < |spans| ==>
              SortByStart(spans)[i].startedAt / 1000 <= SortByStart(spans)[j].startedAt / 1000
    ensures AtStart(SortByStart(spans), start) == AtStart(spans, start)
  {
    SortMembers(spans);
    SortSorts(spans);
    if spans != [] {
      var init, last := spans[..|spans| - 1], spans[|spans| - 1];
      assert spans == init + [last];
      SortIs(init, start);
      InsertIsStable(SortByStart(init), last, start);
      AtStartLast(init, last, start);
    }
  }

  /** Row `j` continues the level of row `i`: same depth, and nothing shallower in between. */
  ghost predicate SameLevel(rows: seq<Row>, i: nat, j: nat) {
    i < j < |rows| && rows[i].depth == rows[j].depth && forall k :: i < k < j ==> rows[k].depth >= rows[i].depth
  }

  /** From depth `min` on, siblings appear by start time. */
  ghost predicate SiblingsOrdered(rows: seq<Row>, min: nat) {
    forall i: nat, j: nat :: SameLevel(rows, i, j) && rows[i].depth >= min ==>
        SpanStart(rows[i].span) <= SpanStart(rows[j].span)
  }

  /** What a row of `depth` appended now would have as earlier siblings does not start after `start`. */
  ghost predicate TailBefore(rows: seq<Row>, depth: nat, start: int) {
    forall i :: 0 <= i < |rows| && rows[i].depth == depth && (forall k :: i < k < |rows| ==> rows[k].depth >= depth) ==>
      SpanStart(rows[i].span) <= start
  }

  lemma AppendOrders(rows: seq<Row>, row: Row, min: nat)
    requires SiblingsOrdered(rows, min) && (row.depth >= min ==> TailBefore(rows, row.depth, SpanStart(row.span)))
    ensures SiblingsOrdered(rows + [row], min)
  {
    var all := rows + [row];
    assert all[|rows|] == row && forall k :: 0 <= k < |rows| ==> all[k] == rows[k];
    forall i: nat, j: nat | SameLevel(all, i, j) && all[i].depth >= min
      ensures SpanStart(all[i].span) <= SpanStart(all[j].span)
    {
      if j < |rows| {
        assert forall k :: i < k < j ==> all[k] == rows[k];
        assert SameLevel(rows, i, j);
      } else {
        assert forall k :: i < k < |rows| ==> rows[k].depth == all[k].depth >= row.depth;
      }
    }
  }

  /** A row and deeper rows after it leave only that row at its level. */
  lemma TailAfter(rows: seq<Row>, row: Row, after: seq<Row>)
    requires rows + [row] <= after && TailBefore(rows, row.depth, SpanStart(row.span))
    requires forall k :: |rows| < k < |after| ==> after[k].depth > row.depth
    ensures TailBefore(after, row.depth, SpanStart(row.span))
  {
    forall i | 0 <= i < |after| && after[i].depth == row.depth
        && (forall k :: i < k < |after| ==> after[k].depth >= row.depth)
      ensures SpanStart(after[i].span) <= SpanStart(row.span)
    {
      assert after[|rows|] == (rows + [row])[|rows|];
      if i < |rows| {
        assert forall k :: 0 <= k < |rows| ==> after[k] == (rows + [row])[k] == rows[k];
      }
    }
  }

  lemma BegunOrders(spans: Content, p: Progress, s: SpanData, depth: nat, min: nat, start: int)
    requires SiblingsOrdered(p.rows, min) && (depth >= min ==> TailBefore(p.rows, depth, SpanStart(s)))
    ensures var begun := Begun(spans, p, s, depth);
            SiblingsOrdered(begun.rows, min) && TailBefore(begun.rows, depth + 1, start)
  {
    var row, rows := RowFor(spans, s, depth), Begun(spans, p, s, depth).rows;
    AppendOrders(p.rows, row, min);
    assert rows[|p.rows|] == row;
  }

  lemma VisitTail(spans: Content, p: Progress, s: SpanData, depth: nat)
    requires s in spans && TailBefore(p.rows, depth, SpanStart(s))
    ensures TailBefore(Visit(spans, p, s, depth).rows, depth, SpanStart(s))
  {
    if s.spanId !in p.visited {
      SortedChildrenAre(spans, s.spanId);
      VisitAllExtends(spans, Begun(spans, p, s, depth), SortedChildren(spans, s.spanId), depth + 1);
      TailAfter(p.rows, RowFor(spans, s, depth), Visit(spans, p, s, depth).rows);
    }
  }

  lemma TailLater(rows: seq<Row>, depth: nat, start: int, later: int)
    requires TailBefore(rows, depth, start) && start <= later
    ensures TailBefore(rows, depth, later)
  {}

  lemma {:induction false} VisitAllTail(spans: Content, p: Progress, list: Content, depth: nat)
    requires AllFrom(list, spans) && SortedStarts(list) && list != [] && TailBefore(p.rows, depth, SpanStart(list[0]))
    ensures TailBefore(VisitAll(spans, p, list, depth).rows, depth, SpanStart(list[|list| - 1]))
    decreases |list|, 1
  {
    assert list[|list| - 1] in list;
    TailSoFar(spans, p, list, depth);
    VisitTail(spans, VisitAll(spans, p, list[..|list| - 1], depth), list[|list| - 1], depth);
  }

  /** Before the last element of the list is visited. */
  lemma {:induction false} TailSoFar(spans: Content, p: Progress, list: Content, depth: nat)
    requires AllFrom(list, spans) && SortedStarts(list) && list != [] && TailBefore(p.rows, depth, SpanStart(list[0]))
    ensures AllFrom(list[..|list| - 1], spans)
    ensures TailBefore(VisitAll(spans, p, list[..|list| - 1], depth).rows, depth, SpanStart(list[|list| - 1]))
    decreases |list|, 0
  {
    var init := list[..|list| - 1];
    if init != [] {
      VisitAllTail(spans, p, init, depth);
      TailLater(VisitAll(spans, p, init, depth).rows, depth, SpanStart(init[|init| - 1]), SpanStart(list[|list| - 1]));
    }
  }

  lemma {:induction false} VisitOrders(spans: Content, p: Progress, s: SpanData, depth: nat, min: nat)
    requires s in spans && SiblingsOrdered(p.rows, min)
    requires depth >= min ==> TailBefore(p.rows, depth, SpanStart(s))
    ensures SiblingsOrdered(Visit(spans, p, s, depth).rows, min)
    decreases |Ids(spans) - p.visited|, 0, 0
  {
    if s.spanId !in p.visited {
      var begun, children := Begun(spans, p, s, depth), SortedChildren(spans, s.spanId);
      Shrinks(spans, p.visited, s);
      SortedChildrenAre(spans, s.spanId);
      BegunOrders(spans, p, s, depth, min, if children == [] then 0 else SpanStart(children[0]));
      SortSorts(Children(spans, s.spanId));
      VisitAllOrders(spans, begun, children, depth + 1, min);
    }
  }

  lemma {:induction false} VisitAllOrders(spans: Content, p: Progress, list: Content, depth: nat, min: nat)
    requires AllFrom(list, spans) && SortedStarts(list) && SiblingsOrdered(p.rows, min)
    requires depth >= min && list != [] ==> TailBefore(p.rows, depth, SpanStart(list[0]))
    ensures SiblingsOrdered(VisitAll(spans, p, list, depth).rows, min)
    decreases |Ids(spans) - p.visited|, 1, |list|
  {
    if list != [] {
      var init, s := list[..|list| - 1], list[|list| - 1];
      assert s in list;
      VisitAllOrders(spans, p, init, depth, min);
      var before := VisitAll(spans, p, init, depth);
      Grows(spans, p.visited, before.visited);
      if depth >= min {
        TailSoFar(spans, p, list, depth);
      }
      VisitOrders(spans, before, s, depth, min);
    }
  }

  lemma {:induction false} FirstPassOrders(spans: Content, sorted: Content)
    requires AllFrom(sorted, spans) && SortedStarts(sorted)
    ensures var r := FirstPass(spans, sorted);
            SiblingsOrdered(r.rows, 0) && (sorted != [] ==> TailBefore(r.rows, 0, SpanStart(sorted[|sorted| - 1])))
  {
    if sorted != [] {
      var init, s := sorted[..|sorted| - 1], sorted[|sorted| - 1];
      var before := FirstPass(spans, init);
      assert s in sorted;
      FirstPassOrders(spans, init);
      assert TailBefore(before.rows, 0, SpanStart(s)) by {
        if init != [] {
          TailLater(before.rows, 0, SpanStart(init[|init| - 1]), SpanStart(s));
        }
      }
      if !HasKnownParent(spans, s) {
        VisitOrders(spans, before, s, 0, 0);
        VisitTail(spans, before, s, 0);
      }
    }
  }

  /** Siblings are shown by start time, and so are the roots of the first pass, for arbitrary parent pointers. */
  lemma SiblingsAppearByStart(spans: Content)
    ensures SiblingsOrdered(AfterFirstPass(spans).rows, 0)
    ensures SiblingsOrdered(Build(spans), 1)
  {
    var sorted := SortByStart(spans);
    SortMembers(spans);
    SortSorts(spans);
    FirstPassOrders(spans, sorted);
    assert SiblingsOrdered(AfterFirstPass(spans).rows, 1);
    VisitAllOrders(spans, AfterFirstPass(spans), sorted, 0, 1);
  }
}
