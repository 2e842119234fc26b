/**
 Keyset pagination over the `traces` table: one page, following cursors to the end, and following them while
 other requests write to the table between pages.
 */
module Pagination {
  import opened Options
  import opened Uuids

  /** The primary key `(id, started_at)`. */
  datatype Key = Key(startedAt: int, id: nat)

  datatype Trace = Trace(key: Key, project: nat, status: string, body: nat)

  /** The empty status stands for no status filter. */
  datatype Search = Search(project: nat, status: string, from: Option<int>, to: Option<int>)

  datatype Cursor = Cursor(startedAt: int, id: string)

  ghost predicate WellFormed(table: seq<Trace>) {
    && (forall i, j :: 0 <= i < j < |table| ==> table[i].key != table[j].key)
    && forall t :: t in table ==> IsUuid(t.key.id)
  }

  predicate Matches(t: Trace, s: Search) {
    && t.project == s.project
    && (s.status == "" || t.status == s.status)
    && (s.from.Some? ==> t.key.startedAt >= s.from.value)
    && (s.to.Some? ==> t.key.startedAt <= s.to.value)
  }

  /** The row comparison of the query: instants, then the text form of the ids. */
  predicate Below(k: Key, c: Cursor) {
    k.startedAt < c.startedAt || (k.startedAt == c.startedAt && LexLess(Text(k.id), c.id))
  }

  predicate Visible(t: Trace, s: Search, cursor: Option<Cursor>) {
    Matches(t, s) && (cursor.Some? ==> Below(t.key, cursor.value))
  }

  function CursorOf(k: Key): Cursor {
    Cursor(k.startedAt, Text(k.id))
  }

  /** `ORDER BY started_at DESC, id DESC`, where `id` is compared as a UUID. */
  predicate Precedes(a: Key, b: Key) {
    a.startedAt > b.startedAt || (a.startedAt == b.startedAt && a.id > b.id)
  }

  ghost predicate Descending(rows: seq<Trace>) {
    forall i, j :: 0 <= i < j < |rows| ==> Precedes(rows[i].key, rows[j].key)
  }

  function Insert(rows: seq<Trace>, t: Trace): seq<Trace> {
    if rows == [] || Precedes(rows[|rows| - 1].key, t.key) then rows + [t]
    else Insert(rows[..|rows| - 1], t) + [rows[|rows| - 1]]
  }

  /** The query without its limit. */
  function Listing(table: seq<Trace>, s: Search, cursor: Option<Cursor>): seq<Trace> {
    if table == [] then []
    else
      var before := Listing(table[..|table| - 1], s, cursor);
      if Visible(table[|table| - 1], s, cursor) then Insert(before, table[|table| - 1]) else before
  }

  function Take(rows: seq<Trace>, n: nat): seq<Trace> {
    if |rows| <= n then rows else rows[..n]
  }

  function Page(table: seq<Trace>, s: Search, cursor: Option<Cursor>, limit: nat): (seq<Trace>, Option<Cursor>) {
    var rows := Take(Listing(table, s, cursor), limit + 1);
    var items := Take(rows, limit);
    (items, if |rows| > limit && items != [] then Some(CursorOf(items[|items| - 1].key)) else None)
  }

  // ---------------------------------------------------------------- the query

  lemma LastIsLast(rows: seq<Trace>)
    requires Descending(rows) && rows != []
    ensures forall x :: x in rows ==> x == rows[|rows| - 1] || Precedes(x.key, rows[|rows| - 1].key)
  {}

  lemma AppendDescends(rows: seq<Trace>, last: Trace)
    requires Descending(rows) && forall x :: x in rows ==> Precedes(x.key, last.key)
    ensures Descending(rows + [last])
  {
    forall i | 0 <= i < |rows| ensures Precedes(rows[i].key, last.key) {
      assert rows[i] in rows;
    }
  }

  lemma {:induction false} InsertIs(rows: seq<Trace>, t: Trace)
    requires Descending(rows) && forall r :: r in rows ==> r.key != t.key
    ensures Descending(Insert(rows, t))
    ensures forall r :: r in Insert(rows, t) <==> r in rows || r == t
  {
    if rows != [] {
      LastIsLast(rows);
    }
    if rows != [] && !Precedes(rows[|rows| - 1].key, t.key) {
      var init, last := rows[..|rows| - 1], rows[|rows| - 1];
      assert rows == init + [last] && last in rows;
      InsertIs(init, t);
      forall x | x in init ensures Precedes(x.key, last.key) {
        var i :| 0 <= i < |init| && init[i] == x;
        assert Precedes(rows[i].key, rows[|rows| - 1].key);
      }
      AppendDescends(Insert(init, t), last);
    } else {
      AppendDescends(rows, t);
    }
  }

  /** The query lists exactly the visible rows, in strictly descending key order. */
  lemma {:induction false} ListingIs(table: seq<Trace>, s: Search, cursor: Option<Cursor>)
    requires WellFormed(table)
    ensures Descending(Listing(table, s, cursor))
    ensures forall t :: t in Listing(table, s, cursor) <==> t in table && Visible(t, s, cursor)
  {
    if table != [] {
      var init, last := table[..|table| - 1], table[|table| - 1];
      assert table == init + [last];
      ListingIs(init, s, cursor);
      if Visible(last, s, cursor) {
        InsertIs(Listing(init, s, cursor), last);
      }
    }
  }

  /**
   The same in columns: a row is listed iff it belongs to the project, has the status and the instants asked for,
   and comes after the cursor; rows come by descending start, and by descending id at one start.
   */
  lemma ListingHas(table: seq<Trace>, s: Search, cursor: Option<Cursor>, t: Trace)
    requires WellFormed(table)
    ensures t in Listing(table, s, cursor) <==>
              && t in table && t.project == s.project
              && (s.status != "" ==> t.status == s.status)
              && (s.from.Some? ==> s.from.value <= t.key.startedAt)
              && (s.to.Some? ==> t.key.startedAt <= s.to.value)
              && (cursor.Some? ==>
                    || t.key.startedAt < cursor.value.startedAt
                    || (t.key.startedAt == cursor.value.startedAt && LexLess(Text(t.key.id), cursor.value.id)))
    ensures var rows := Listing(table, s, cursor);
            forall i, j :: 0 <= i < j < |rows| ==>
              || rows[i].key.startedAt > rows[j].key.startedAt
              || (rows[i].key.startedAt == rows[j].key.startedAt && rows[i].key.id > rows[j].key.id)
  {
    ListingIs(table, s, cursor);
  }

  lemma FirstIsMember(a: seq<Trace>)
    ensures a != [] ==> a[0] in a
  {}

  lemma {:induction false} DescendingIsUnique(a: seq<Trace>, b: seq<Trace>)
    requires Descending(a) && Descending(b)
    requires forall t :: t in a <==> t in b
    ensures a == b
  {
    FirstIsMember(a);
    FirstIsMember(b);
    if a != [] {
      var i :| 0 <= i < |b| && b[i] == a[0];
      var j :| 0 <= j < |a| && a[j] == b[0];
      assert i == 0;
      forall t ensures t in a[1..] <==> t in b[1..] {
        TailIs(a, t);
        TailIs(b, t);
      }
      DescendingIsUnique(a[1..], b[1..]);
    }
  }

  lemma TailIs(a: seq<Trace>, t: Trace)
    requires a != [] && Descending(a)
    ensures t in a[1..] <==> t in a && t != a[0]
  {
    if t in a && t != a[0] {
      var i :| 0 <= i < |a| && a[i] == t;
      assert a[1..][i - 1] == t;
    }
    if t in a[1..] {
      var i :| 0 <= i < |a| - 1 && a[1..][i] == t;
      assert Precedes(a[0].key, a[i + 1].key);
    }
  }

  lemma {:induction false} LexLessTransitive(a: string, b: string, c: string)
    requires LexLess(a, b) && LexLess(b, c)
    ensures LexLess(a, c)
  {
    if a != [] && a[0] == b[0] && b[0] == c[0] {
      LexLessTransitive(a[1..], b[1..], c[1..]);
    }
  }

  /** The cursor made from a row admits exactly the rows that the listing puts after it. */
  lemma BelowIsAfter(k: Key, row: Key)
    requires IsUuid(k.id) && IsUuid(row.id)
    ensures Below(k, CursorOf(row)) <==> Precedes(row, k)
  {
    TextOrder(k.id, row.id);
  }

  // ---------------------------------------------------------------- pages

  /** A page is full or holds all there is; a cursor comes back iff more is listed than a page of some size holds. */
  lemma PageIsFull(table: seq<Trace>, s: Search, cursor: Option<Cursor>, limit: nat)
    ensures var listed, (items, next) := |Listing(table, s, cursor)|, Page(table, s, cursor, limit);
            && |items| == (if listed <= limit then listed else limit)
            && (next.Some? <==> listed > limit > 0)
  {}

  /** A page and the listing from its cursor make up the listing; without a cursor the page is all there is. */
  lemma PageSplits(table: seq<Trace>, s: Search, cursor: Option<Cursor>, limit: nat)
    requires WellFormed(table)
    ensures var (items, next) := Page(table, s, cursor, limit);
            && |items| <= limit
            && (next.Some? ==> items != [] && Listing(table, s, cursor) == items + Listing(table, s, next)
                               && next.value == CursorOf(items[|items| - 1].key))
            && (next.None? && limit > 0 ==> items == Listing(table, s, cursor))
  {
    var all := Listing(table, s, cursor);
    var (items, next) := Page(table, s, cursor, limit);
    if next.Some? {
      assert items == all[..limit];
      ListingIs(table, s, cursor);
      ListingIs(table, s, next);
      var last := all[limit - 1];
      assert last in all;
      assert Descending(all[limit..]);
      forall t ensures t in all[limit..] <==> t in Listing(table, s, next) {
        AfterLast(table, s, cursor, limit, t);
      }
      DescendingIsUnique(all[limit..], Listing(table, s, next));
    }
  }

  lemma AfterLast(table: seq<Trace>, s: Search, cursor: Option<Cursor>, limit: nat, t: Trace)
    requires WellFormed(table) && 0 < limit < |Listing(table, s, cursor)|
    ensures var all := Listing(table, s, cursor);
            t in all[limit..] <==> t in table && Visible(t, s, Some(CursorOf(all[limit - 1].key)))
  {
    var all := Listing(table, s, cursor);
    var last := all[limit - 1];
    ListingIs(table, s, cursor);
    assert last in all;
    if t in all[limit..] {
      var i :| 0 <= i < |all| - limit && all[limit..][i] == t;
      assert all[limit + i] == t && t in all;
      BelowIsAfter(t.key, last.key);
    }
    if t in table && Visible(t, s, Some(CursorOf(last.key))) {
      BelowIsAfter(t.key, last.key);
      if cursor.Some? && t.key.startedAt == last.key.startedAt == cursor.value.startedAt {
        LexLessTransitive(Text(t.key.id), Text(last.key.id), cursor.value.id);
      }
      assert t in all;
      var i :| 0 <= i < |all| && all[i] == t;
      assert i >= limit;
      assert all[limit..][i - limit] == t;
    }
  }

  class TraceService {
    var traces: seq<Trace>

    constructor (traces: seq<Trace>)
      ensures this.traces == traces
    {
      this.traces := traces;
    }

    static method Conditions(s: Search, cursor: Option<Cursor>) returns (conditions: seq<Condition>)
      ensures forall t :: SatisfiesAll(t, conditions) <==> Visible(t, s, cursor)
    {
      conditions := [InProject(s.project)];
      WithCondition([], InProject(s.project));
      assert [] + [InProject(s.project)] == conditions;
      assert forall t :: SatisfiesAll(t, conditions) <==> t.project == s.project;
      if cursor.Some? {
        WithCondition(conditions, BelowCursor(cursor.value));
        conditions := conditions + [BelowCursor(cursor.value)];
      }
      assert forall t :: SatisfiesAll(t, conditions) <==> Visible(t, Search(s.project, "", None, None), cursor);
      if s.status != "" {
        WithCondition(conditions, StatusIs(s.status));
        conditions := conditions + [StatusIs(s.status)];
      }
      assert forall t :: SatisfiesAll(t, conditions) <==> Visible(t, Search(s.project, s.status, None, None), cursor);
      if s.from.Some? {
        WithCondition(conditions, StartedFrom(s.from.value));
        conditions := conditions + [StartedFrom(s.from.value)];
      }
      assert forall t :: SatisfiesAll(t, conditions) <==> Visible(t, Search(s.project, s.status, s.from, None), cursor);
      if s.to.Some? {
        WithCondition(conditions, StartedTo(s.to.value));
        conditions := conditions + [StartedTo(s.to.value)];
      }
    }

    method ListWithCursor(
      s: Search, cursor: Option<Cursor>, limit: nat) returns (items: seq<Trace>, next: Option<Cursor>)
      ensures (items, next) == Page(traces, s, cursor, limit)
    {
      var conditions := Conditions(s, cursor);
      SelectIsListing(traces, conditions, s, cursor);
      var rows := Take(Select(traces, conditions), limit + 1);
      var hasMore := |rows| > limit;
      items := Take(rows, limit);
      next := None;
      if hasMore && items != [] {
        next := Some(CursorOf(items[|items| - 1].key));
      }
    }
  }

  datatype Condition =
    | InProject(project: nat) | BelowCursor(cursor: Cursor) | StatusIs(status: string)
    | StartedFrom(at: int) | StartedTo(at: int)

  predicate Satisfies(t: Trace, c: Condition) {
    match c
    case InProject(project) => t.project == project
    case BelowCursor(cursor) => Below(t.key, cursor)
    case StatusIs(status) => t.status == status
    case StartedFrom(at) => t.key.startedAt >= at
    case StartedTo(at) => t.key.startedAt <= at
  }

  predicate SatisfiesAll(t: Trace, conditions: seq<Condition>) {
    forall c :: c in conditions ==> Satisfies(t, c)
  }

  lemma WithCondition(conditions: seq<Condition>, added: Condition)
    ensures forall t :: SatisfiesAll(t, conditions + [added]) <==> SatisfiesAll(t, conditions) && Satisfies(t, added)
  {
    forall t ensures SatisfiesAll(t, conditions + [added]) <==> SatisfiesAll(t, conditions) && Satisfies(t, added) {
      assert forall c :: c in conditions + [added] <==> c in conditions || c == added;
    }
  }

  /** `SELECT ... WHERE <all conditions> ORDER BY started_at DESC, id DESC`. */
  function Select(table: seq<Trace>, conditions: seq<Condition>): seq<Trace> {
    if table == [] then []
    else
      var t := table[|table| - 1];
      var before := Select(table[..|table| - 1], conditions);
      if SatisfiesAll(t, conditions) then Insert(before, t) else before
  }

  lemma {:induction false} SelectIsListing(
    table: seq<Trace>, conditions: seq<Condition>, s: Search, cursor: Option<Cursor>)
    requires forall t :: SatisfiesAll(t, conditions) <==> Visible(t, s, cursor)
    ensures Select(table, conditions) == Listing(table, s, cursor)
  {
    if table != [] {
      SelectIsListing(table[..|table| - 1], conditions, s, cursor);
    }
  }

  // ---------------------------------------------------------------- following cursors

  /** All items a client collects by asking for the next page until no cursor comes back. */
  function Follow(table: seq<Trace>, s: Search, cursor: Option<Cursor>, limit: nat): seq<Trace>
    requires WellFormed(table)
    decreases |Listing(table, s, cursor)|
  {
    PageSplits(table, s, cursor, limit);
    var (items, next) := Page(table, s, cursor, limit);
    if next.None? then items else items + Follow(table, s, next, limit)
  }

  /**
   On an unchanging table the pages concatenate to the whole listing, so no row is missed or repeated, exactly
   when the page size is positive or there is nothing to list: with page size 0 there is never a cursor.
   */
  lemma {:induction false} FollowIsExact(table: seq<Trace>, s: Search, cursor: Option<Cursor>, limit: nat)
    requires WellFormed(table)
    ensures Follow(table, s, cursor, limit) == Listing(table, s, cursor)
            <==> limit > 0 || Listing(table, s, cursor) == []
    decreases |Listing(table, s, cursor)|
  {
    PageSplits(table, s, cursor, limit);
    var next := Page(table, s, cursor, limit).1;
    if next.Some? {
      FollowIsExact(table, s, next, limit);
    }
  }

  // ---------------------------------------------------------------- writes between pages

  datatype Position = At(cursor: Option<Cursor>) | Finished

  predicate Ahead(k: Key, p: Position) {
    p.At? && (p.cursor.Some? ==> Below(k, p.cursor.value))
  }

  /** One page from each table in turn, until no cursor comes back. */
  function Walk(tables: seq<seq<Trace>>, s: Search, p: Position, limit: nat): (seq<Trace>, Position) {
    if tables == [] || p.Finished? then ([], p)
    else
      var (items, next) := Page(tables[0], s, p.cursor, limit);
      var (later, end) := Walk(tables[1..], s, After(next), limit);
      (items + later, end)
  }

  ghost predicate Offers(table: seq<Trace>, s: Search, k: Key) {
    exists t :: t in table && t.key == k && Matches(t, s)
  }

  function After(next: Option<Cursor>): Position {
    if next.None? then Finished else At(next)
  }

  /** Whatever is ahead of the position a page leads to comes after all its items, and was ahead before it. */
  lemma AheadIsLater(table: seq<Trace>, s: Search, cursor: Option<Cursor>, limit: nat, k: Key)
    requires WellFormed(table) && IsUuid(k.id) && Ahead(k, After(Page(table, s, cursor, limit).1))
    ensures Ahead(k, At(cursor)) && forall r :: r in Page(table, s, cursor, limit).0 ==> Precedes(r.key, k)
  {
    var all := Listing(table, s, cursor);
    var items := Page(table, s, cursor, limit).0;
    PageSplits(table, s, cursor, limit);
    ListingIs(table, s, cursor);
    var last := items[|items| - 1];
    assert all[|items| - 1] == last;
    assert last in all;
    BelowIsAfter(k, last.key);
    if cursor.Some? && k.startedAt == last.key.startedAt == cursor.value.startedAt {
      LexLessTransitive(Text(k.id), Text(last.key.id), cursor.value.id);
    }
    forall r | r in items ensures Precedes(r.key, k) {
      var i :| 0 <= i < |items| && items[i] == r;
      assert all[i] == r;
    }
  }

  /** One page returns every matching row it passes. */
  lemma PageIsComplete(table: seq<Trace>, s: Search, cursor: Option<Cursor>, limit: nat, k: Key)
    requires limit > 0 && WellFormed(table) && Offers(table, s, k) && Ahead(k, At(cursor))
    requires !Ahead(k, After(Page(table, s, cursor, limit).1))
    ensures exists r :: r in Page(table, s, cursor, limit).0 && r.key == k
  {
    var (items, next) := Page(table, s, cursor, limit);
    var t :| t in table && t.key == k && Matches(t, s);
    PageSplits(table, s, cursor, limit);
    ListingIs(table, s, cursor);
    ListingIs(table, s, next);
    assert t in Listing(table, s, cursor);
  }

  lemma PageIsSound(table: seq<Trace>, s: Search, cursor: Option<Cursor>, limit: nat)
    requires limit > 0 && WellFormed(table)
    ensures var items := Page(table, s, cursor, limit).0;
            Descending(items) && forall r :: r in items ==> r in table && Visible(r, s, cursor)
  {
    var all := Listing(table, s, cursor);
    var items := Page(table, s, cursor, limit).0;
    PageSplits(table, s, cursor, limit);
    ListingIs(table, s, cursor);
    assert items <= all;
    assert forall r :: r in items ==> r in all;
  }

  ghost predicate SomeSnapshotHas(tables: seq<seq<Trace>>, s: Search, r: Trace) {
    exists table :: table in tables && r in table && Matches(r, s)
  }

  ghost predicate EverySnapshotOffers(tables: seq<seq<Trace>>, s: Search, k: Key) {
    forall table :: table in tables ==> Offers(table, s, k)
  }

  ghost predicate Returned(rows: seq<Trace>, k: Key) {
    exists r :: r in rows && r.key == k
  }

  /** A page and then rows from behind it still descend. */
  lemma PageThenLater(table: seq<Trace>, s: Search, cursor: Option<Cursor>, limit: nat, later: seq<Trace>)
    requires limit > 0 && WellFormed(table) && Descending(later)
    requires forall r :: r in later ==> IsUuid(r.key.id) && Ahead(r.key, After(Page(table, s, cursor, limit).1))
    ensures Descending(Page(table, s, cursor, limit).0 + later)
    ensures forall r :: r in later ==> Ahead(r.key, At(cursor))
  {
    var items := Page(table, s, cursor, limit).0;
    PageIsSound(table, s, cursor, limit);
    forall r | r in later
      ensures Ahead(r.key, At(cursor)) && forall x :: x in items ==> Precedes(x.key, r.key)
    {
      AheadIsLater(table, s, cursor, limit, r.key);
    }
    forall i, j | 0 <= i < |items| && 0 <= j < |later| ensures Precedes(items[i].key, later[j].key) {
      assert items[i] in items && later[j] in later;
    }
  }

  /**
   The table may change in any way between pages. The items still come in strictly descending key order, so
   none is repeated; each was a matching row of some snapshot; and a key that every snapshot offers has been
   returned once the walk has passed it.
   */
  lemma {:induction false} WalkIsExact(tables: seq<seq<Trace>>, s: Search, p: Position, limit: nat)
    requires limit > 0 && forall table :: table in tables ==> WellFormed(table)
    ensures var (rows, end) := Walk(tables, s, p, limit);
            && Descending(rows)
            && (forall r :: r in rows ==> Ahead(r.key, p) && SomeSnapshotHas(tables, s, r))
            && (forall k :: EverySnapshotOffers(tables, s, k) && Ahead(k, p) && !Ahead(k, end) ==> Returned(rows, k))
  {
    if tables != [] && p.At? {
      var (items, next) := Page(tables[0], s, p.cursor, limit);
      var q := After(next);
      var (later, end) := Walk(tables[1..], s, q, limit);
      WalkIsExact(tables[1..], s, q, limit);
      PageIsSound(tables[0], s, p.cursor, limit);
      forall r | r in later ensures IsUuid(r.key.id) && SomeSnapshotHas(tables, s, r) {
        assert SomeSnapshotHas(tables[1..], s, r);
        var table :| table in tables[1..] && r in table && Matches(r, s);
        assert table in tables;
      }
      PageThenLater(tables[0], s, p.cursor, limit, later);
      forall r | r in items ensures SomeSnapshotHas(tables, s, r) {
        assert tables[0] in tables;
      }
      forall k | EverySnapshotOffers(tables, s, k) && Ahead(k, p) && !Ahead(k, end)
        ensures Returned(items + later, k)
      {
        WalkCompletes(tables, s, p, limit, items, later, k);
      }
    }
  }

  lemma WalkCompletes(tables: seq<seq<Trace>>, s: Search, p: Position, limit: nat,
                      items: seq<Trace>, later: seq<Trace>, k: Key)
    requires limit > 0 && tables != [] && WellFormed(tables[0]) && p.At?
    requires items == Page(tables[0], s, p.cursor, limit).0
    requires EverySnapshotOffers(tables, s, k) && Ahead(k, p)
    requires EverySnapshotOffers(tables[1..], s, k) && Ahead(k, After(Page(tables[0], s, p.cursor, limit).1)) ==>
               Returned(later, k)
    ensures Returned(items + later, k)
  {
    assert tables[0] in tables && Offers(tables[0], s, k);
    assert forall table :: table in tables[1..] ==> table in tables;
    if Ahead(k, After(Page(tables[0], s, p.cursor, limit).1)) {
      var r :| r in later && r.key == k;
      assert r in items + later;
    } else {
      PageIsComplete(tables[0], s, p.cursor, limit, k);
      var r :| r in items && r.key == k;
      assert r in items + later;
    }
  }
}
