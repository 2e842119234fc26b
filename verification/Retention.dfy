/**
 The retention job of one project: fetch the oldest expired spans, delete their payload objects in chunks,
 delete the rows whose payload is confirmed gone, and go on while that makes progress.
 */
module Retention {
  import opened Uuids

  const RETENTION_BATCH_SIZE := 1000
  const S3_DELETE_BATCH_SIZE := 1000

  /** `payload` is the object key; the empty string stands for none. */
  datatype Row = Row(id: nat, startedAt: int, trace: nat, payload: string)

  datatype TraceRow = TraceRow(id: nat, startedAt: int)

  datatype Store = Store(spans: seq<Row>, objects: set<string>)

  /**
   Storage answers one chunk, with an error entry for each object it kept: `failed` are the keys that an entry
   names, `unnamed` those whose entry names no key. Or the call raises, possibly after some deletions.
   */
  datatype Reply =
    | Answered(failed: set<string>, unnamed: set<string>)
    | StorageError(deletedAnyway: set<string>)

  function Prefix(project: string): string {
    "payloads/" + project + "/"
  }

  predicate IsProjectPayloadKey(project: string, key: string) {
    Prefix(project) <= key
  }

  predicate Expired(r: Row, cutoff: int) {
    r.startedAt < cutoff
  }

  // ---------------------------------------------------------------- fetching

  function InsertByStart(rows: seq<Row>, r: Row): seq<Row> {
    if rows == [] || rows[|rows| - 1].startedAt <= r.startedAt then rows + [r]
    else InsertByStart(rows[..|rows| - 1], r) + [rows[|rows| - 1]]
  }

  /** `WHERE started_at < :cutoff ORDER BY started_at ASC`. */
  function ExpiredByStart(rows: seq<Row>, cutoff: int): seq<Row> {
    if rows == [] then []
    else
      var before := ExpiredByStart(rows[..|rows| - 1], cutoff);
      if Expired(rows[|rows| - 1], cutoff) then InsertByStart(before, rows[|rows| - 1]) else before
  }

  function Fetch(rows: seq<Row>, cutoff: int): seq<Row> {
    var expired := ExpiredByStart(rows, cutoff);
    if |expired| <= RETENTION_BATCH_SIZE then expired else expired[..RETENTION_BATCH_SIZE]
  }

  ghost predicate AscendingStarts(rows: seq<Row>) {
    forall i, j :: 0 <= i < j < |rows| ==> rows[i].startedAt <= rows[j].startedAt
  }

  lemma LastIsLatest(rows: seq<Row>)
    requires AscendingStarts(rows) && rows != []
    ensures forall x :: x in rows ==> x.startedAt <= rows[|rows| - 1].startedAt
  {}

  lemma AppendAscends(rows: seq<Row>, last: Row)
    requires AscendingStarts(rows) && forall x :: x in rows ==> x.startedAt <= last.startedAt
    ensures AscendingStarts(rows + [last])
  {
    forall i | 0 <= i < |rows| ensures rows[i].startedAt <= last.startedAt {
      assert rows[i] in rows;
    }
  }

  lemma {:induction false} InsertIs(rows: seq<Row>, r: Row)
    requires AscendingStarts(rows)
    ensures AscendingStarts(InsertByStart(rows, r))
    ensures forall x :: x in InsertByStart(rows, r) <==> x in rows || x == r
    ensures |InsertByStart(rows, r)| == |rows| + 1
  {
    if rows != [] {
      LastIsLatest(rows);
    }
    if rows != [] && rows[|rows| - 1].startedAt > r.startedAt {
      var init, last := rows[..|rows| - 1], rows[|rows| - 1];
      assert rows == init + [last];
      InsertIs(init, r);
      AppendAscends(InsertByStart(init, r), last);
    } else {
      AppendAscends(rows, r);
    }
  }

  lemma {:induction false} ExpiredByStartIs(rows: seq<Row>, cutoff: int)
    ensures var expired := ExpiredByStart(rows, cutoff);
            AscendingStarts(expired) && forall r :: r in expired <==> r in rows && Expired(r, cutoff)
  {
    if rows != [] {
      var init, last := rows[..|rows| - 1], rows[|rows| - 1];
      assert rows == init + [last];
      ExpiredByStartIs(init, cutoff);
      InsertIs(ExpiredByStart(init, cutoff), last);
    }
  }

  /** A fetch returns expired rows, the oldest first; only a full fetch leaves any out, and then none older. */
  lemma FetchIs(rows: seq<Row>, cutoff: int)
    ensures var batch := Fetch(rows, cutoff);
            && |batch| <= 1000
            && (forall r :: r in batch ==> r in rows && r.startedAt < cutoff)
            && (batch == [] <==> forall r :: r in rows ==> r.startedAt >= cutoff)
            && (forall i, j :: 0 <= i < j < |batch| ==> batch[i].startedAt <= batch[j].startedAt)
            && (forall r, b :: r in rows && r.startedAt < cutoff && r !in batch && b in batch ==>
                  |batch| == 1000 && b.startedAt <= r.startedAt)
  {
    var expired := ExpiredByStart(rows, cutoff);
    var batch := Fetch(rows, cutoff);
    ExpiredByStartIs(rows, cutoff);
    if expired != [] {
      assert expired[0] in expired;
    }
    forall r, b | r in rows && Expired(r, cutoff) && r !in batch && b in batch
      ensures |batch| == RETENTION_BATCH_SIZE && b.startedAt <= r.startedAt
    {
      assert r in expired;
      var i :| 0 <= i < |expired| && expired[i] == r;
      var j :| 0 <= j < |batch| && batch[j] == b;
      if i >= |batch| {
        assert expired[j].startedAt <= expired[i].startedAt;
      }
    }
  }

  // ---------------------------------------------------------------- deleting payloads

  function Members(keys: seq<string>): set<string> {
    set k | k in keys
  }

  function ChunkOf(keys: seq<string>): seq<string> {
    if |keys| <= S3_DELETE_BATCH_SIZE then keys else keys[..S3_DELETE_BATCH_SIZE]
  }

  /** Remaining objects and confirmed keys; the first error ends the loop and keeps what was confirmed before. */
  function DeleteChunks(
    objects: set<string>, keys: seq<string>, reply: nat -> Reply, i: nat): (set<string>, set<string>)
    decreases |keys|
  {
    if keys == [] then (objects, {})
    else
      var chunk := ChunkOf(keys);
      match reply(i)
      case StorageError(gone) => (objects - gone * Members(chunk), {})
      case Answered(failed, unnamed) =>
        var confirmed := Members(chunk) - failed;
        var (left, later) := DeleteChunks(objects - (confirmed - unnamed), keys[|chunk|..], reply, i + 1);
        (left, confirmed + later)
  }

  /** Some answer had an error entry for this key that did not name it. */
  ghost predicate KeptUnnamed(reply: nat -> Reply, k: string) {
    exists i: nat :: reply(i).Answered? && k in reply(i).unnamed
  }

  lemma {:induction false} ConfirmedAreGone(objects: set<string>, keys: seq<string>, reply: nat -> Reply, i: nat)
    ensures var (left, confirmed) := DeleteChunks(objects, keys, reply, i);
            && left <= objects
            && (forall k :: k in confirmed && k in left ==> KeptUnnamed(reply, k))
            && (forall k :: k in confirmed ==> k in keys)
            && (forall k :: k in objects && k !in left ==> k in keys)
    decreases |keys|
  {
    if keys != [] && reply(i).Answered? {
      var chunk := ChunkOf(keys);
      var gone := Members(chunk) - reply(i).failed - reply(i).unnamed;
      ConfirmedAreGone(objects - gone, keys[|chunk|..], reply, i + 1);
    }
  }

  /** What one call does to the keys of one batch, which fit into one chunk. */
  lemma OneChunk(objects: set<string>, keys: seq<string>, reply: nat -> Reply)
    requires |keys| <= S3_DELETE_BATCH_SIZE
    ensures DeleteChunks(objects, keys, reply, 0)
            == if reply(0).StorageError? then (objects - reply(0).deletedAnyway * Members(keys), {})
               else (objects - (Members(keys) - reply(0).failed - reply(0).unnamed), Members(keys) - reply(0).failed)
  {
    if keys == [] {
      assert Members(keys) == {};
      if reply(0).StorageError? {
        assert objects - reply(0).deletedAnyway * {} == objects;
      } else {
        assert Members(keys) - reply(0).failed == {};
        assert objects - (Members(keys) - reply(0).failed - reply(0).unnamed) == objects;
      }
    } else {
      assert keys[|keys|..] == [];
      if reply(0).Answered? {
        var confirmed := Members(keys) - reply(0).failed;
        assert confirmed + {} == confirmed;
      }
    }
  }

  function SafeKeys(project: string, batch: seq<Row>): seq<string> {
    if batch == [] then []
    else
      var key := batch[|batch| - 1].payload;
      SafeKeys(project, batch[..|batch| - 1]) + if key != "" && IsProjectPayloadKey(project, key) then [key] else []
  }

  lemma {:induction false} SafeKeysAre(project: string, batch: seq<Row>)
    ensures forall k :: k in SafeKeys(project, batch) <==>
              k != "" && IsProjectPayloadKey(project, k) && exists r :: r in batch && r.payload == k
  {
    if batch != [] {
      SafeKeysAre(project, batch[..|batch| - 1]);
      assert batch == batch[..|batch| - 1] + [batch[|batch| - 1]];
      assert forall r :: r in batch <==> r in batch[..|batch| - 1] || r == batch[|batch| - 1];
    }
  }

  lemma {:induction false} SafeKeysFit(project: string, batch: seq<Row>)
    ensures |SafeKeys(project, batch)| <= |batch|
  {
    if batch != [] {
      SafeKeysFit(project, batch[..|batch| - 1]);
    }
  }

  // ---------------------------------------------------------------- one round

  ghost predicate DistinctKeys(rows: seq<Row>) {
    forall a, b :: a in rows && b in rows && (a.id, a.startedAt) == (b.id, b.startedAt) ==> a == b
  }

  predicate Deletable(project: string, r: Row, confirmed: set<string>) {
    r.payload == "" || r.payload in confirmed || !IsProjectPayloadKey(project, r.payload)
  }

  /** `DELETE ... USING selected`: rows of the batch that may go, matched on id and start. */
  predicate Doomed(project: string, r: Row, batch: seq<Row>, confirmed: set<string>) {
    exists b :: b in batch && (b.id, b.startedAt) == (r.id, r.startedAt) && Deletable(project, b, confirmed)
  }

  function Survivors(project: string, rows: seq<Row>, batch: seq<Row>, confirmed: set<string>): seq<Row> {
    if rows == [] then []
    else
      var r := rows[|rows| - 1];
      Survivors(project, rows[..|rows| - 1], batch, confirmed)
      + if Doomed(project, r, batch, confirmed) then [] else [r]
  }

  /** The keys of the next batch. */
  function Keys(project: string, s: Store, cutoff: int): seq<string> {
    SafeKeys(project, Fetch(s.spans, cutoff))
  }

  function Confirmed(project: string, s: Store, cutoff: int, reply: nat -> Reply): set<string> {
    DeleteChunks(s.objects, Keys(project, s, cutoff), reply, 0).1
  }

  function Round(project: string, s: Store, cutoff: int, reply: nat -> Reply): Store {
    var (left, confirmed) := DeleteChunks(s.objects, Keys(project, s, cutoff), reply, 0);
    Store(Survivors(project, s.spans, Fetch(s.spans, cutoff), confirmed), left)
  }

  lemma {:induction false} SurvivorsAre(project: string, rows: seq<Row>, batch: seq<Row>, confirmed: set<string>)
    ensures forall r :: r in Survivors(project, rows, batch, confirmed)
                        <==> r in rows && !Doomed(project, r, batch, confirmed)
    ensures |Survivors(project, rows, batch, confirmed)| <= |rows|
    ensures |Survivors(project, rows, batch, confirmed)| == |rows|
            <==> forall r :: r in rows ==> !Doomed(project, r, batch, confirmed)
  {
    if rows != [] {
      SurvivorsAre(project, rows[..|rows| - 1], batch, confirmed);
      assert rows == rows[..|rows| - 1] + [rows[|rows| - 1]];
      assert forall r :: r in rows <==> r in rows[..|rows| - 1] || r == rows[|rows| - 1];
    }
  }

  lemma SurvivorsStep(project: string, rows: seq<Row>, n: nat, batch: seq<Row>, confirmed: set<string>)
    requires n < |rows|
    ensures Survivors(project, rows[..n + 1], batch, confirmed)
            == Survivors(project, rows[..n], batch, confirmed)
               + if Doomed(project, rows[n], batch, confirmed) then [] else [rows[n]]
  {
    assert rows[..n + 1][..n] == rows[..n];
  }

  /** One request names at most a thousand keys, taken from the front. */
  lemma ChunkIs(keys: seq<string>)
    ensures ChunkOf(keys) <= keys && (|ChunkOf(keys)| == 1000 || (|keys| < 1000 && ChunkOf(keys) == keys))
  {}

  /** Storage was asked to delete the key for a fetched row. */
  ghost predicate Asked(project: string, batch: seq<Row>, k: string) {
    exists r :: r in batch && r.payload == k != "" && "payloads/" + project + "/" <= k
  }

  /** The row has a payload of its own that the one answer of the round did not confirm. */
  predicate Refused(project: string, r: Row, answer: Reply) {
    r.payload != "" && "payloads/" + project + "/" <= r.payload
    && (answer.StorageError? || r.payload in answer.failed)
  }

  /** The answer to a request for the key does not count the object as kept. */
  predicate Removed(answer: Reply, k: string) {
    match answer
    case StorageError(deletedAnyway) => k in deletedAnyway
    case Answered(failed, unnamed) => k !in failed && k !in unnamed
  }

  /**
   A round, row by row and object by object: a fetched row goes unless its payload was refused, an object goes when
   it was asked for and the answer does not count it as kept.
   */
  lemma RoundIs(project: string, s: Store, cutoff: int, reply: nat -> Reply)
    requires DistinctKeys(s.spans)
    ensures var batch, after := Fetch(s.spans, cutoff), Round(project, s, cutoff, reply);
            && (forall r :: r in after.spans <==> r in s.spans && (r !in batch || Refused(project, r, reply(0))))
            && (forall k :: k in after.objects <==>
                  k in s.objects && !(Asked(project, batch, k) && Removed(reply(0), k)))
  {
    var batch := Fetch(s.spans, cutoff);
    FetchIs(s.spans, cutoff);
    SafeKeysAre(project, batch);
    SafeKeysFit(project, batch);
    OneChunk(s.objects, Keys(project, s, cutoff), reply);
    SurvivorsAre(project, s.spans, batch, Confirmed(project, s, cutoff, reply));
    forall k ensures k in Keys(project, s, cutoff) <==> Asked(project, batch, k) {}
    forall r | r in s.spans
      ensures Doomed(project, r, batch, Confirmed(project, s, cutoff, reply))
              <==> r in batch && !Refused(project, r, reply(0))
    {
      if r in batch && r.payload != "" && IsProjectPayloadKey(project, r.payload) {
        assert Asked(project, batch, r.payload);
      }
    }
  }

  // ---------------------------------------------------------------- the loop

  datatype Result = Done(store: Store) | NoProgress(store: Store)

  function Retain(project: string, s: Store, cutoff: int, replies: nat -> (nat -> Reply), round: nat): Result
    decreases |s.spans|
  {
    if Fetch(s.spans, cutoff) == [] then Done(s)
    else
      var after := Round(project, s, cutoff, replies(round));
      if |after.spans| >= |s.spans| then NoProgress(after) else Retain(project, after, cutoff, replies, round + 1)
  }

  function WithoutStale(traces: seq<TraceRow>, spans: seq<Row>, cutoff: int): seq<TraceRow> {
    if traces == [] then []
    else
      var t := traces[|traces| - 1];
      WithoutStale(traces[..|traces| - 1], spans, cutoff)
      + if t.startedAt < cutoff && !(exists s :: s in spans && s.trace == t.id) then [] else [t]
  }

  class ProjectStorage {
    const project: string
    var spans: seq<Row>
    var traces: seq<TraceRow>
    var objects: set<string>

    constructor (project: string, spans: seq<Row>, traces: seq<TraceRow>, objects: set<string>)
      ensures this.project == project && this.traces == traces && Contents() == Store(spans, objects)
    {
      this.project, this.spans, this.traces, this.objects := project, spans, traces, objects;
    }

    function Contents(): Store
      reads this
    {
      Store(spans, objects)
    }

    method DeleteS3Objects(keys: seq<string>, reply: nat -> Reply) returns (confirmed: set<string>)
      modifies this`objects
      ensures (objects, confirmed) == DeleteChunks(old(objects), keys, reply, 0)
    {
      confirmed := {};
      var rest, i := keys, 0;
      ghost var all: set<string> := DeleteChunks(objects, keys, reply, 0).1;
      assert {} + all == all;
      while rest != []
        invariant var (left, later) := DeleteChunks(objects, rest, reply, i);
                  DeleteChunks(old(objects), keys, reply, 0) == (left, confirmed + later)
        decreases |rest|
      {
        var chunk := ChunkOf(rest);
        match reply(i) {
          case StorageError(gone) =>
            objects := objects - gone * Members(chunk);
            assert confirmed + {} == confirmed;
            return;
          case Answered(failed, unnamed) =>
            var successful := Members(chunk) - failed;
            ghost var later := DeleteChunks(objects - (successful - unnamed), rest[|chunk|..], reply, i + 1).1;
            assert confirmed + (successful + later) == confirmed + successful + later;
            objects := objects - (successful - unnamed);
            confirmed := confirmed + successful;
        }
        rest, i := rest[|chunk|..], i + 1;
      }
      assert confirmed + {} == confirmed;
    }

    method DeleteSpanBatch(batch: seq<Row>, confirmed: set<string>) returns (deleted: nat)
      modifies this`spans
      ensures spans == Survivors(project, old(spans), batch, confirmed)
      ensures deleted == |old(spans)| - |spans|
    {
      var kept := [];
      for i := 0 to |spans|
        invariant spans == old(spans) && kept == Survivors(project, spans[..i], batch, confirmed)
      {
        SurvivorsStep(project, spans, i, batch, confirmed);
        if !Doomed(project, spans[i], batch, confirmed) {
          kept := kept + [spans[i]];
        }
      }
      assert spans[..|spans|] == spans;
      assert |kept| <= |spans| by {
        SurvivorsAre(project, spans, batch, confirmed);
      }
      deleted := |spans| - |kept|;
      spans := kept;
    }

    /** The job for one project; the result says whether it stopped because a round deleted nothing. */
    method RunDataRetention(cutoff: int, replies: nat -> (nat -> Reply)) returns (noProgress: bool)
      modifies this
      ensures var result := Retain(project, old(Contents()), cutoff, replies, 0);
              && Contents() == result.store && noProgress == result.NoProgress?
              && traces == WithoutStale(old(traces), spans, cutoff)
    {
      noProgress := false;
      var round := 0;
      while true
        invariant traces == old(traces) && !noProgress
        invariant Retain(project, old(Contents()), cutoff, replies, 0)
                  == Retain(project, Contents(), cutoff, replies, round)
        decreases |spans|
      {
        var batch := Fetch(spans, cutoff);
        if batch == [] {
          break;
        }
        ghost var before := Contents();
        var confirmed := DeleteS3Objects(SafeKeys(project, batch), replies(round));
        var deleted := DeleteSpanBatch(batch, confirmed);
        assert Contents() == Round(project, before, cutoff, replies(round));
        if deleted == 0 {
          noProgress := true;
          break;
        }
        round := round + 1;
      }
      traces := WithoutStale(traces, spans, cutoff);
    }
  }

  // ---------------------------------------------------------------- what the job guarantees

  /** The row has a payload under the project's prefix. */
  predicate HasPayload(project: string, r: Row) {
    r.payload != "" && IsProjectPayloadKey(project, r.payload)
  }

  /** What one round, and hence any number of rounds, may have done. */
  ghost predicate Progressed(project: string, before: Store, after: Store, cutoff: int) {
    && (forall r :: r in after.spans ==> r in before.spans)
    && (forall r :: r in before.spans && r !in after.spans ==> Expired(r, cutoff))
    && after.objects <= before.objects
    && (forall k :: k in before.objects && k !in after.objects ==>
          IsProjectPayloadKey(project, k) && exists r :: r in before.spans && Expired(r, cutoff) && r.payload == k)
  }

  lemma RoundProgresses(project: string, s: Store, cutoff: int, reply: nat -> Reply)
    requires DistinctKeys(s.spans)
    ensures Progressed(project, s, Round(project, s, cutoff, reply), cutoff)
  {
    var batch := Fetch(s.spans, cutoff);
    FetchIs(s.spans, cutoff);
    SafeKeysAre(project, batch);
    ConfirmedAreGone(s.objects, Keys(project, s, cutoff), reply, 0);
    SurvivorsAre(project, s.spans, batch, Confirmed(project, s, cutoff, reply));
  }

  lemma ProgressChains(project: string, a: Store, b: Store, c: Store, cutoff: int)
    requires Progressed(project, a, b, cutoff) && Progressed(project, b, c, cutoff)
    ensures Progressed(project, a, c, cutoff)
  {
    forall k | k in a.objects && k !in c.objects
      ensures IsProjectPayloadKey(project, k) && exists r :: r in a.spans && Expired(r, cutoff) && r.payload == k
    {
      if k in b.objects {
        var r :| r in b.spans && Expired(r, cutoff) && r.payload == k;
        assert r in a.spans;
      }
    }
  }

  /**
   Safety, whatever storage answers in every round: only rows older than the cutoff are deleted, and no object
   is deleted except payloads of expired rows under the project's prefix.
   */
  lemma {:induction false} RetentionIsSafe(
    project: string, s: Store, cutoff: int, replies: nat -> (nat -> Reply), round: nat)
    requires DistinctKeys(s.spans)
    ensures Progressed(project, s, Retain(project, s, cutoff, replies, round).store, cutoff)
    decreases |s.spans|
  {
    if Fetch(s.spans, cutoff) != [] {
      var after := Round(project, s, cutoff, replies(round));
      RoundProgresses(project, s, cutoff, replies(round));
      if |after.spans| < |s.spans| {
        RetentionIsSafe(project, after, cutoff, replies, round + 1);
        ProgressChains(project, s, after, Retain(project, after, cutoff, replies, round + 1).store, cutoff);
      }
    }
  }

  /** The stores in which a batch was fetched, one per round. */
  function Trail(project: string, s: Store, cutoff: int, replies: nat -> (nat -> Reply), round: nat): seq<Store>
    decreases |s.spans|
  {
    if Fetch(s.spans, cutoff) == [] then []
    else
      var after := Round(project, s, cutoff, replies(round));
      [s] + if |after.spans| >= |s.spans| then [] else Trail(project, after, cutoff, replies, round + 1)
  }

  // ---------------------------------------------------------------- how it ends

  /** Some row of the batch may go: it has no payload of the project, or its object is confirmed. */
  ghost predicate Moves(project: string, s: Store, cutoff: int, reply: nat -> Reply) {
    exists b :: b in Fetch(s.spans, cutoff) && Deletable(project, b, Confirmed(project, s, cutoff, reply))
  }

  lemma RoundShrinksIff(project: string, s: Store, cutoff: int, reply: nat -> Reply)
    ensures var after := Round(project, s, cutoff, reply);
            if Moves(project, s, cutoff, reply) then |after.spans| < |s.spans| else after.spans == s.spans
  {
    var batch, confirmed := Fetch(s.spans, cutoff), Confirmed(project, s, cutoff, reply);
    FetchIs(s.spans, cutoff);
    SurvivorsAre(project, s.spans, batch, confirmed);
    if b :| b in batch && Deletable(project, b, confirmed) {
      assert Doomed(project, b, batch, confirmed);
    } else {
      NoneDoomed(project, s.spans, batch, confirmed);
    }
  }

  lemma {:induction false} NoneDoomed(project: string, rows: seq<Row>, batch: seq<Row>, confirmed: set<string>)
    requires forall i :: 0 <= i < |rows| ==> !Doomed(project, rows[i], batch, confirmed)
    ensures Survivors(project, rows, batch, confirmed) == rows
  {
    if rows != [] {
      var init, last := rows[..|rows| - 1], rows[|rows| - 1];
      NoneDoomed(project, init, batch, confirmed);
      assert rows == init + [last];
    }
  }

  ghost predicate EachMoves(
    project: string, trail: seq<Store>, cutoff: int, replies: nat -> (nat -> Reply), round: nat)
  {
    forall n :: 0 <= n < |trail| ==> Moves(project, trail[n], cutoff, replies(round + n))
  }

  lemma EachMovesCons(
    project: string, s: Store, rest: seq<Store>, cutoff: int, replies: nat -> (nat -> Reply), round: nat)
    ensures EachMoves(project, [s] + rest, cutoff, replies, round)
            <==> Moves(project, s, cutoff, replies(round)) && EachMoves(project, rest, cutoff, replies, round + 1)
  {
    var trail := [s] + rest;
    if EachMoves(project, trail, cutoff, replies, round) {
      assert trail[0] == s;
      forall n | 0 <= n < |rest| ensures Moves(project, rest[n], cutoff, replies(round + 1 + n)) {
        assert trail[n + 1] == rest[n] && round + (n + 1) == round + 1 + n;
      }
    }
    if Moves(project, s, cutoff, replies(round)) && EachMoves(project, rest, cutoff, replies, round + 1) {
      forall n | 0 <= n < |trail| ensures Moves(project, trail[n], cutoff, replies(round + n)) {
        if n > 0 {
          assert trail[n] == rest[n - 1] && round + 1 + (n - 1) == round + n;
        }
      }
    }
  }

  /** The last batch of the trail is the first of which no row may go, and the rows are those it was fetched from. */
  ghost predicate StoppedAtLast(
    project: string, trail: seq<Store>, cutoff: int, replies: nat -> (nat -> Reply), round: nat, spans: seq<Row>)
  {
    var last := |trail| - 1;
    && last >= 0 && !Moves(project, trail[last], cutoff, replies(round + last))
    && EachMoves(project, trail[..last], cutoff, replies, round)
    && spans == trail[last].spans
  }

  lemma StoppedCons(project: string, s: Store, rest: seq<Store>, cutoff: int,
                    replies: nat -> (nat -> Reply), round: nat, spans: seq<Row>)
    requires Moves(project, s, cutoff, replies(round))
    requires StoppedAtLast(project, rest, cutoff, replies, round + 1, spans)
    ensures StoppedAtLast(project, [s] + rest, cutoff, replies, round, spans)
  {
    var trail, last := [s] + rest, |rest| - 1;
    assert trail[..last + 1] == [s] + rest[..last];
    EachMovesCons(project, s, rest[..last], cutoff, replies, round);
    assert trail[last + 1] == rest[last] && round + (last + 1) == round + 1 + last;
  }

  lemma {:induction false} RunsOrStops(
    project: string, s: Store, cutoff: int, replies: nat -> (nat -> Reply), round: nat)
    ensures var result := Retain(project, s, cutoff, replies, round);
            var trail := Trail(project, s, cutoff, replies, round);
            if result.Done?
            then EachMoves(project, trail, cutoff, replies, round) && Fetch(result.store.spans, cutoff) == []
            else StoppedAtLast(project, trail, cutoff, replies, round, result.store.spans)
    decreases |s.spans|
  {
    if Fetch(s.spans, cutoff) != [] {
      var after := Round(project, s, cutoff, replies(round));
      RoundShrinksIff(project, s, cutoff, replies(round));
      if |after.spans| < |s.spans| {
        var result, rest := Retain(project, after, cutoff, replies, round + 1),
                            Trail(project, after, cutoff, replies, round + 1);
        RunsOrStops(project, after, cutoff, replies, round + 1);
        if result.Done? {
          EachMovesCons(project, s, rest, cutoff, replies, round);
        } else {
          StoppedCons(project, s, rest, cutoff, replies, round, result.store.spans);
        }
      }
    }
  }

  /**
   How it ends: it runs to the end if and only if each batch fetched on the way has a row that may go, and then
   no expired row is left. Otherwise it stops at the first batch without one, deleting no row of it; expired
   rows beyond that batch remain only if the batch is full, and they are no older than it.
   */
  lemma RetentionEnds(project: string, s: Store, cutoff: int, replies: nat -> (nat -> Reply), round: nat)
    ensures var result := Retain(project, s, cutoff, replies, round);
            var trail := Trail(project, s, cutoff, replies, round);
            && (result.Done? <==> EachMoves(project, trail, cutoff, replies, round))
            && (result.Done? ==> forall r :: r in result.store.spans ==> !Expired(r, cutoff))
            && (result.NoProgress? ==> StoppedAtLast(project, trail, cutoff, replies, round, result.store.spans))
    ensures var left := Retain(project, s, cutoff, replies, round).store.spans;
            forall r, b :: r in left && Expired(r, cutoff) && r !in Fetch(left, cutoff) && b in Fetch(left, cutoff) ==>
              |Fetch(left, cutoff)| == RETENTION_BATCH_SIZE && b.startedAt <= r.startedAt
  {
    RunsOrStops(project, s, cutoff, replies, round);
    FetchIs(Retain(project, s, cutoff, replies, round).store.spans, cutoff);
  }

  /** A full batch with payloads, and one newer row without. */
  function StuckRows(project: string): seq<Row> {
    seq(RETENTION_BATCH_SIZE + 1,
        i requires 0 <= i => Row(i, i, 0, if i < RETENTION_BATCH_SIZE then Prefix(project) else ""))
  }

  lemma {:induction false} AscendingExpired(rows: seq<Row>, cutoff: int)
    requires AscendingStarts(rows) && forall r :: r in rows ==> Expired(r, cutoff)
    ensures ExpiredByStart(rows, cutoff) == rows
  {
    if rows != [] {
      var init := rows[..|rows| - 1];
      assert rows == init + [rows[|rows| - 1]];
      AscendingExpired(init, cutoff);
    }
  }

  /** Storage that raises before it deletes anything. */
  function Refusing(): nat -> (nat -> Reply) {
    n => i => StorageError({})
  }

  lemma RefusedStops(project: string, s: Store, cutoff: int)
    requires var batch := Fetch(s.spans, cutoff);
             batch != [] && forall b :: b in batch ==> !Deletable(project, b, {})
    ensures Retain(project, s, cutoff, Refusing(), 0) == NoProgress(s)
  {
    SafeKeysFit(project, Fetch(s.spans, cutoff));
    OneChunk(s.objects, Keys(project, s, cutoff), Refusing()(0));
    RoundShrinksIff(project, s, cutoff, Refusing()(0));
    assert s.objects - {} * Members(Keys(project, s, cutoff)) == s.objects;
  }

  lemma StuckBatch(project: string)
    ensures Fetch(StuckRows(project), RETENTION_BATCH_SIZE + 1) == StuckRows(project)[..RETENTION_BATCH_SIZE]
  {
    AscendingExpired(StuckRows(project), RETENTION_BATCH_SIZE + 1);
  }

  /** The stop in the concrete: storage refuses the oldest thousand, and a row that needs no storage stays behind. */
  lemma StopLeavesDeletableRow(project: string)
    ensures var s, cutoff := Store(StuckRows(project), {}), RETENTION_BATCH_SIZE + 1;
            var stuck := s.spans[RETENTION_BATCH_SIZE];
            && DistinctKeys(s.spans)
            && Retain(project, s, cutoff, Refusing(), 0) == NoProgress(s)
            && Expired(stuck, cutoff) && Deletable(project, stuck, {})
  {
    var s, cutoff := Store(StuckRows(project), {}), RETENTION_BATCH_SIZE + 1;
    var batch := StuckRows(project)[..RETENTION_BATCH_SIZE];
    StuckBatch(project);
    assert batch[0] in batch;
    forall b | b in batch ensures !Deletable(project, b, {}) {
      var i :| 0 <= i < |batch| && batch[i] == b;
      assert b.payload == Prefix(project) && b.payload[0] == 'p';
    }
    RefusedStops(project, s, cutoff);
  }

  // ---------------------------------------------------------------- payloads

  /** The row is gone and its payload is still there, for ever out of reach. */
  predicate Orphan(project: string, before: Store, after: Store, r: Row) {
    r in before.spans && r !in after.spans && HasPayload(project, r) && r.payload in after.objects
  }

  ghost predicate Orphans(project: string, before: Store, after: Store) {
    exists r :: Orphan(project, before, after, r)
  }

  /** Storage kept an object of the batch and reported that without naming its key. */
  ghost predicate Unreported(project: string, s: Store, cutoff: int, reply: Reply) {
    reply.Answered? && exists k :: k in Keys(project, s, cutoff) && k in s.objects && k in reply.unnamed - reply.failed
  }

  lemma RoundOrphansIff(project: string, s: Store, cutoff: int, reply: nat -> Reply)
    requires DistinctKeys(s.spans)
    ensures Unreported(project, s, cutoff, reply(0))
            <==> Orphans(project, s, Round(project, s, cutoff, reply))
  {
    var batch, keys := Fetch(s.spans, cutoff), Keys(project, s, cutoff);
    var confirmed := Confirmed(project, s, cutoff, reply);
    var after := Round(project, s, cutoff, reply);
    FetchIs(s.spans, cutoff);
    SafeKeysAre(project, batch);
    SafeKeysFit(project, batch);
    OneChunk(s.objects, keys, reply);
    SurvivorsAre(project, s.spans, batch, confirmed);
    if r :| Orphan(project, s, after, r) {
      assert Deletable(project, r, confirmed);
      assert r.payload in keys && r.payload in reply(0).unnamed - reply(0).failed;
    }
    if Unreported(project, s, cutoff, reply(0)) {
      var k :| k in keys && k in s.objects && k in reply(0).unnamed - reply(0).failed;
      var r :| r in batch && r.payload == k;
      assert Deletable(project, r, confirmed) && Doomed(project, r, batch, confirmed);
      assert Orphan(project, s, after, r);
    }
  }

  ghost predicate EachReported(
    project: string, trail: seq<Store>, cutoff: int, replies: nat -> (nat -> Reply), round: nat)
  {
    forall n :: 0 <= n < |trail| ==> !Unreported(project, trail[n], cutoff, replies(round + n)(0))
  }

  lemma EachReportedCons(
    project: string, s: Store, rest: seq<Store>, cutoff: int, replies: nat -> (nat -> Reply), round: nat)
    ensures EachReported(project, [s] + rest, cutoff, replies, round)
            <==> !Unreported(project, s, cutoff, replies(round)(0))
                 && EachReported(project, rest, cutoff, replies, round + 1)
  {
    var trail := [s] + rest;
    if EachReported(project, trail, cutoff, replies, round) {
      assert trail[0] == s;
      forall n | 0 <= n < |rest| ensures !Unreported(project, rest[n], cutoff, replies(round + 1 + n)(0)) {
        assert trail[n + 1] == rest[n] && round + (n + 1) == round + 1 + n;
      }
    }
    if !Unreported(project, s, cutoff, replies(round)(0)) && EachReported(project, rest, cutoff, replies, round + 1) {
      forall n | 0 <= n < |trail| ensures !Unreported(project, trail[n], cutoff, replies(round + n)(0)) {
        if n > 0 {
          assert trail[n] == rest[n - 1] && round + 1 + (n - 1) == round + n;
        }
      }
    }
  }

  ghost predicate DistinctPayloads(project: string, rows: seq<Row>) {
    forall a, b :: a in rows && b in rows && HasPayload(project, a) && a.payload == b.payload ==> a == b
  }

  lemma NoOrphanChains(project: string, a: Store, b: Store, c: Store)
    requires !Orphans(project, a, b) && !Orphans(project, b, c) && c.objects <= b.objects
    ensures !Orphans(project, a, c)
  {
    forall r ensures !Orphan(project, a, c, r) {
      assert !Orphan(project, a, b, r);
      assert !Orphan(project, b, c, r);
    }
  }

  /** No payload is orphaned if each round's answer names the keys of all batch objects that storage kept. */
  lemma {:induction false} ReportedMeansNoOrphan(
    project: string, s: Store, cutoff: int, replies: nat -> (nat -> Reply), round: nat)
    requires DistinctKeys(s.spans)
    requires EachReported(project, Trail(project, s, cutoff, replies, round), cutoff, replies, round)
    ensures !Orphans(project, s, Retain(project, s, cutoff, replies, round).store)
    decreases |s.spans|
  {
    if Fetch(s.spans, cutoff) != [] {
      var after := Round(project, s, cutoff, replies(round));
      RoundProgresses(project, s, cutoff, replies(round));
      RoundOrphansIff(project, s, cutoff, replies(round));
      if |after.spans| < |s.spans| {
        EachReportedCons(project, s, Trail(project, after, cutoff, replies, round + 1), cutoff, replies, round);
        ReportedMeansNoOrphan(project, after, cutoff, replies, round + 1);
        RetentionIsSafe(project, after, cutoff, replies, round + 1);
        NoOrphanChains(project, s, after, Retain(project, after, cutoff, replies, round + 1).store);
      } else {
        EachReportedCons(project, s, [], cutoff, replies, round);
        assert [s] + [] == [s];
      }
    }
  }

  /** An orphan of one round stays one, if no other row shares its object. */
  lemma OrphanStays(project: string, a: Store, b: Store, c: Store, cutoff: int, r: Row)
    requires DistinctPayloads(project, a.spans) && Progressed(project, a, b, cutoff)
             && Progressed(project, b, c, cutoff)
    requires Orphan(project, a, b, r)
    ensures Orphan(project, a, c, r)
  {}

  /**
   Exactly when the job orphans a payload: some answer on the way reported a kept object of the batch without
   naming its key. For one project with no object shared between rows.
   */
  lemma {:induction false} OrphanIffUnreported(
    project: string, s: Store, cutoff: int, replies: nat -> (nat -> Reply), round: nat)
    requires DistinctKeys(s.spans) && DistinctPayloads(project, s.spans)
    ensures Orphans(project, s, Retain(project, s, cutoff, replies, round).store)
            <==> !EachReported(project, Trail(project, s, cutoff, replies, round), cutoff, replies, round)
    decreases |s.spans|
  {
    if EachReported(project, Trail(project, s, cutoff, replies, round), cutoff, replies, round) {
      ReportedMeansNoOrphan(project, s, cutoff, replies, round);
    } else if Fetch(s.spans, cutoff) != [] {
      var after := Round(project, s, cutoff, replies(round));
      RoundProgresses(project, s, cutoff, replies(round));
      RoundOrphansIff(project, s, cutoff, replies(round));
      if |after.spans| < |s.spans| {
        var end := Retain(project, after, cutoff, replies, round + 1).store;
        EachReportedCons(project, s, Trail(project, after, cutoff, replies, round + 1), cutoff, replies, round);
        OrphanIffUnreported(project, after, cutoff, replies, round + 1);
        RetentionIsSafe(project, after, cutoff, replies, round + 1);
        if r :| Orphan(project, s, after, r) {
          OrphanStays(project, s, after, end, cutoff, r);
        } else {
          var r :| Orphan(project, after, end, r);
          assert Orphan(project, s, end, r);
        }
      } else {
        EachReportedCons(project, s, [], cutoff, replies, round);
        assert [s] + [] == [s];
      }
    }
  }

  /** Storage kept this object in spite of the round, did not name it, and it is there at the end. */
  ghost predicate Lingers(project: string, s: Store, cutoff: int, reply: Reply, end: Store, k: string) {
    reply.Answered? && k in Keys(project, s, cutoff) && k in reply.unnamed - reply.failed && k in end.objects
  }

  ghost predicate RoundHasLingering(project: string, s: Store, cutoff: int, reply: Reply, end: Store) {
    exists k :: Lingers(project, s, cutoff, reply, end, k)
  }

  ghost predicate SomeLingers(
    project: string, trail: seq<Store>, cutoff: int, replies: nat -> (nat -> Reply), round: nat, end: Store)
  {
    exists n :: 0 <= n < |trail| && RoundHasLingering(project, trail[n], cutoff, replies(round + n)(0), end)
  }

  lemma SomeLingersCons(project: string, s: Store, rest: seq<Store>, cutoff: int,
                        replies: nat -> (nat -> Reply), round: nat, end: Store)
    ensures SomeLingers(project, [s] + rest, cutoff, replies, round, end)
            <==> RoundHasLingering(project, s, cutoff, replies(round)(0), end)
                 || SomeLingers(project, rest, cutoff, replies, round + 1, end)
  {
    var trail := [s] + rest;
    if n :| 0 <= n < |trail| && RoundHasLingering(project, trail[n], cutoff, replies(round + n)(0), end) {
      if n > 0 {
        assert trail[n] == rest[n - 1] && round + n == round + 1 + (n - 1);
      }
    }
    if RoundHasLingering(project, s, cutoff, replies(round)(0), end) {
      assert trail[0] == s && round + 0 == round;
    }
    if n :| 0 <= n < |rest| && RoundHasLingering(project, rest[n], cutoff, replies(round + 1 + n)(0), end) {
      assert trail[n + 1] == rest[n] && round + (n + 1) == round + 1 + n;
    }
  }

  /** The orphans of a run are those of its first round that stay, and those of the rest. */
  lemma RoundLingers(project: string, s: Store, cutoff: int, reply: nat -> Reply, end: Store)
    requires DistinctKeys(s.spans)
    requires Progressed(project, Round(project, s, cutoff, reply), end, cutoff)
    ensures Orphans(project, s, end)
            <==> RoundHasLingering(project, s, cutoff, reply(0), end)
                 || Orphans(project, Round(project, s, cutoff, reply), end)
  {
    var batch, keys := Fetch(s.spans, cutoff), Keys(project, s, cutoff);
    var confirmed, after := Confirmed(project, s, cutoff, reply), Round(project, s, cutoff, reply);
    FetchIs(s.spans, cutoff);
    SafeKeysAre(project, batch);
    SafeKeysFit(project, batch);
    OneChunk(s.objects, keys, reply);
    SurvivorsAre(project, s.spans, batch, confirmed);
    if r :| Orphan(project, s, end, r) {
      if r in after.spans {
        assert Orphan(project, after, end, r);
      } else {
        assert Deletable(project, r, confirmed) && r.payload in after.objects;
        assert Lingers(project, s, cutoff, reply(0), end, r.payload);
      }
    }
    if k :| Lingers(project, s, cutoff, reply(0), end, k) {
      var r :| r in batch && r.payload == k;
      assert Deletable(project, r, confirmed) && Doomed(project, r, batch, confirmed);
      assert Orphan(project, s, end, r);
    }
    if r :| Orphan(project, after, end, r) {
      assert Orphan(project, s, end, r);
    }
  }

  /**
   Exactly when the job orphans a payload, also when rows share objects: some answer on the way kept an object of
   the batch without naming it, and no later round deleted that object with another row.
   */
  lemma {:induction false} OrphanIffLingers(
    project: string, s: Store, cutoff: int, replies: nat -> (nat -> Reply), round: nat)
    requires DistinctKeys(s.spans)
    ensures var end := Retain(project, s, cutoff, replies, round).store;
            Orphans(project, s, end)
            <==> SomeLingers(project, Trail(project, s, cutoff, replies, round), cutoff, replies, round, end)
    decreases |s.spans|
  {
    if Fetch(s.spans, cutoff) != [] {
      var after, end := Round(project, s, cutoff, replies(round)), Retain(project, s, cutoff, replies, round).store;
      RoundProgresses(project, s, cutoff, replies(round));
      if |after.spans| < |s.spans| {
        RetentionIsSafe(project, after, cutoff, replies, round + 1);
        RoundLingers(project, s, cutoff, replies(round), end);
        OrphanIffLingers(project, after, cutoff, replies, round + 1);
        SomeLingersCons(project, s, Trail(project, after, cutoff, replies, round + 1), cutoff, replies, round, end);
      } else {
        RoundLingers(project, s, cutoff, replies(round), end);
        SomeLingersCons(project, s, [], cutoff, replies, round, end);
        assert [s] + [] == [s];
      }
    }
  }

  /** The failing answer in the concrete: one expired row, one object, one error entry without a key. */
  lemma UnnamedErrorOrphans(project: string)
    ensures var r := Row(0, 0, 0, Prefix(project));
            var s := Store([r], {Prefix(project)});
            Orphan(project, s, Retain(project, s, 1, n => i => Answered({}, {Prefix(project)}), 0).store, r)
  {
    var r := Row(0, 0, 0, Prefix(project));
    var s := Store([r], {Prefix(project)});
    var replies: nat -> (nat -> Reply) := n => i => Answered({}, {Prefix(project)});
    AscendingExpired(s.spans, 1);
    assert Fetch(s.spans, 1) == [r];
    assert r in Fetch(s.spans, 1);
    SafeKeysAre(project, Fetch(s.spans, 1));
    assert Unreported(project, s, 1, replies(0)(0));
    OrphanIffUnreported(project, s, 1, replies, 0);
    assert Trail(project, s, 1, replies, 0)[0] == s;
  }

  /** Storage that deletes all it is asked to. */
  function Willing(): nat -> (nat -> Reply) {
    n => i => Answered({}, {})
  }

  lemma WillingMoves(project: string, s: Store, cutoff: int, reply: nat -> Reply)
    requires reply(0) == Answered({}, {}) && Fetch(s.spans, cutoff) != []
    ensures Moves(project, s, cutoff, reply)
  {
    var batch := Fetch(s.spans, cutoff);
    SafeKeysAre(project, batch);
    SafeKeysFit(project, batch);
    OneChunk(s.objects, Keys(project, s, cutoff), reply);
    assert Deletable(project, batch[0], Confirmed(project, s, cutoff, reply));
  }

  lemma {:induction false} TrailFetches(
    project: string, s: Store, cutoff: int, replies: nat -> (nat -> Reply), round: nat)
    ensures forall x :: x in Trail(project, s, cutoff, replies, round) ==> Fetch(x.spans, cutoff) != []
    decreases |s.spans|
  {
    if Fetch(s.spans, cutoff) != [] {
      var after := Round(project, s, cutoff, replies(round));
      if |after.spans| < |s.spans| {
        TrailFetches(project, after, cutoff, replies, round + 1);
      }
    }
  }

  /** With willing storage every expired row goes, and every payload of one. */
  lemma WillingClears(project: string, s: Store, cutoff: int, r: Row)
    requires DistinctKeys(s.spans) && r in s.spans && Expired(r, cutoff) && HasPayload(project, r)
    ensures r.payload !in Retain(project, s, cutoff, Willing(), 0).store.objects
  {
    var trail := Trail(project, s, cutoff, Willing(), 0);
    TrailFetches(project, s, cutoff, Willing(), 0);
    forall n | 0 <= n < |trail| ensures Moves(project, trail[n], cutoff, Willing()(0 + n)) {
      WillingMoves(project, trail[n], cutoff, Willing()(0 + n));
    }
    RetentionEnds(project, s, cutoff, Willing(), 0);
    ReportedMeansNoOrphan(project, s, cutoff, Willing(), 0);
    assert !Orphan(project, s, Retain(project, s, cutoff, Willing(), 0).store, r);
  }

  /** `f"payloads/{project_id}/{span_id[:2]}/{span_id}.json.gz"`: the key names the span id and not its start. */
  function PayloadKey(project: string, spanId: string): string
    requires |spanId| >= 2
  {
    Prefix(project) + spanId[..2] + "/" + spanId + ".json.gz"
  }

  lemma PayloadKeyIsPerSpanId(project: string, a: string, b: string)
    requires |a| >= 2 && |b| >= 2
    ensures IsProjectPayloadKey(project, PayloadKey(project, a))
    ensures PayloadKey(project, a) == PayloadKey(project, b) <==> a == b
  {
    var x, y, n := PayloadKey(project, a), PayloadKey(project, b), |Prefix(project)| + 3;
    assert Prefix(project) <= x;
    assert |x| == n + |a| + 8 && |y| == n + |b| + 8;
    assert x[n..n + |a|] == a && y[n..n + |b|] == b;
  }

  /** Each row has no payload or one under the key of its span id. */
  ghost predicate KeyedById(project: string, rows: seq<Row>) {
    forall r :: r in rows ==>
      r.payload == "" || (|Text(r.id)| >= 2 && r.payload == PayloadKey(project, Text(r.id)))
  }

  /**
   A row that is not expired always stays. Its payload is safe, whatever storage answers, if and only if no
   expired row has the same span id and a payload: rows that differ only in their start share one object.
   */
  lemma LiveRowKeepsPayloadIff(project: string, s: Store, cutoff: int, r: Row)
    requires DistinctKeys(s.spans) && KeyedById(project, s.spans)
    requires forall x :: x in s.spans ==> IsUuid(x.id)
    requires r in s.spans && !Expired(r, cutoff) && r.payload != "" && r.payload in s.objects
    ensures forall replies :: r in Retain(project, s, cutoff, replies, 0).store.spans
    ensures (forall replies :: r.payload in Retain(project, s, cutoff, replies, 0).store.objects)
            <==> forall x :: x in s.spans && Expired(x, cutoff) && x.id == r.id ==> x.payload == ""
  {
    forall replies: nat -> (nat -> Reply)
      ensures Progressed(project, s, Retain(project, s, cutoff, replies, 0).store, cutoff)
    {
      RetentionIsSafe(project, s, cutoff, replies, 0);
    }
    forall x | x in s.spans && x.payload != ""
      ensures HasPayload(project, x) && (x.payload == r.payload <==> x.id == r.id)
    {
      PayloadKeyIsPerSpanId(project, Text(x.id), Text(r.id));
      TextOrder(x.id, r.id);
    }
    if x :| x in s.spans && Expired(x, cutoff) && x.id == r.id && x.payload != "" {
      WillingClears(project, s, cutoff, x);
      assert r.payload !in Retain(project, s, cutoff, Willing(), 0).store.objects;
    }
  }

  /** Exactly the expired traces without a remaining span are removed. */
  lemma {:induction false} StaleTracesRemoved(traces: seq<TraceRow>, spans: seq<Row>, cutoff: int)
    ensures forall t :: t in WithoutStale(traces, spans, cutoff) <==>
              t in traces && (t.startedAt >= cutoff || exists s :: s in spans && s.trace == t.id)
  {
    if traces != [] {
      StaleTracesRemoved(traces[..|traces| - 1], spans, cutoff);
      assert traces == traces[..|traces| - 1] + [traces[|traces| - 1]];
    }
  }
}
