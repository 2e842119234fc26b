/**
 The transactional outbox: several workers claim events, publish them one by one and mark the rows. The
 marks match on the event id alone, so their safety rests on who holds an event.

 `outbox_events` is a sequence of rows; an event is named by its position. Rows of one transaction share their
 `created_at`, which is the instant the transaction began.
 */
module Outbox {
  import opened Options

  const MAX_ATTEMPTS := 5
  const SECOND := 1_000_000

  datatype Status = Pending | Processing | Delivered | Failed

  datatype Row = Row(project: nat, status: Status, attempts: nat, availableAt: int, createdAt: int)

  predicate Eligible(r: Row, now: int, project: Option<nat>) {
    && (r.status == Pending || r.status == Failed)
    && r.attempts < MAX_ATTEMPTS
    && r.availableAt <= now
    && (project.None? || r.project == project.value)
  }

  predicate Claimable(rows: seq<Row>, i: nat, now: int, project: Option<nat>, locked: set<nat>) {
    i < |rows| && i !in locked && Eligible(rows[i], now, project)
  }

  ghost predicate Distinct(events: seq<nat>) {
    forall i, j :: 0 <= i < j < |events| ==> events[i] != events[j]
  }

  /**
   `ORDER BY created_at LIMIT :limit FOR UPDATE SKIP LOCKED`, then `UPDATE .. WHERE id IN (..) RETURNING`: at most
   `limit` claimable rows, each once, in any order. A row is left out only when the limit is reached, and then it
   is no older than any that was taken; rows of one instant tie.
   */
  ghost predicate Returns(
    events: seq<nat>, rows: seq<Row>, now: int, project: Option<nat>, limit: nat, locked: set<nat>)
  {
    && Distinct(events) && |events| <= limit
    && (forall i :: i in events ==> Claimable(rows, i, now, project, locked))
    && (forall i: nat :: Claimable(rows, i, now, project, locked) && i !in events ==>
          |events| == limit && forall e :: e in events && e < |rows| ==> rows[e].createdAt <= rows[i].createdAt)
  }

  /**
   What a claim takes, column by column: only unlocked rows that are PENDING or FAILED with fewer than five attempts,
   are available, and belong to the project if one is given; and when it leaves such a row out, it has taken
   `limit` rows, none of them created later.
   */
  lemma ClaimIs(events: seq<nat>, rows: seq<Row>, now: int, project: Option<nat>, limit: nat, locked: set<nat>)
    requires Returns(events, rows, now, project, limit, locked)
    ensures |events| <= limit && forall i, j :: 0 <= i < j < |events| ==> events[i] != events[j]
    ensures forall i :: i in events ==>
              && i < |rows| && i !in locked
              && (rows[i].status == Pending || rows[i].status == Failed)
              && rows[i].attempts < 5 && rows[i].availableAt <= now
              && (project.Some? ==> rows[i].project == project.value)
    ensures forall i: nat :: i < |rows| && i !in locked && i !in events
                             && (rows[i].status == Pending || rows[i].status == Failed)
                             && rows[i].attempts < 5 && rows[i].availableAt <= now
                             && (project.Some? ==> rows[i].project == project.value) ==>
              |events| == limit && forall e :: e in events ==> e < |rows| && rows[e].createdAt <= rows[i].createdAt
  {
    forall i: nat | i < |rows| && i !in locked && i !in events
                    && (rows[i].status == Pending || rows[i].status == Failed)
                    && rows[i].attempts < 5 && rows[i].availableAt <= now
                    && (project.Some? ==> rows[i].project == project.value)
      ensures |events| == limit && forall e :: e in events ==> e < |rows| && rows[e].createdAt <= rows[i].createdAt
    {
      assert Claimable(rows, i, now, project, locked);
    }
  }

  function Claimed(r: Row): Row {
    r.(status := Processing, attempts := r.attempts + 1)
  }

  function AfterClaim(rows: seq<Row>, chosen: seq<nat>): seq<Row> {
    seq(|rows|, i requires 0 <= i < |rows| => if i in chosen then Claimed(rows[i]) else rows[i])
  }

  function BackoffSeconds(attempts: nat): nat {
    if attempts * 10 < 300 then attempts * 10 else 300
  }

  function DeliveredRow(r: Row): Row {
    r.(status := Delivered)
  }

  function FailedRow(r: Row, now: int): Row {
    r.(status := if r.attempts >= MAX_ATTEMPTS then Failed else Pending,
       availableAt := now + BackoffSeconds(r.attempts) * SECOND)
  }

  class OutboxService {
    var rows: seq<Row>

    constructor ()
      ensures rows == []
    {
      rows := [];
    }

    method ClaimPending(now: int, project: Option<nat>, limit: nat, locked: set<nat>) returns (events: seq<nat>)
      modifies this
      ensures Returns(events, old(rows), now, project, limit, locked)
      ensures rows == AfterClaim(old(rows), events)
    {
      events := [];
      while |events| < limit
        invariant rows == old(rows) && Distinct(events) && |events| <= limit
        invariant forall i :: i in events ==> Claimable(rows, i, now, project, locked)
        invariant forall i: nat, e :: Claimable(rows, i, now, project, locked) && i !in events && e in events ==>
                    rows[e].createdAt <= rows[i].createdAt
      {
        var n := OldestLeft(events, now, project, locked);
        if n.None? {
          break;
        }
        events := AnyPlace(events, n.value);
      }
      rows := AfterClaim(rows, events);
    }

    /** One of the oldest claimable rows that are not taken yet. */
    method OldestLeft(taken: seq<nat>, now: int, project: Option<nat>, locked: set<nat>) returns (n: Option<nat>)
      ensures n.None? ==> forall i: nat :: Claimable(rows, i, now, project, locked) ==> i in taken
      ensures n.Some? ==>
                && Claimable(rows, n.value, now, project, locked) && n.value !in taken
                && forall i: nat :: Claimable(rows, i, now, project, locked) && i !in taken ==>
                     rows[n.value].createdAt <= rows[i].createdAt
    {
      n := None;
      for k := 0 to |rows|
        invariant n.None? ==> forall i: nat :: i < k && Claimable(rows, i, now, project, locked) ==> i in taken
        invariant n.Some? ==>
                    && Claimable(rows, n.value, now, project, locked) && n.value !in taken
                    && forall i: nat :: i < k && Claimable(rows, i, now, project, locked) && i !in taken ==>
                         rows[n.value].createdAt <= rows[i].createdAt
      {
        if Claimable(rows, k, now, project, locked) && k !in taken {
          if n.None? || rows[k].createdAt < rows[n.value].createdAt {
            n := Some(k);
          } else if rows[k].createdAt == rows[n.value].createdAt {
            if * {  // which of two rows of one instant comes first is the database's choice
              n := Some(k);
            }
          }
        }
      }
    }

    /** The order of the returned rows is the database's. */
    static method AnyPlace(events: seq<nat>, n: nat) returns (more: seq<nat>)
      requires Distinct(events) && n !in events
      ensures Distinct(more) && |more| == |events| + 1 && forall i :: i in more <==> i in events || i == n
    {
      var p: nat :| p <= |events|;
      more := events[..p] + [n] + events[p..];
      assert events == events[..p] + events[p..];
      forall i ensures i in more <==> i in events || i == n {
        assert i in events <==> i in events[..p] || i in events[p..];
      }
      forall i, j | 0 <= i < j < |more| ensures more[i] != more[j] {
        assert i != p ==> more[i] == events[if i < p then i else i - 1];
        assert j != p ==> more[j] == events[if j < p then j else j - 1];
      }
    }

    method MarkDelivered(i: nat)
      requires i < |rows|
      modifies this
      ensures rows == old(rows)[i := DeliveredRow(old(rows)[i])]
    {
      rows := rows[i := rows[i].(status := Delivered)];
    }

    method MarkFailed(i: nat, now: int)
      requires i < |rows|
      modifies this
      ensures rows == old(rows)[i := FailedRow(old(rows)[i], now)]
    {
      var attempts := rows[i].attempts;
      var status := if attempts >= MAX_ATTEMPTS then Failed else Pending;
      rows := rows[i := rows[i].(status := status, availableAt := now + BackoffSeconds(attempts) * SECOND)];
    }

    /**
     The delivery task when no other worker runs in between: events before the first failing publish are
     delivered, the failing one is marked, and everything claimed after it stays in PROCESSING.
     */
    method DeliverSpanOutboxEvents(now: int, project: Option<nat>, limit: nat, publishFails: nat -> bool)
      returns (raised: bool, events: seq<nat>)
      modifies this
      ensures Returns(events, old(rows), now, project, limit, {})
      ensures raised <==> exists i :: i in events && publishFails(i)
      ensures rows == AfterDelivery(old(rows), events, FirstFailure(events, publishFails), now)
    {
      events := ClaimPending(now, project, limit, {});
      EventsInRange(events, old(rows), now, project, limit, {});
      ClaimStartsDelivering(old(rows), events);
      raised := PublishEach(events, now, publishFails, old(rows));
    }

    method PublishEach(
      events: seq<nat>, now: int, publishFails: nat -> bool, ghost before: seq<Row>) returns (raised: bool)
      requires rows == Delivering(before, events, 0)
      requires forall j :: 0 <= j < |events| ==> events[j] < |before|
      requires forall i, j :: 0 <= i < j < |events| ==> events[i] != events[j]
      modifies this
      ensures raised <==> exists i :: i in events && publishFails(i)
      ensures rows == AfterDelivery(before, events, FirstFailure(events, publishFails), now)
    {
      FirstFailureIs(events, publishFails);
      for k := 0 to |events|
        invariant k <= FirstFailure(events, publishFails)
        invariant rows == Delivering(before, events, k)
      {
        DeliverStep(before, events, k);
        if publishFails(events[k]) {
          MarkFailed(events[k], now);
          return true;
        }
        MarkDelivered(events[k]);
      }
      return false;
    }
  }

  function FirstFailure(events: seq<nat>, publishFails: nat -> bool): nat {
    if events == [] then 0
    else
      var n := |events| - 1;
      var before := FirstFailure(events[..n], publishFails);
      if before < n || publishFails(events[n]) then before else n + 1
  }

  lemma {:induction false} FirstFailureIs(events: seq<nat>, publishFails: nat -> bool)
    ensures var f := FirstFailure(events, publishFails);
            && f <= |events| && (forall k :: 0 <= k < f ==> !publishFails(events[k]))
            && (f < |events| ==> publishFails(events[f]))
  {
    if events != [] {
      FirstFailureIs(events[..|events| - 1], publishFails);
    }
  }

  /** The table when the first `k` claimed events have been delivered. */
  function Delivering(rows: seq<Row>, events: seq<nat>, k: nat): seq<Row>
    requires k <= |events|
  {
    seq(|rows|, i requires 0 <= i < |rows| =>
      if i in events[..k] then DeliveredRow(Claimed(rows[i])) else if i in events then Claimed(rows[i]) else rows[i])
  }

  lemma ClaimStartsDelivering(rows: seq<Row>, events: seq<nat>)
    ensures AfterClaim(rows, events) == Delivering(rows, events, 0)
  {}

  lemma DeliverStep(rows: seq<Row>, events: seq<nat>, k: nat)
    requires k < |events| && forall j :: 0 <= j < |events| ==> events[j] < |rows|
    requires forall i, j :: 0 <= i < j < |events| ==> events[i] != events[j]
    ensures Delivering(rows, events, k)[events[k]] == Claimed(rows[events[k]])
    ensures Delivering(rows, events, k + 1)
         == Delivering(rows, events, k)[events[k] := DeliveredRow(Claimed(rows[events[k]]))]
  {
    assert events[..k + 1] == events[..k] + [events[k]];
    assert events[k] !in events[..k];
  }

  function AfterDelivery(rows: seq<Row>, events: seq<nat>, f: nat, now: int): seq<Row> {
    if f < |events| && events[f] < |rows|
    then Delivering(rows, events, f)[events[f] := FailedRow(Claimed(rows[events[f]]), now)]
    else Delivering(rows, events, |events|)
  }

  /** Ten seconds for each attempt made, at most five minutes. */
  lemma BackoffIs(attempts: nat)
    ensures BackoffSeconds(attempts) <= 300 && (attempts <= 30 ==> BackoffSeconds(attempts) == 10 * attempts)
    ensures attempts >= 30 ==> BackoffSeconds(attempts) == 300
  {}

  /**
   The table after a delivery task, column by column: events before the first failing publish are DELIVERED, the
   failing one waits for its backoff or has FAILED with five attempts, the rest of the claim is left PROCESSING.
   Each claimed event has one attempt more, and all else stays.
   */
  lemma DeliveryIs(rows: seq<Row>, events: seq<nat>, f: nat, now: int, i: nat)
    requires Distinct(events) && (forall j :: 0 <= j < |events| ==> events[j] < |rows|) && f <= |events| && i < |rows|
    ensures var after := AfterDelivery(rows, events, f, now);
            && |after| == |rows|
            && (after[i].project, after[i].createdAt) == (rows[i].project, rows[i].createdAt)
            && after[i].attempts == rows[i].attempts + (if i in events then 1 else 0)
            && (i !in events ==> after[i] == rows[i])
            && (i in events[..f] ==> after[i].status == Delivered)
            && (f < |events| && i in events[f + 1..] ==> after[i].status == Processing)
            && (f < |events| && i == events[f] ==>
                  && after[i].status == (if rows[i].attempts + 1 >= 5 then Failed else Pending)
                  && after[i].availableAt == now + BackoffSeconds(rows[i].attempts + 1) * 1_000_000)
            && ((f < |events| && i == events[f]) || after[i].availableAt == rows[i].availableAt)
  {
    if f < |events| {
      assert events == events[..f] + [events[f]] + events[f + 1..];
    } else {
      assert events[..f] == events;
    }
  }

  lemma EventsInRange(events: seq<nat>, rows: seq<Row>, now: int, project: Option<nat>, limit: nat, locked: set<nat>)
    requires Returns(events, rows, now, project, limit, locked)
    ensures forall j :: 0 <= j < |events| ==> events[j] < |rows|
  {
    forall j | 0 <= j < |events| ensures events[j] < |rows| {
      assert events[j] in events;
    }
  }

  // ---------------------------------------------------------------- several workers

  datatype Phase = Ready | Published | Errored

  /** A running delivery task: the claimed events it has not dealt with; the first one is current. */
  datatype Worker = Worker(todo: seq<nat>, phase: Phase)

  /** What happened to an event so far, and the worker that claimed it last. */
  datatype History = History(publishes: nat, successes: nat, failures: seq<int>, holder: nat)

  datatype System = System(rows: seq<Row>, now: int, workers: seq<Worker>, histories: seq<History>)

  datatype Step =
    | Insert(project: nat, createdAt: int)
    | Tick(micros: nat)
    | Claim(only: Option<nat>, limit: nat, locked: set<nat>, events: seq<nat>)   // a new task starts
    | PublishOk(w: nat)
    | PublishError(w: nat)
    | MarkDone(w: nat)
    | MarkError(w: nat)       // marks the event, then raises: the task is over
    | Die(w: nat)             // crash, or a mark that raised

  predicate Busy(sys: System, w: nat, phase: Phase) {
    w < |sys.workers| && sys.workers[w].todo != [] && sys.workers[w].phase == phase
    && sys.workers[w].todo[0] < |sys.rows| && sys.workers[w].todo[0] < |sys.histories|
  }

  ghost predicate Enabled(sys: System, step: Step) {
    match step
    case Insert(_, _) => true
    case Tick(_) => true
    case Claim(project, limit, locked, events) =>
      |sys.histories| == |sys.rows| && Returns(events, sys.rows, sys.now, project, limit, locked)
    case PublishOk(w) => Busy(sys, w, Ready)
    case PublishError(w) => Busy(sys, w, Ready)
    case MarkDone(w) => Busy(sys, w, Published)
    case MarkError(w) => Busy(sys, w, Errored)
    case Die(w) => w < |sys.workers|
  }

  function Current(sys: System, w: nat): nat
    requires w < |sys.workers| && sys.workers[w].todo != []
  {
    sys.workers[w].todo[0]
  }

  function Next(sys: System, step: Step): System
    requires Enabled(sys, step)
  {
    match step
    case Insert(project, createdAt) =>
      sys.(rows := sys.rows + [Row(project, Pending, 0, createdAt, createdAt)],
           histories := sys.histories + [History(0, 0, [], 0)])
    case Tick(micros) => sys.(now := sys.now + micros)
    case Claim(_, _, _, events) =>
      sys.(rows := AfterClaim(sys.rows, events),
           workers := sys.workers + [Worker(events, Ready)],
           histories := seq(|sys.histories|, i requires 0 <= i < |sys.histories| =>
             if i in events then sys.histories[i].(holder := |sys.workers|) else sys.histories[i]))
    case PublishOk(w) =>
      var i := Current(sys, w);
      var h := sys.histories[i];
      sys.(workers := sys.workers[w := sys.workers[w].(phase := Published)],
           histories := sys.histories[i := h.(publishes := h.publishes + 1, successes := h.successes + 1)])
    case PublishError(w) =>
      var i := Current(sys, w);
      var h := sys.histories[i];
      sys.(workers := sys.workers[w := sys.workers[w].(phase := Errored)],
           histories := sys.histories[i := h.(publishes := h.publishes + 1)])
    case MarkDone(w) =>
      var i := Current(sys, w);
      sys.(rows := sys.rows[i := DeliveredRow(sys.rows[i])],
           workers := sys.workers[w := Worker(sys.workers[w].todo[1..], Ready)])
    case MarkError(w) =>
      var i := Current(sys, w);
      var h := sys.histories[i];
      sys.(rows := sys.rows[i := FailedRow(sys.rows[i], sys.now)],
           workers := sys.workers[w := Worker([], Ready)],
           histories := sys.histories[i := h.(failures := h.failures + [sys.now])])
    case Die(w) => sys.(workers := sys.workers[w := Worker([], Ready)])
  }

  const IDLE := System([], 0, [], [])

  // ---------------------------------------------------------------- the invariant

  /** Consecutive failures are separated by the growing backoff. */
  ghost predicate Spaced(failures: seq<int>) {
    forall j :: 0 <= j < |failures| - 1 ==> failures[j + 1] >= failures[j] + 10 * (j + 1) * SECOND
  }

  ghost predicate RowOk(r: Row, h: History, now: int) {
    && r.attempts <= MAX_ATTEMPTS
    && Spaced(h.failures)
    && h.successes <= 1 && h.successes <= h.publishes <= r.attempts
    && (h.failures != [] ==> h.failures[|h.failures| - 1] <= now)
    && match r.status
       case Pending =>
         && r.attempts < MAX_ATTEMPTS && h.successes == 0 && |h.failures| == r.attempts
         && (r.attempts > 0 ==> r.availableAt == h.failures[|h.failures| - 1] + 10 * r.attempts * SECOND)
       case Processing =>
         && r.attempts == |h.failures| + 1
         && (h.failures != [] ==> now >= h.failures[|h.failures| - 1] + 10 * |h.failures| * SECOND)
       case Delivered => r.attempts == |h.failures| + 1 && h.successes == 1
       case Failed => r.attempts == MAX_ATTEMPTS == |h.failures| && h.successes == 0
  }

  /** What a worker knows about the k-th event it still has to deal with. */
  ghost predicate HeldOk(sys: System, w: nat, k: nat)
    requires w < |sys.workers| && k < |sys.workers[w].todo|
  {
    var i := sys.workers[w].todo[k];
    && i < |sys.rows| == |sys.histories|
    && sys.rows[i].status == Processing
    && sys.histories[i].holder == w
    && (if k == 0 && sys.workers[w].phase == Published then sys.histories[i].successes == 1
        else sys.histories[i].successes == 0)
    && (k > 0 || sys.workers[w].phase == Ready ==> sys.histories[i].publishes < sys.rows[i].attempts)
  }

  ghost predicate WorkerOk(sys: System, w: nat)
    requires w < |sys.workers|
  {
    && (forall j, k :: 0 <= j < k < |sys.workers[w].todo| ==> sys.workers[w].todo[j] != sys.workers[w].todo[k])
    && (forall k :: 0 <= k < |sys.workers[w].todo| ==> HeldOk(sys, w, k))
  }

  ghost predicate Inv(sys: System) {
    && |sys.histories| == |sys.rows|
    && (forall i :: 0 <= i < |sys.rows| ==> RowOk(sys.rows[i], sys.histories[i], sys.now))
    && (forall w :: 0 <= w < |sys.workers| ==> WorkerOk(sys, w))
  }

  /** Two workers never hold the same event. */
  lemma HeldDisjoint(sys: System, v: nat, w: nat, i: nat)
    requires Inv(sys) && v < |sys.workers| && w < |sys.workers|
    requires i in sys.workers[v].todo && i in sys.workers[w].todo
    ensures v == w
  {
    var j :| 0 <= j < |sys.workers[v].todo| && sys.workers[v].todo[j] == i;
    var k :| 0 <= k < |sys.workers[w].todo| && sys.workers[w].todo[k] == i;
    assert WorkerOk(sys, v) && WorkerOk(sys, w);
    assert HeldOk(sys, v, j) && HeldOk(sys, w, k);
  }

  /** A worker whose events a step does not touch stays as it was. */
  lemma UntouchedWorker(sys: System, after: System, v: nat)
    requires Inv(sys) && v < |sys.workers| && |after.workers| >= |sys.workers| && after.workers[v] == sys.workers[v]
    requires |after.rows| == |after.histories| >= |sys.rows|
    requires forall i :: i in sys.workers[v].todo && i < |sys.rows| ==>
      after.rows[i] == sys.rows[i] && after.histories[i] == sys.histories[i]
    ensures WorkerOk(after, v)
  {
    assert WorkerOk(sys, v);
    forall k | 0 <= k < |after.workers[v].todo| ensures HeldOk(after, v, k) {
      assert HeldOk(sys, v, k);
      assert sys.workers[v].todo[k] in sys.workers[v].todo;
    }
  }

  /** A step of worker `w` on its current event leaves the other workers alone. */
  lemma OthersUntouched(sys: System, after: System, w: nat)
    requires Inv(sys) && w < |sys.workers| && sys.workers[w].todo != []
    requires |after.workers| == |sys.workers| && |after.rows| == |after.histories| == |sys.rows|
    requires forall v :: 0 <= v < |sys.workers| && v != w ==> after.workers[v] == sys.workers[v]
    requires forall i :: 0 <= i < |sys.rows| && i != Current(sys, w) ==>
      after.rows[i] == sys.rows[i] && after.histories[i] == sys.histories[i]
    ensures forall v :: 0 <= v < |sys.workers| && v != w ==> WorkerOk(after, v)
  {
    forall v | 0 <= v < |sys.workers| && v != w ensures WorkerOk(after, v) {
      forall i | i in sys.workers[v].todo && i < |sys.rows|
        ensures after.rows[i] == sys.rows[i] && after.histories[i] == sys.histories[i]
      {
        if i == Current(sys, w) {
          HeldDisjoint(sys, v, w, i);
        }
      }
      UntouchedWorker(sys, after, v);
    }
  }

  lemma ClaimedRowOk(r: Row, h: History, now: int, project: Option<nat>, holder: nat)
    requires RowOk(r, h, now) && Eligible(r, now, project)
    ensures RowOk(Claimed(r), h.(holder := holder), now)
  {}

  lemma FailedRowOk(r: Row, h: History, now: int)
    requires RowOk(r, h, now) && r.status == Processing && h.successes == 0
    ensures RowOk(FailedRow(r, now), h.(failures := h.failures + [now]), now)
  {}

  lemma ClaimKeepsRow(sys: System, step: Step, i: nat)
    requires Inv(sys) && step.Claim? && Enabled(sys, step) && i < |sys.rows|
    ensures var after := Next(sys, step);
            |after.rows| == |after.histories| == |sys.rows| && RowOk(after.rows[i], after.histories[i], after.now)
  {
    assert RowOk(sys.rows[i], sys.histories[i], sys.now);
    if i in step.events {
      ClaimedRowOk(sys.rows[i], sys.histories[i], sys.now, step.only, |sys.workers|);
    }
  }

  lemma ClaimKeeps(sys: System, step: Step)
    requires Inv(sys) && step.Claim? && Enabled(sys, step)
    ensures Inv(Next(sys, step))
  {
    var after, events := Next(sys, step), step.events;
    EventsInRange(events, sys.rows, sys.now, step.only, step.limit, step.locked);
    forall i | 0 <= i < |sys.rows| ensures RowOk(after.rows[i], after.histories[i], after.now) {
      ClaimKeepsRow(sys, step, i);
    }
    forall w | 0 <= w < |after.workers| ensures WorkerOk(after, w) {
      if w < |sys.workers| {
        assert WorkerOk(sys, w);
        forall i | i in sys.workers[w].todo && i < |sys.rows| ensures i !in events {
          var k :| 0 <= k < |sys.workers[w].todo| && sys.workers[w].todo[k] == i;
          assert HeldOk(sys, w, k);
        }
        UntouchedWorker(sys, after, w);
      } else {
        forall k | 0 <= k < |events| ensures HeldOk(after, w, k) {
          assert events[k] in events;
          assert RowOk(sys.rows[events[k]], sys.histories[events[k]], sys.now);
        }
      }
    }
  }

  /** Publishing and marking are steps on the current event of one worker. */
  lemma WorkKeeps(sys: System, step: Step)
    requires Inv(sys) && Enabled(sys, step)
    requires step.PublishOk? || step.PublishError? || step.MarkDone? || step.MarkError?
    ensures Inv(Next(sys, step))
  {
    var w, after := step.w, Next(sys, step);
    var i := Current(sys, w);
    assert WorkerOk(sys, w) && HeldOk(sys, w, 0);
    OthersUntouched(sys, after, w);
    forall k | 0 <= k < |after.workers[w].todo| ensures HeldOk(after, w, k) {
      assert HeldOk(sys, w, if step.MarkDone? then k + 1 else k);
    }
    forall j | 0 <= j < |sys.rows| ensures RowOk(after.rows[j], after.histories[j], after.now) {
      assert RowOk(sys.rows[j], sys.histories[j], sys.now);
      if j == i && step.MarkError? {
        FailedRowOk(sys.rows[i], sys.histories[i], sys.now);
      }
    }
  }

  lemma NextKeepsInv(sys: System, step: Step)
    requires Inv(sys) && Enabled(sys, step)
    ensures Inv(Next(sys, step))
  {
    match step
    case Claim(_, _, _, _) => ClaimKeeps(sys, step);
    case Insert(_, _) =>
      var after := Next(sys, step);
      forall w | 0 <= w < |sys.workers| ensures WorkerOk(after, w) {
        UntouchedWorker(sys, after, w);
      }
    case Tick(_) =>
      var after := Next(sys, step);
      forall w | 0 <= w < |sys.workers| ensures WorkerOk(after, w) {
        UntouchedWorker(sys, after, w);
      }
      forall i | 0 <= i < |sys.rows| ensures RowOk(sys.rows[i], sys.histories[i], after.now) {
        assert RowOk(sys.rows[i], sys.histories[i], sys.now);
      }
    case Die(w) =>
      var after := Next(sys, step);
      forall v | 0 <= v < |sys.workers| ensures WorkerOk(after, v) {
        if v != w {
          UntouchedWorker(sys, after, v);
        }
      }
    case _ => WorkKeeps(sys, step);
  }

  // ---------------------------------------------------------------- whole runs

  ghost predicate ValidRun(sys: System, steps: seq<Step>)
    decreases |steps|
  {
    steps == [] || (Enabled(sys, steps[0]) && ValidRun(Next(sys, steps[0]), steps[1..]))
  }

  function Run(sys: System, steps: seq<Step>): System
    requires ValidRun(sys, steps)
    decreases |steps|
  {
    if steps == [] then sys else Run(Next(sys, steps[0]), steps[1..])
  }

  lemma {:induction false} RunKeepsInv(sys: System, steps: seq<Step>)
    requires Inv(sys) && ValidRun(sys, steps)
    ensures Inv(Run(sys, steps))
    decreases |steps|
  {
    if steps != [] {
      NextKeepsInv(sys, steps[0]);
      RunKeepsInv(Next(sys, steps[0]), steps[1..]);
    }
  }

  /**
   Over every run of any number of workers, crashes included: at most one publish of an event returns
   success, it is tried at most five times, PENDING means tries are left, FAILED means five failures that
   span at least 10 + 20 + 30 + 40 seconds, and no two workers hold the same event.
   */
  lemma OutboxIsSafe(steps: seq<Step>, i: nat)
    requires ValidRun(IDLE, steps) && i < |Run(IDLE, steps).rows|
    ensures var sys := Run(IDLE, steps);
            && |sys.histories| == |sys.rows| &&
            var r, h := sys.rows[i], sys.histories[i];
            && h.successes <= 1 && h.successes <= h.publishes <= r.attempts <= 5
            && (r.status == Pending ==> r.attempts < 5)
            && (r.status == Delivered ==> h.successes == 1)
            && (r.status == Failed ==> r.attempts == |h.failures| == 5 && h.failures[4] - h.failures[0] >= 100 * SECOND)
            && (forall v, w :: 0 <= v < w < |sys.workers| ==> !(i in sys.workers[v].todo && i in sys.workers[w].todo))
            && (forall w :: 0 <= w < |sys.workers| && i in sys.workers[w].todo ==> r.status == Processing)
  {
    RunKeepsInv(IDLE, steps);
    var sys := Run(IDLE, steps);
    var h := sys.histories[i];
    assert RowOk(sys.rows[i], h, sys.now);
    if sys.rows[i].status == Failed {
      FiveFailuresSpread(h.failures);
    }
    forall v, w | 0 <= v < |sys.workers| && 0 <= w < |sys.workers| && i in sys.workers[v].todo
        && i in sys.workers[w].todo
      ensures v == w && sys.rows[i].status == Processing
    {
      HeldDisjoint(sys, v, w, i);
      var k :| 0 <= k < |sys.workers[v].todo| && sys.workers[v].todo[k] == i;
      assert WorkerOk(sys, v) && HeldOk(sys, v, k);
    }
  }

  lemma FiveFailuresSpread(failures: seq<int>)
    requires Spaced(failures) && |failures| == 5
    ensures failures[4] - failures[0] >= 100 * SECOND
  {
    assert failures[0 + 1] >= failures[0] + 10 * (0 + 1) * SECOND;
    assert failures[1 + 1] >= failures[1] + 10 * (1 + 1) * SECOND;
    assert failures[2 + 1] >= failures[2] + 10 * (2 + 1) * SECOND;
    assert failures[3 + 1] >= failures[3] + 10 * (3 + 1) * SECOND;
  }

  // ---------------------------------------------------------------- the attempt budget

  function Budget(rows: seq<Row>): int {
    if rows == [] then 0 else Budget(rows[..|rows| - 1]) + MAX_ATTEMPTS - rows[|rows| - 1].attempts
  }

  lemma {:induction false} BudgetUpdate(rows: seq<Row>, i: nat, r: Row)
    requires i < |rows|
    ensures Budget(rows[i := r]) == Budget(rows) + rows[i].attempts - r.attempts
  {
    var n := |rows| - 1;
    if i < n {
      assert rows[i := r][..n] == rows[..n][i := r];
      BudgetUpdate(rows[..n], i, r);
    } else {
      assert rows[i := r][..n] == rows[..n];
    }
  }

  lemma {:induction false} ClaimsSpend(rows: seq<Row>, events: seq<nat>)
    requires Distinct(events) && forall i :: i in events ==> i < |rows|
    ensures Budget(AfterClaim(rows, events)) == Budget(rows) - |events|
  {
    if events == [] {
      assert AfterClaim(rows, events) == rows;
    } else {
      var init, last := events[..|events| - 1], events[|events| - 1];
      assert events == init + [last] && last in events && last !in init;
      assert forall i :: i in init ==> i in events;
      ClaimsSpend(rows, init);
      BudgetUpdate(AfterClaim(rows, init), last, Claimed(rows[last]));
      assert AfterClaim(rows, events) == AfterClaim(rows, init)[last := Claimed(rows[last])];
    }
  }

  /** Every claim spends one attempt of the budget for each event it takes. */
  lemma ClaimSpendsBudget(sys: System, step: Step)
    requires Inv(sys) && step.Claim? && Enabled(sys, step)
    ensures Budget(Next(sys, step).rows) == Budget(sys.rows) - |step.events|
    ensures Budget(sys.rows) >= 0
  {
    ClaimsSpend(sys.rows, step.events);
    assert Budget(sys.rows) >= 0 by {
      assert forall i :: 0 <= i < |sys.rows| ==> RowOk(sys.rows[i], sys.histories[i], sys.now);
      BudgetNonNegative(sys.rows);
    }
  }

  lemma {:induction false} BudgetNonNegative(rows: seq<Row>)
    requires forall i :: 0 <= i < |rows| ==> rows[i].attempts <= MAX_ATTEMPTS
    ensures Budget(rows) >= 0
  {
    if rows != [] {
      BudgetNonNegative(rows[..|rows| - 1]);
    }
  }

  // ---------------------------------------------------------------- events nobody holds any more

  /** In PROCESSING, but on no worker's list. */
  ghost predicate Stranded(sys: System, i: nat) {
    && i < |sys.rows| && sys.rows[i].status == Processing
    && forall w :: 0 <= w < |sys.workers| ==> i !in sys.workers[w].todo
  }

  /** A stranded event is never claimed, published or marked again. */
  lemma StepKeepsStranded(sys: System, step: Step, i: nat)
    requires Inv(sys) && Enabled(sys, step) && Stranded(sys, i)
    ensures Stranded(Next(sys, step), i) && Next(sys, step).histories[i] == sys.histories[i]
  {
    if step.Claim? {
      assert i !in step.events;
    } else if !step.Insert? && !step.Tick? {
      assert i !in sys.workers[step.w].todo;
    }
  }

  lemma {:induction false} StrandedForever(sys: System, steps: seq<Step>, i: nat)
    requires Inv(sys) && ValidRun(sys, steps) && Stranded(sys, i)
    ensures var after := Run(sys, steps);
            Stranded(after, i) && |after.histories| == |after.rows| && after.histories[i] == sys.histories[i]
    decreases |steps|
  {
    if steps != [] {
      NextKeepsInv(sys, steps[0]);
      StepKeepsStranded(sys, steps[0], i);
      StrandedForever(Next(sys, steps[0]), steps[1..], i);
    }
  }

  /**
   The step lets a worker go that still has the event to deal with: it marks a failure of an earlier one, or it
   dies, which includes a mark that raised.
   */
  predicate Strands(sys: System, step: Step, i: nat) {
    match step
    case MarkError(w) => w < |sys.workers| && sys.workers[w].todo != [] && i in sys.workers[w].todo[1..]
    case Die(w) => w < |sys.workers| && i in sys.workers[w].todo
    case _ => false
  }

  lemma HeldIs(sys: System, w: nat, i: nat)
    requires Inv(sys) && w < |sys.workers| && i in sys.workers[w].todo
    ensures i < |sys.rows| && sys.rows[i].status == Processing
    ensures i in sys.workers[w].todo[1..] ==> i != sys.workers[w].todo[0]
  {
    var k :| 0 <= k < |sys.workers[w].todo| && sys.workers[w].todo[k] == i;
    assert WorkerOk(sys, w) && HeldOk(sys, w, k);
  }

  /** An event that a worker let go of is on nobody's list. */
  lemma LettingGoStrands(sys: System, step: Step, i: nat)
    requires Inv(sys) && Enabled(sys, step) && Strands(sys, step, i)
    ensures Stranded(Next(sys, step), i)
  {
    var after, w := Next(sys, step), step.w;
    if step.MarkError? {
      assert forall x :: x in sys.workers[w].todo[1..] ==> x in sys.workers[w].todo;
    }
    HeldIs(sys, w, i);
    forall v | 0 <= v < |after.workers| ensures i !in after.workers[v].todo {
      if v != w && i in sys.workers[v].todo {
        HeldDisjoint(sys, v, w, i);
      }
    }
  }

  /** An event on some list stays on it, or it is settled, unless its worker lets go of it. */
  lemma HeldIsNotStranded(sys: System, step: Step, v: nat, i: nat)
    requires Inv(sys) && Enabled(sys, step) && v < |sys.workers| && i in sys.workers[v].todo && !Strands(sys, step, i)
    ensures !Stranded(Next(sys, step), i)
  {
    var after := Next(sys, step);
    HeldIs(sys, v, i);
    if i in after.workers[v].todo {
      assert v < |after.workers|;
    } else {
      assert sys.workers[v].todo == [sys.workers[v].todo[0]] + sys.workers[v].todo[1..];
    }
  }

  /** Which steps strand an event: exactly those with which a worker lets go of it. */
  lemma StrandedIff(sys: System, step: Step, i: nat)
    requires Inv(sys) && Enabled(sys, step)
    ensures Stranded(Next(sys, step), i) <==> Stranded(sys, i) || Strands(sys, step, i)
  {
    if Stranded(sys, i) {
      StepKeepsStranded(sys, step, i);
    } else if Strands(sys, step, i) {
      LettingGoStrands(sys, step, i);
    } else if v :| 0 <= v < |sys.workers| && i in sys.workers[v].todo {
      HeldIsNotStranded(sys, step, v, i);
    } else if step.Claim? && i in step.events {
      var after := Next(sys, step);
      assert i in after.workers[|sys.workers|].todo;
    } else {
      UnheldIsNotStranded(sys, step, i);
    }
  }

  lemma UnheldIsNotStranded(sys: System, step: Step, i: nat)
    requires Inv(sys) && Enabled(sys, step) && forall v :: 0 <= v < |sys.workers| ==> i !in sys.workers[v].todo
    requires i < |sys.rows| ==> sys.rows[i].status != Processing
    requires step.Claim? ==> i !in step.events
    ensures !Stranded(Next(sys, step), i)
  {
    if step.PublishOk? || step.PublishError? || step.MarkDone? || step.MarkError? {
      assert Current(sys, step.w) in sys.workers[step.w].todo;
    }
  }

  predicate StrandsDuring(sys: System, steps: seq<Step>, i: nat)
    requires ValidRun(sys, steps)
    decreases |steps|
  {
    steps != [] && (Strands(sys, steps[0], i) || StrandsDuring(Next(sys, steps[0]), steps[1..], i))
  }

  lemma {:induction false} RunStrandsIff(sys: System, steps: seq<Step>, i: nat)
    requires Inv(sys) && ValidRun(sys, steps)
    ensures Stranded(Run(sys, steps), i) <==> Stranded(sys, i) || StrandsDuring(sys, steps, i)
    decreases |steps|
  {
    if steps != [] {
      NextKeepsInv(sys, steps[0]);
      StrandedIff(sys, steps[0], i);
      RunStrandsIff(Next(sys, steps[0]), steps[1..], i);
    }
  }

  /**
   After any run an event is stuck in PROCESSING if and only if some worker let go of it: by marking the failure of
   an event it had claimed before, or by dying, which a mark that raises amounts to.
   */
  lemma StrandedIffLetGo(steps: seq<Step>, i: nat)
    requires ValidRun(IDLE, steps)
    ensures Stranded(Run(IDLE, steps), i) <==> StrandsDuring(IDLE, steps, i)
  {
    assert Inv(IDLE);
    RunStrandsIff(IDLE, steps, i);
  }
}
