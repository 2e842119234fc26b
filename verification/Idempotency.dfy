/**
 The ingest endpoint: reserve an idempotency key, enqueue the batch, commit or fail the key. Many requests
 run concurrently; each database transaction is one step. A request hash is represented by the hashed
 payload, that is, SHA-256 over the canonical JSON is taken to be injective.
 */
module Idempotency {
  import opened Options
  import opened SpanTable
  import opened Wire

  type BatchId = nat

  datatype Status = Pending | Committed | Failed

  datatype Response = Response(batchId: BatchId, accepted: nat)

  datatype Record = Record(hash: Payload, status: Status, result: Option<Response>)

  type Records = map<WireKey, Record>

  datatype Reservation =
    | Proceed                       // `reserve` returned None
    | Existing(response: Response)
    | HashConflict                  // 409, other request body
    | InProgress                    // 409, key is being processed

  // ---------------------------------------------------------------- the store

  function AfterReserve(records: Records, k: WireKey, hash: Payload, result: Response): (Records, Reservation) {
    if k !in records then (records[k := Record(hash, Pending, Some(result))], Proceed)
    else
      var row := records[k];
      if row.hash != hash then (records, HashConflict)
      else match row.status
        case Committed => (records, if row.result.Some? then Existing(row.result.value) else Proceed)
        case Failed => (records[k := row.(status := Pending, result := Some(result))], Proceed)
        case Pending => (records, InProgress)
  }

  /** The UPDATE matches on key and hash only; the current status is not looked at. */
  function AfterSetStatus(
    records: Records, k: WireKey, hash: Payload, status: Status, result: Option<Response>): Records
  {
    if k in records && records[k].hash == hash
    then records[k := records[k].(status := status, result := result)]
    else records
  }

  /** The UPDATE changes the record with this key and hash, whatever its status, and nothing else. */
  lemma SetStatusIs(
    records: Records, k: WireKey, hash: Payload, status: Status, result: Option<Response>, other: WireKey)
    requires other in records
    ensures var after := AfterSetStatus(records, k, hash, status, result);
            && after.Keys == records.Keys && after[other].hash == records[other].hash
            && (other == k && records[k].hash == hash ==> (after[k].status, after[k].result) == (status, result))
            && (other != k || records[other].hash != hash ==> after[other] == records[other])
  {}

  class PostgresIdempotencyStore {
    var records: Records

    constructor ()
      ensures records == map[]
    {
      records := map[];
    }

    method Reserve(k: WireKey, hash: Payload, result: Response) returns (r: Reservation)
      modifies this
      ensures (records, r) == AfterReserve(old(records), k, hash, result)
    {
      if k !in records {
        records := records[k := Record(hash, Pending, Some(result))];
        return Proceed;
      }
      var row := records[k];
      if row.hash != hash {
        return HashConflict;
      }
      if row.status == Committed {
        return if row.result.Some? then Existing(row.result.value) else Proceed;
      }
      if row.status == Failed {
        records := records[k := row.(status := Pending, result := Some(result))];
        return Proceed;
      }
      return InProgress;
    }

    method SetStatus(k: WireKey, hash: Payload, status: Status, result: Option<Response>)
      modifies this
      ensures records == AfterSetStatus(old(records), k, hash, status, result)
    {
      if k in records && records[k].hash == hash {
        records := records[k := records[k].(status := status, result := result)];
      }
    }

    method Commit(k: WireKey, hash: Payload, result: Response)
      modifies this
      ensures records == AfterSetStatus(old(records), k, hash, Committed, Some(result))
    {
      SetStatus(k, hash, Committed, Some(result));
    }

    method Fail(k: WireKey, hash: Payload)
      modifies this
      ensures records == AfterSetStatus(old(records), k, hash, Failed, None)
    {
      SetStatus(k, hash, Failed, None);
    }
  }

  // ---------------------------------------------------------------- concurrent requests

  datatype Phase =
    | Arrived
    | Holding                 // past `reserve`, before the enqueue
    | Enqueued                // accepted, the commit is still to come
    | EnqueueFailed           // the enqueue raised, the fail is still to come
    | Responded(response: Response)
    | Refused                 // 409, or the enqueue error after the key was marked failed
    | Crashed                 // left without settling: a crash, or a commit or fail that raised

  datatype Request = Request(key: Option<WireKey>, content: Payload, batchId: BatchId, phase: Phase)

  datatype Message = Message(batchId: BatchId, content: Payload)

  /** `queue` logs every message ever put on the task queue. */
  datatype Api = Api(records: Records, requests: seq<Request>, queue: seq<Message>)

  const IDLE := Api(map[], [], [])

  datatype EnqueueResult = Accepted | RaisedBefore | RaisedAfter  // an error does not tell whether the push happened

  datatype Step =
    | Arrive(key: Option<WireKey>, content: Payload, batchId: BatchId)
    | DoReserve(i: nat)
    | DoEnqueue(i: nat, result: EnqueueResult)
    | DoSettle(i: nat)        // commit or fail
    | Crash(i: nat)

  ghost predicate Enabled(api: Api, step: Step) {
    match step
    case Arrive(_, _, batchId) => forall r :: r in api.requests ==> r.batchId != batchId
    case DoReserve(i) => i < |api.requests| && api.requests[i].phase == Arrived
    case DoEnqueue(i, _) => i < |api.requests| && api.requests[i].phase == Holding
    case DoSettle(i) => i < |api.requests| && api.requests[i].phase in {Enqueued, EnqueueFailed}
    case Crash(i) => i < |api.requests|
                     && (api.requests[i].phase == Arrived || api.requests[i].phase == Holding
                         || api.requests[i].phase == Enqueued || api.requests[i].phase == EnqueueFailed)
  }

  function ResponseOf(r: Request): Response {
    Response(r.batchId, |r.content|)
  }

  function Moved(api: Api, i: nat, phase: Phase): Api
    requires i < |api.requests|
  {
    api.(requests := api.requests[i := api.requests[i].(phase := phase)])
  }

  function Next(api: Api, step: Step): Api
    requires Enabled(api, step)
  {
    match step
    case Arrive(key, content, batchId) =>
      api.(requests := api.requests + [Request(key, content, batchId, Arrived)])
    case DoReserve(i) =>
      var r := api.requests[i];
      if r.key.None? then Moved(api, i, Holding)
      else
        var (records, answer) := AfterReserve(api.records, r.key.value, r.content, ResponseOf(r));
        Moved(api.(records := records), i,
              match answer
              case Proceed => Holding
              case Existing(response) => Responded(response)
              case HashConflict => Refused
              case InProgress => Refused)
    case DoEnqueue(i, result) =>
      var r := api.requests[i];
      var pushed := if result == RaisedBefore then api.queue else api.queue + [Message(r.batchId, r.content)];
      Moved(api.(queue := pushed), i, if result == Accepted then Enqueued else EnqueueFailed)
    case DoSettle(i) =>
      var r := api.requests[i];
      var done := if r.phase == Enqueued then Responded(ResponseOf(r)) else Refused;
      if r.key.None? then Moved(api, i, done)
      else if r.phase == Enqueued
      then
        var records := AfterSetStatus(api.records, r.key.value, r.content, Committed, Some(ResponseOf(r)));
        Moved(api.(records := records), i, done)
      else Moved(api.(records := AfterSetStatus(api.records, r.key.value, r.content, Failed, None)), i, done)
    case Crash(i) => Moved(api, i, Phase.Crashed)
  }

  // ---------------------------------------------------------------- the holder invariant

  predicate Active(r: Request) {
    r.phase == Holding || r.phase == Enqueued || r.phase == EnqueueFailed
  }

  ghost predicate Holds(api: Api, r: Request) {
    && r.key.Some? && r.key.value in api.records
    && api.records[r.key.value] == Record(r.content, Pending, Some(ResponseOf(r)))
  }

  ghost predicate Settled(api: Api, r: Request)
    requires r.phase.Responded? && r.key.Some?
  {
    && r.key.value in api.records
    && api.records[r.key.value] == Record(r.content, Committed, Some(r.phase.response))
  }

  ghost predicate RequestOk(api: Api, r: Request) {
    && (r.key.Some? && Active(r) ==> Holds(api, r))
    && (r.phase == Enqueued ==> Message(r.batchId, r.content) in api.queue)
    && (r.key.Some? && r.phase.Responded? ==> Settled(api, r))
    && (r.key.None? && r.phase.Responded? ==> Message(r.phase.response.batchId, r.content) in api.queue)
  }

  ghost predicate RecordOk(api: Api, k: WireKey)
    requires k in api.records
  {
    var row := api.records[k];
    row.status == Committed ==> row.result.Some? && Message(row.result.value.batchId, row.hash) in api.queue
  }

  ghost predicate Inv(api: Api) {
    && (forall i, j :: 0 <= i < j < |api.requests| ==> api.requests[i].batchId != api.requests[j].batchId)
    && (forall r :: r in api.requests ==> RequestOk(api, r))
    && (forall k :: k in api.records ==> RecordOk(api, k))
  }

  /** Mutual exclusion: one key never has two requests between reserve and commit or fail. */
  lemma OneHolder(api: Api, i: nat, j: nat)
    requires Inv(api) && i < |api.requests| && j < |api.requests|
    requires Active(api.requests[i]) && Active(api.requests[j])
    requires api.requests[i].key.Some? && api.requests[i].key == api.requests[j].key
    ensures i == j
  {
    assert RequestOk(api, api.requests[i]) && RequestOk(api, api.requests[j]);
    assert ResponseOf(api.requests[i]) == ResponseOf(api.requests[j]);
  }

  /** What any step may do to the records, given the invariant. */
  ghost predicate RecordsEvolve(before: Records, after: Records) {
    forall k :: k in before ==>
      && k in after
      && after[k].hash == before[k].hash
      && (before[k].status == Committed ==> after[k] == before[k])
  }

  ghost predicate QueueGrows(before: Api, after: Api) {
    before.queue <= after.queue
  }

  /** A request keeps its key and body for life; only an arrival adds one. */
  lemma RequestsKeepContent(api: Api, step: Step, j: nat)
    requires Enabled(api, step) && j < |Next(api, step).requests|
    ensures var r := Next(api, step).requests[j];
            if j < |api.requests| then (r.key, r.content) == (api.requests[j].key, api.requests[j].content)
            else step.Arrive? && (r.key, r.content) == (step.key, step.content)
  {}

  lemma StepEvolves(api: Api, step: Step)
    requires Inv(api) && Enabled(api, step)
    ensures RecordsEvolve(api.records, Next(api, step).records)
    ensures QueueGrows(api, Next(api, step))
  {
    if step.DoSettle? || step.DoReserve? {
      assert RequestOk(api, api.requests[step.i]);
    }
  }

  /** A step of one request leaves what the invariant says of the others. */
  lemma OthersStayOk(api: Api, step: Step, j: nat)
    requires Inv(api) && Enabled(api, step) && j < |api.requests|
    requires step.Arrive? || step.i != j
    ensures RequestOk(Next(api, step), Next(api, step).requests[j])
  {
    var r := api.requests[j];
    var after := Next(api, step);
    assert after.requests[j] == r;
    assert RequestOk(api, r);
    StepEvolves(api, step);
    forall msg | msg in api.queue ensures msg in after.queue {
    }
    if !step.Arrive? {
      var mover := api.requests[step.i];
      assert RequestOk(api, mover);
      if r.key.Some? && Active(r) && mover.key == r.key {
        assert api.records[r.key.value].status == Pending;
        if Active(mover) {
          OneHolder(api, j, step.i);
        }
      }
    }
  }

  lemma MoverStaysOk(api: Api, step: Step)
    requires Inv(api) && Enabled(api, step) && !step.Arrive?
    ensures RequestOk(Next(api, step), Next(api, step).requests[step.i])
  {
    var r := api.requests[step.i];
    assert RequestOk(api, r);
    if r.key.Some? && r.key.value in api.records {
      assert RecordOk(api, r.key.value);
    }
  }

  lemma RecordsStayOk(api: Api, step: Step, k: WireKey)
    requires Inv(api) && Enabled(api, step) && k in Next(api, step).records
    ensures RecordOk(Next(api, step), k)
  {
    StepEvolves(api, step);
    forall msg | msg in api.queue ensures msg in Next(api, step).queue {
    }
    if !step.Arrive? {
      assert RequestOk(api, api.requests[step.i]);
    }
    if k in api.records {
      assert RecordOk(api, k);
    }
  }

  lemma NextKeepsInv(api: Api, step: Step)
    requires Inv(api) && Enabled(api, step)
    ensures Inv(Next(api, step))
  {
    var after := Next(api, step);
    forall r | r in after.requests ensures RequestOk(after, r) {
      var j :| 0 <= j < |after.requests| && after.requests[j] == r;
      if step.Arrive? && j == |api.requests| {
      } else if step.Arrive? || step.i != j {
        OthersStayOk(api, step, j);
      } else {
        MoverStaysOk(api, step);
      }
    }
    forall k | k in after.records ensures RecordOk(after, k) {
      RecordsStayOk(api, step, k);
    }
  }

  // ---------------------------------------------------------------- whole runs

  ghost predicate ValidRun(api: Api, steps: seq<Step>)
    decreases |steps|
  {
    steps == [] || (Enabled(api, steps[0]) && ValidRun(Next(api, steps[0]), steps[1..]))
  }

  function Run(api: Api, steps: seq<Step>): Api
    requires ValidRun(api, steps)
    decreases |steps|
  {
    if steps == [] then api else Run(Next(api, steps[0]), steps[1..])
  }

  /** Over any run a key keeps its request hash, and a committed record keeps its status and result. */
  lemma {:induction false} RunKeeps(api: Api, steps: seq<Step>)
    requires Inv(api) && ValidRun(api, steps)
    ensures Inv(Run(api, steps))
    ensures RecordsEvolve(api.records, Run(api, steps).records)
    decreases |steps|
  {
    if steps != [] {
      NextKeepsInv(api, steps[0]);
      StepEvolves(api, steps[0]);
      RunKeeps(Next(api, steps[0]), steps[1..]);
    }
  }

  /** The reservation of this request would be refused for another body under its key. */
  predicate Conflicts(records: Records, k: WireKey, content: Payload) {
    k in records && records[k].hash != content
  }

  lemma ConflictIsRefused(records: Records, k: WireKey, content: Payload, result: Response)
    ensures AfterReserve(records, k, content, result).1.HashConflict? <==> Conflicts(records, k, content)
  {}

  /** A body that conflicts once is refused for ever: no step changes the hash of a key. */
  lemma ConflictIsForever(api: Api, steps: seq<Step>, k: WireKey, content: Payload)
    requires Inv(api) && ValidRun(api, steps) && Conflicts(api.records, k, content)
    ensures Conflicts(Run(api, steps).records, k, content)
  {
    RunKeeps(api, steps);
  }

  /** All successful answers for one key carry the same batch id and were given to the same request body. */
  lemma SuccessesAgree(steps: seq<Step>, i: nat, j: nat)
    requires ValidRun(IDLE, steps)
    requires var requests := Run(IDLE, steps).requests;
             && i < |requests| && j < |requests|
             && requests[i].phase.Responded? && requests[j].phase.Responded?
             && requests[i].key.Some? && requests[i].key == requests[j].key
    ensures var requests := Run(IDLE, steps).requests;
            && requests[i].phase.response.batchId == requests[j].phase.response.batchId
            && requests[i].content == requests[j].content
  {
    RunKeeps(IDLE, steps);
    var api := Run(IDLE, steps);
    assert RequestOk(api, api.requests[i]) && RequestOk(api, api.requests[j]);
  }

  /** A request is answered with success only if a message with its content was enqueued under the answered id. */
  lemma SuccessMeansEnqueued(steps: seq<Step>, i: nat)
    requires ValidRun(IDLE, steps)
    requires i < |Run(IDLE, steps).requests| && Run(IDLE, steps).requests[i].phase.Responded?
    ensures var r := Run(IDLE, steps).requests[i];
            Message(r.phase.response.batchId, r.content) in Run(IDLE, steps).queue
  {
    RunKeeps(IDLE, steps);
    AnswerIsEnqueued(Run(IDLE, steps), i);
  }

  lemma AnswerIsEnqueued(api: Api, i: nat)
    requires Inv(api) && i < |api.requests| && api.requests[i].phase.Responded?
    ensures Message(api.requests[i].phase.response.batchId, api.requests[i].content) in api.queue
  {
    var r := api.requests[i];
    assert RequestOk(api, r);
    if r.key.Some? {
      assert RecordOk(api, r.key.value);
    }
  }

  /** Reserving a key that a request of the same body left FAILED lets the retry through. */
  lemma FailedKeyCanBeRetried(api: Api, i: nat)
    requires Inv(api) && Enabled(api, DoReserve(i)) && api.requests[i].key.Some?
    ensures var r := api.requests[i];
            var k := r.key.value;
            Next(api, DoReserve(i)).requests[i].phase == Holding
            <==> k !in api.records || (api.records[k].hash == r.content && api.records[k].status == Failed)
  {
    var r := api.requests[i];
    if r.key.value in api.records {
      assert RecordOk(api, r.key.value);
    }
  }

  /**
   What a reservation answers, and writes. A new key or a FAILED record of the same body goes ahead and leaves it
   PENDING with the result to be; a COMMITTED record answers with its result, and a PENDING one or another body is
   refused, all three without a write.
   */
  lemma ReservationIs(api: Api, k: WireKey, hash: Payload, result: Response)
    requires Inv(api)
    ensures var (after, answer) := AfterReserve(api.records, k, hash, result);
            && (answer.Proceed? <==>
                  k !in api.records || (api.records[k].hash == hash && api.records[k].status == Failed))
            && (forall response :: answer == Existing(response) <==>
                  k in api.records && api.records[k] == Record(hash, Committed, Some(response)))
            && (answer.InProgress? <==>
                  k in api.records && api.records[k].hash == hash && api.records[k].status == Pending)
            && (answer.HashConflict? <==> k in api.records && api.records[k].hash != hash)
            && after == if answer.Proceed? then api.records[k := Record(hash, Pending, Some(result))] else api.records
  {
    if k in api.records {
      assert RecordOk(api, k);
    }
  }

  /** The request is answered, refused or goes on as its reservation says. */
  lemma ReservingIs(api: Api, i: nat)
    requires Inv(api) && Enabled(api, DoReserve(i)) && api.requests[i].key.Some?
    ensures var r, phase := api.requests[i], Next(api, DoReserve(i)).requests[i].phase;
            var k := r.key.value;
            && (phase == Holding <==>
                  k !in api.records || (api.records[k].hash == r.content && api.records[k].status == Failed))
            && (forall response :: phase == Responded(response) <==>
                  k in api.records && api.records[k] == Record(r.content, Committed, Some(response)))
            && (phase == Refused <==>
                  k in api.records && (api.records[k].hash != r.content || api.records[k].status == Pending))
  {
    ReservationIs(api, api.requests[i].key.value, api.requests[i].content, ResponseOf(api.requests[i]));
  }

  /** Settling leaves the key COMMITTED with the answered result, or FAILED without one. */
  lemma SettlingIs(api: Api, i: nat)
    requires Inv(api) && Enabled(api, DoSettle(i)) && api.requests[i].key.Some?
    ensures var r, after := api.requests[i], Next(api, DoSettle(i));
            var result := Response(r.batchId, |r.content|);
            if r.phase == Enqueued
            then after.records == api.records[r.key.value := Record(r.content, Committed, Some(result))]
                 && after.requests[i].phase == Responded(result)
            else after.records == api.records[r.key.value := Record(r.content, Failed, None)]
                 && after.requests[i].phase == Refused
  {
    assert RequestOk(api, api.requests[i]);
  }

  /**
   A retry is answered: once a request under a key was answered with success, every later reservation of the same
   body under that key is answered with that same response, and writes nothing.
   */
  lemma SuccessIsRepeated(steps: seq<Step>, more: seq<Step>, i: nat, j: nat)
    requires ValidRun(IDLE, steps) && i < |Run(IDLE, steps).requests|
    requires Run(IDLE, steps).requests[i].phase.Responded? && Run(IDLE, steps).requests[i].key.Some?
    requires ValidRun(Run(IDLE, steps), more) && Enabled(Run(Run(IDLE, steps), more), DoReserve(j))
    requires var first, again := Run(IDLE, steps).requests[i], Run(Run(IDLE, steps), more).requests[j];
             again.key == first.key && again.content == first.content
    ensures var later := Run(Run(IDLE, steps), more);
            && Next(later, DoReserve(j)).requests[j].phase == Run(IDLE, steps).requests[i].phase
            && Next(later, DoReserve(j)).records == later.records
  {
    var api := Run(IDLE, steps);
    RunKeeps(IDLE, steps);
    RunKeeps(api, more);
    assert RequestOk(api, api.requests[i]);
  }

  /** A PENDING record nobody is working on. */
  ghost predicate Orphaned(api: Api, k: WireKey) {
    && k in api.records && api.records[k].status == Pending
    && forall r :: r in api.requests && r.key == Some(k) ==> !Active(r) && !r.phase.Responded?
  }

  /** Nothing recovers the key of a crashed holder: from then on no request for it is ever answered. */
  lemma {:induction false} OrphanedKeyStaysOrphaned(api: Api, steps: seq<Step>, k: WireKey)
    requires ValidRun(api, steps) && Orphaned(api, k)
    ensures Orphaned(Run(api, steps), k)
    ensures Run(api, steps).records[k] == api.records[k]
    decreases |steps|
  {
    if steps != [] {
      var after := Next(api, steps[0]);
      forall r | r in after.requests && r.key == Some(k) ensures !Active(r) && !r.phase.Responded? {
        var j :| 0 <= j < |after.requests| && after.requests[j] == r;
        if j < |api.requests| {
          assert api.requests[j] in api.requests;
        }
      }
      if !steps[0].Arrive? {
        assert api.requests[steps[0].i] in api.requests;
      }
      OrphanedKeyStaysOrphaned(after, steps[1..], k);
    }
  }

  /** The request whose reservation a PENDING record carries: it is still at work or it crashed. */
  ghost predicate OwnedBy(api: Api, k: WireKey, i: nat) {
    && i < |api.requests| && api.requests[i].key == Some(k) && Holds(api, api.requests[i])
    && (Active(api.requests[i]) || api.requests[i].phase == Phase.Crashed)
  }

  ghost predicate OwnerOk(api: Api, k: WireKey) {
    k in api.records && api.records[k].status == Pending ==> exists i: nat :: OwnedBy(api, k, i)
  }

  ghost predicate Owned(api: Api) {
    forall k :: k in api.records ==> OwnerOk(api, k)
  }

  lemma OwnerStaysOk(api: Api, step: Step, k: WireKey)
    requires Inv(api) && Enabled(api, step) && OwnerOk(api, k)
    ensures OwnerOk(Next(api, step), k)
  {
    var after := Next(api, step);
    if k in after.records && after.records[k].status == Pending {
      if !step.Arrive? {
        assert RequestOk(api, api.requests[step.i]);
      }
      if k in api.records && after.records[k] == api.records[k] {
        var i: nat :| OwnedBy(api, k, i);
        assert OwnedBy(after, k, i);
      } else {
        assert OwnedBy(after, k, step.i);
      }
    }
  }

  lemma StepKeepsOwned(api: Api, step: Step)
    requires Inv(api) && Enabled(api, step) && Owned(api)
    ensures Owned(Next(api, step))
  {
    forall k | k in Next(api, step).records ensures OwnerOk(Next(api, step), k) {
      OwnerStaysOk(api, step, k);
    }
  }

  /** A key is stuck if and only if the one request that reserved it last has crashed. */
  lemma OrphanedIffOwnerCrashed(api: Api, k: WireKey)
    requires Inv(api) && Owned(api)
    ensures Orphaned(api, k) <==> exists i: nat :: OwnedBy(api, k, i) && api.requests[i].phase == Phase.Crashed
    ensures forall i: nat, j: nat :: OwnedBy(api, k, i) && OwnedBy(api, k, j) ==> i == j
  {
    if Orphaned(api, k) {
      assert OwnerOk(api, k);
      var i: nat :| OwnedBy(api, k, i);
      assert api.requests[i] in api.requests;
    }
    if i: nat :| OwnedBy(api, k, i) && api.requests[i].phase == Phase.Crashed {
      forall r | r in api.requests && r.key == Some(k) ensures !Active(r) && !r.phase.Responded? {
        var j :| 0 <= j < |api.requests| && api.requests[j] == r;
        assert RequestOk(api, r);
      }
    }
  }

  /** The step is the crash of a request that is past `reserve` for this key and before its commit or fail. */
  predicate CrashesHolder(api: Api, step: Step, k: WireKey) {
    step.Crash? && step.i < |api.requests| && api.requests[step.i].key == Some(k) && Active(api.requests[step.i])
  }

  /** A crashed owner that the step passes by was one before the step. */
  lemma BystanderOrphans(api: Api, step: Step, k: WireKey, i: nat)
    requires Inv(api) && Owned(api) && Enabled(api, step)
    requires OwnedBy(Next(api, step), k, i) && Next(api, step).requests[i].phase == Phase.Crashed
    requires i < |api.requests| && (step.Arrive? || step.i != i)
    ensures Orphaned(api, k)
  {
    assert api.requests[i] == Next(api, step).requests[i];
    assert api.records[k] == Next(api, step).records[k] by {
      if !step.Arrive? {
        assert RequestOk(api, api.requests[step.i]);
      }
    }
    assert OwnedBy(api, k, i);
    OrphanedIffOwnerCrashed(api, k);
  }

  /** An owner that the step crashed was the active holder. */
  lemma MoverOrphans(api: Api, step: Step, k: WireKey, i: nat)
    requires Inv(api) && Owned(api) && Enabled(api, step) && !step.Arrive? && step.i == i
    requires OwnedBy(Next(api, step), k, i) && Next(api, step).requests[i].phase == Phase.Crashed
    ensures CrashesHolder(api, step, k)
  {
    assert step.Crash? && OwnerOk(api, k);
    var j: nat :| OwnedBy(api, k, j);
    assert api.requests[j].batchId == api.requests[i].batchId;
  }

  /** Which steps leave a key stuck: exactly the crashes of its holder, and then every later step. */
  lemma StepOrphansIff(api: Api, step: Step, k: WireKey)
    requires Inv(api) && Owned(api) && Enabled(api, step)
    ensures Orphaned(Next(api, step), k) <==> Orphaned(api, k) || CrashesHolder(api, step, k)
  {
    var after := Next(api, step);
    NextKeepsInv(api, step);
    StepKeepsOwned(api, step);
    OrphanedIffOwnerCrashed(after, k);
    if Orphaned(api, k) {
      assert ValidRun(after, []) && [step][1..] == [];
      OrphanedKeyStaysOrphaned(api, [step], k);
    }
    if CrashesHolder(api, step, k) {
      assert RequestOk(api, api.requests[step.i]);
      assert OwnedBy(after, k, step.i);
    }
    if i: nat :| OwnedBy(after, k, i) && after.requests[i].phase == Phase.Crashed {
      if step.Arrive? || step.i != i {
        BystanderOrphans(api, step, k, i);
      } else {
        MoverOrphans(api, step, k, i);
      }
    }
  }

  predicate HolderCrashes(api: Api, steps: seq<Step>, k: WireKey)
    requires ValidRun(api, steps)
    decreases |steps|
  {
    steps != [] && (CrashesHolder(api, steps[0], k) || HolderCrashes(Next(api, steps[0]), steps[1..], k))
  }

  lemma {:induction false} RunOrphansIff(api: Api, steps: seq<Step>, k: WireKey)
    requires Inv(api) && Owned(api) && ValidRun(api, steps)
    ensures Orphaned(Run(api, steps), k) <==> Orphaned(api, k) || HolderCrashes(api, steps, k)
    decreases |steps|
  {
    if steps != [] {
      StepOrphansIff(api, steps[0], k);
      NextKeepsInv(api, steps[0]);
      StepKeepsOwned(api, steps[0]);
      RunOrphansIff(Next(api, steps[0]), steps[1..], k);
    }
  }

  /**
   After any run a key is stuck if and only if some request that held it left without settling it: it crashed, or
   its commit or fail raised. Without that no key is stuck, whatever else failed or raced.
   */
  lemma OrphanedIffHolderCrashed(steps: seq<Step>, k: WireKey)
    requires ValidRun(IDLE, steps)
    ensures Orphaned(Run(IDLE, steps), k) <==> HolderCrashes(IDLE, steps, k)
  {
    RunOrphansIff(IDLE, steps, k);
  }
}
