/**
 End to end: one SDK instance, the ingest endpoint it shares with other clients, the task queue and the
 storage worker, stepping in any interleaving. HTTP answers may get lost, an enqueue may raise after it took
 effect, a queued message may be processed any number of times.
 */
module Delivery {
  import opened Options
  import opened SpanTable
  import opened Wire
  import ProcessSpan
  import StorageRuns
  import StorageSafety
  import Transport
  import T = Tracer
  import I = Idempotency

  /** `done` are the positions of the queued messages that some worker has committed at least once. */
  datatype System = System(sdk: T.Sdk, api: I.Api, store: StorageRuns.State, done: set<nat>)

  /**
   Facts that no step changes: the project of each trace, and the spans whose preparation fails for good.
   */
  datatype World = World(owner: TraceId -> ProjectId, malformed: SpanData -> bool)

  datatype Step =
    | SdkStep(sdk: T.Step)
    | ApiStep(api: I.Step)
    | ProcessMessage(n: nat, project: ProjectId, prepared: seq<Span>)
    | StoreStep(store: StorageRuns.Step)

  function SpanKey(x: SpanData): Key {
    (x.spanId, x.startedAt)
  }

  /** Preparation keeps identities and skips exactly the malformed spans; cost and payload result are free. */
  predicate Prepares(w: World, content: Content, prepared: seq<Span>) {
    if content == [] then prepared == []
    else
      var x := content[|content| - 1];
      if w.malformed(x) then Prepares(w, content[..|content| - 1], prepared)
      else
        && prepared != []
        && KeyOf(prepared[|prepared| - 1]) == SpanKey(x)
        && prepared[|prepared| - 1].trace == x.traceId
        && Prepares(w, content[..|content| - 1], prepared[..|prepared| - 1])
  }

  /** A request under the batch's key has been answered with success. */
  ghost predicate Answered(api: I.Api, b: T.FlushBatch) {
    exists r :: r in api.requests && r.key == Some(b.key) && r.phase.Responded?
  }

  ghost predicate Enabled(w: World, sys: System, step: Step) {
    match step
    case SdkStep(s) =>
      T.Enabled(sys.sdk, s) && (s == T.DoResolve(Transport.Sent) ==> Answered(sys.api, sys.sdk.inFlight.value))
    case ApiStep(s) =>
      && I.Enabled(sys.api, s)
      // a request under one of this client's keys was posted by this client
      && (s.Arrive? && s.key.Some? && s.key.value.0 == sys.sdk.buffers.client ==>
            Transport.Post(s.key.value, s.content) in sys.sdk.posted)
    case ProcessMessage(n, p, prepared) =>
      && n < |sys.api.queue|
      && Prepares(w, SpansIn(sys.api.queue[n].content), prepared)
      && StorageRuns.Enabled(w.owner, sys.store, StorageRuns.Batch(p, prepared))
    case StoreStep(s) => !s.Batch? && StorageRuns.Enabled(w.owner, sys.store, s)
  }

  function Next(w: World, sys: System, step: Step): System
    requires Enabled(w, sys, step)
  {
    match step
    case SdkStep(s) => sys.(sdk := T.Next(sys.sdk, s))
    case ApiStep(s) => sys.(api := I.Next(sys.api, s))
    case ProcessMessage(n, p, prepared) =>
      sys.(store := StorageRuns.Next(sys.store, StorageRuns.Batch(p, prepared)),
           done := if ProcessSpan.Aborts(sys.store.db, prepared) then sys.done else sys.done + {n})
    case StoreStep(s) => sys.(store := StorageRuns.Next(sys.store, s))
  }

  function Initial(maxlen: nat, client: nat): System {
    System(T.Started(maxlen, client), I.IDLE, StorageRuns.INITIAL, {})
  }

  // ---------------------------------------------------------------- invariant

  /** Requests and records under this client's keys hold what the client posted. */
  ghost predicate KeysAgree(sys: System) {
    && (forall r :: r in sys.api.requests ==> RequestPosted(sys.sdk, r))
    && (forall k :: k in sys.api.records && k.0 == sys.sdk.buffers.client ==>
          Transport.Post(k, sys.api.records[k].hash) in sys.sdk.posted)
  }

  ghost predicate RequestPosted(sdk: T.Sdk, r: I.Request) {
    r.key.Some? && r.key.value.0 == sdk.buffers.client ==> Transport.Post(r.key.value, r.content) in sdk.posted
  }

  ghost predicate InQueue(sys: System, content: Content) {
    exists msg :: msg in sys.api.queue && SpansIn(msg.content) == content
  }

  ghost predicate DeliveredQueued(sys: System) {
    forall b :: b in sys.sdk.delivered ==> InQueue(sys, b.spans)
  }

  ghost predicate Stored(w: World, store: StorageRuns.State, content: Content) {
    forall x :: x in content && !w.malformed(x) ==> HasKey(store.db.spans, SpanKey(x))
  }

  ghost predicate DoneStored(w: World, sys: System) {
    forall n :: n in sys.done ==> n < |sys.api.queue| && Stored(w, sys.store, SpansIn(sys.api.queue[n].content))
  }

  ghost predicate Inv(w: World, sys: System) {
    && T.Inv(sys.sdk) && I.Inv(sys.api) && StorageRuns.Inv(w.owner, sys.store)
    && KeysAgree(sys) && DeliveredQueued(sys) && DoneStored(w, sys)
  }

  lemma {:induction false} PreparedCovers(w: World, content: Content, prepared: seq<Span>, x: SpanData)
    requires Prepares(w, content, prepared) && x in content && !w.malformed(x)
    ensures exists s :: s in prepared && KeyOf(s) == SpanKey(x)
  {
    var last := content[|content| - 1];
    if last == x {
      assert prepared[|prepared| - 1] in prepared;
    } else if w.malformed(last) {
      PreparedCovers(w, content[..|content| - 1], prepared, x);
    } else {
      PreparedCovers(w, content[..|content| - 1], prepared[..|prepared| - 1], x);
    }
  }

  /** The span table never loses a key. */
  lemma KeysStay(st: StorageRuns.State, step: StorageRuns.Step, k: Key)
    requires HasKey(st.db.spans, k)
    ensures HasKey(StorageRuns.Next(st, step).db.spans, k)
  {
    var s :| s in st.db.spans && KeyOf(s) == k;
    assert s in StorageRuns.Next(st, step).db.spans;
  }

  lemma SdkKeepsKeys(w: World, sys: System, s: T.Step)
    requires KeysAgree(sys) && Enabled(w, sys, SdkStep(s))
    ensures KeysAgree(Next(w, sys, SdkStep(s)))
  {
    var after := T.Next(sys.sdk, s);
    assert sys.sdk.posted <= after.posted;
    forall r | r in sys.api.requests ensures RequestPosted(after, r) {
      assert RequestPosted(sys.sdk, r);
    }
  }

  lemma SdkKeepsDelivered(w: World, sys: System, s: T.Step)
    requires T.Inv(sys.sdk) && I.Inv(sys.api) && KeysAgree(sys) && DeliveredQueued(sys) && Enabled(w, sys, SdkStep(s))
    ensures DeliveredQueued(Next(w, sys, SdkStep(s)))
  {
    var after := Next(w, sys, SdkStep(s));
    forall b | b in after.sdk.delivered ensures InQueue(after, b.spans) {
      if b !in sys.sdk.delivered {
        assert b in T.Batches(sys.sdk);
        AnsweredIsQueued(sys, b);
      } else {
        assert InQueue(sys, b.spans);
      }
    }
  }

  lemma SdkKeeps(w: World, sys: System, s: T.Step)
    requires Inv(w, sys) && Enabled(w, sys, SdkStep(s))
    ensures Inv(w, Next(w, sys, SdkStep(s)))
  {
    T.NextKeepsInv(sys.sdk, s);
    SdkKeepsKeys(w, sys, s);
    SdkKeepsDelivered(w, sys, s);
  }

  lemma AnsweredIsQueued(sys: System, b: T.FlushBatch)
    requires T.KeysOk(sys.sdk) && I.Inv(sys.api) && KeysAgree(sys) && b in T.Batches(sys.sdk) && Answered(sys.api, b)
    ensures InQueue(sys, b.spans)
  {
    var r :| r in sys.api.requests && r.key == Some(b.key) && r.phase.Responded?;
    var i :| 0 <= i < |sys.api.requests| && sys.api.requests[i] == r;
    I.AnswerIsEnqueued(sys.api, i);
    assert T.DrawnFor(sys.sdk, b.key, b.spans);
    assert RequestPosted(sys.sdk, r);
    assert T.DrawnFor(sys.sdk, b.key, SpansIn(r.content));
  }

  lemma ApiKeepsRequests(w: World, sys: System, s: I.Step, j: nat)
    requires KeysAgree(sys) && Enabled(w, sys, ApiStep(s))
    requires j < |Next(w, sys, ApiStep(s)).api.requests|
    ensures RequestPosted(sys.sdk, Next(w, sys, ApiStep(s)).api.requests[j])
  {
    I.RequestsKeepContent(sys.api, s, j);
    if j < |sys.api.requests| {
      assert RequestPosted(sys.sdk, sys.api.requests[j]);
    }
  }

  lemma ApiKeepsRecords(w: World, sys: System, s: I.Step, k: WireKey)
    requires I.Inv(sys.api) && KeysAgree(sys) && Enabled(w, sys, ApiStep(s))
    requires k in Next(w, sys, ApiStep(s)).api.records && k.0 == sys.sdk.buffers.client
    ensures Transport.Post(k, Next(w, sys, ApiStep(s)).api.records[k].hash) in sys.sdk.posted
  {
    I.StepEvolves(sys.api, s);
    if k !in sys.api.records {
      assert RequestPosted(sys.sdk, sys.api.requests[s.i]);
    }
  }

  lemma ApiKeepsKeys(w: World, sys: System, s: I.Step)
    requires I.Inv(sys.api) && KeysAgree(sys) && Enabled(w, sys, ApiStep(s))
    ensures KeysAgree(Next(w, sys, ApiStep(s)))
  {
    var after := Next(w, sys, ApiStep(s));
    forall r | r in after.api.requests ensures RequestPosted(sys.sdk, r) {
      var j :| 0 <= j < |after.api.requests| && after.api.requests[j] == r;
      ApiKeepsRequests(w, sys, s, j);
    }
    forall k | k in after.api.records && k.0 == sys.sdk.buffers.client
      ensures Transport.Post(k, after.api.records[k].hash) in sys.sdk.posted
    {
      ApiKeepsRecords(w, sys, s, k);
    }
  }

  lemma QueueStays(w: World, sys: System, s: I.Step, content: Content)
    requires I.Inv(sys.api) && Enabled(w, sys, ApiStep(s)) && InQueue(sys, content)
    ensures InQueue(Next(w, sys, ApiStep(s)), content)
  {
    I.StepEvolves(sys.api, s);
    var msg :| msg in sys.api.queue && SpansIn(msg.content) == content;
    assert msg in Next(w, sys, ApiStep(s)).api.queue;
  }

  lemma ApiKeeps(w: World, sys: System, s: I.Step)
    requires Inv(w, sys) && Enabled(w, sys, ApiStep(s))
    ensures Inv(w, Next(w, sys, ApiStep(s)))
  {
    var after := Next(w, sys, ApiStep(s));
    I.NextKeepsInv(sys.api, s);
    I.StepEvolves(sys.api, s);
    ApiKeepsKeys(w, sys, s);
    forall b | b in sys.sdk.delivered ensures InQueue(after, b.spans) {
      QueueStays(w, sys, s, b.spans);
    }
  }

  lemma StoreKeeps(w: World, sys: System, s: StorageRuns.Step)
    requires Inv(w, sys) && StorageRuns.Enabled(w.owner, sys.store, s)
    ensures Inv(w, sys.(store := StorageRuns.Next(sys.store, s)))
  {
    StorageSafety.NextKeepsInv(w.owner, sys.store, s);
    forall k | HasKey(sys.store.db.spans, k) ensures HasKey(StorageRuns.Next(sys.store, s).db.spans, k) {
      KeysStay(sys.store, s, k);
    }
    assert DeliveredQueued(sys.(store := StorageRuns.Next(sys.store, s))) by {
      forall b | b in sys.sdk.delivered ensures InQueue(sys.(store := StorageRuns.Next(sys.store, s)), b.spans) {
        assert InQueue(sys, b.spans);
      }
    }
  }

  /** Committing a message stores every span of it that can be prepared. */
  lemma MessageStored(w: World, st: StorageRuns.State, content: Content, p: ProjectId, prepared: seq<Span>)
    requires Prepares(w, content, prepared)
    ensures Stored(w, StorageRuns.Committed(st, p, prepared), content)
  {
    ProcessSpan.FreshKeys(st.db.spans, prepared);
    forall x | x in content && !w.malformed(x)
      ensures HasKey(StorageRuns.Committed(st, p, prepared).db.spans, SpanKey(x))
    {
      PreparedCovers(w, content, prepared, x);
      var s :| s in prepared && KeyOf(s) == SpanKey(x);
    }
  }

  lemma ProcessKeeps(w: World, sys: System, n: nat, p: ProjectId, prepared: seq<Span>)
    requires Inv(w, sys) && Enabled(w, sys, ProcessMessage(n, p, prepared))
    ensures Inv(w, Next(w, sys, ProcessMessage(n, p, prepared)))
  {
    StoreKeeps(w, sys, StorageRuns.Batch(p, prepared));
    StorageSafety.BatchKeepsInv(w.owner, sys.store, p, prepared);
    StorageRuns.NeverAborts(w.owner, sys.store, prepared);
    MessageStored(w, sys.store, SpansIn(sys.api.queue[n].content), p, prepared);
    DoneMore(w, sys.(store := StorageRuns.Next(sys.store, StorageRuns.Batch(p, prepared))), n);
  }

  lemma DoneMore(w: World, sys: System, n: nat)
    requires Inv(w, sys) && n < |sys.api.queue| && Stored(w, sys.store, SpansIn(sys.api.queue[n].content))
    ensures Inv(w, sys.(done := sys.done + {n}))
  {
    forall b | b in sys.sdk.delivered ensures InQueue(sys.(done := sys.done + {n}), b.spans) {
      assert InQueue(sys, b.spans);
    }
  }

  lemma NextKeepsInv(w: World, sys: System, step: Step)
    requires Inv(w, sys) && Enabled(w, sys, step)
    ensures Inv(w, Next(w, sys, step))
  {
    match step
    case SdkStep(s) => SdkKeeps(w, sys, s);
    case ApiStep(s) => ApiKeeps(w, sys, s);
    case ProcessMessage(n, p, prepared) => ProcessKeeps(w, sys, n, p, prepared);
    case StoreStep(s) => StoreKeeps(w, sys, s);
  }

  // ---------------------------------------------------------------- whole runs

  ghost predicate ValidRun(w: World, sys: System, steps: seq<Step>)
    decreases |steps|
  {
    steps == [] || (Enabled(w, sys, steps[0]) && ValidRun(w, Next(w, sys, steps[0]), steps[1..]))
  }

  function Run(w: World, sys: System, steps: seq<Step>): System
    requires ValidRun(w, sys, steps)
    decreases |steps|
  {
    if steps == [] then sys else Run(w, Next(w, sys, steps[0]), steps[1..])
  }

  lemma {:induction false} RunKeepsInv(w: World, sys: System, steps: seq<Step>)
    requires Inv(w, sys) && ValidRun(w, sys, steps)
    ensures Inv(w, Run(w, sys, steps))
    decreases |steps|
  {
    if steps != [] {
      NextKeepsInv(w, sys, steps[0]);
      RunKeepsInv(w, Next(w, sys, steps[0]), steps[1..]);
    }
  }

  lemma {:induction false} ClientStays(w: World, sys: System, steps: seq<Step>)
    requires ValidRun(w, sys, steps)
    ensures Run(w, sys, steps).sdk.buffers.client == sys.sdk.buffers.client
    decreases |steps|
  {
    if steps != [] {
      ClientStays(w, Next(w, sys, steps[0]), steps[1..]);
    }
  }

  lemma InitialInv(w: World, maxlen: nat, client: nat)
    ensures Inv(w, Initial(maxlen, client))
  {
    assert StorageRuns.Inv(w.owner, StorageRuns.INITIAL) by {
      StorageSafety.ReachableInv(w.owner, []);
    }
    assert T.Inv(T.Started(maxlen, client)) by {
      T.RunKeepsInv(T.Started(maxlen, client), []);
    }
    assert I.Inv(I.IDLE);
  }

  lemma ReachableInv(w: World, maxlen: nat, client: nat, steps: seq<Step>)
    requires ValidRun(w, Initial(maxlen, client), steps)
    ensures Inv(w, Run(w, Initial(maxlen, client), steps))
    ensures Run(w, Initial(maxlen, client), steps).sdk.buffers.client == client
  {
    InitialInv(w, maxlen, client);
    RunKeepsInv(w, Initial(maxlen, client), steps);
    ClientStays(w, Initial(maxlen, client), steps);
  }

  // ---------------------------------------------------------------- conflicts

  /** The tracer's part of a run. */
  function SdkSteps(steps: seq<Step>): seq<T.Step> {
    if steps == [] then []
    else (if steps[0].SdkStep? then [steps[0].sdk] else []) + SdkSteps(steps[1..])
  }

  lemma {:induction false} SdkRun(w: World, sys: System, steps: seq<Step>)
    requires ValidRun(w, sys, steps)
    ensures T.ValidRun(sys.sdk, SdkSteps(steps)) && T.Run(sys.sdk, SdkSteps(steps)) == Run(w, sys, steps).sdk
    decreases |steps|
  {
    if steps != [] {
      SdkRun(w, Next(w, sys, steps[0]), steps[1..]);
      if steps[0].SdkStep? {
        T.RunCons(sys.sdk, steps[0].sdk, SdkSteps(steps[1..]));
      } else {
        assert [] + SdkSteps(steps[1..]) == SdkSteps(steps[1..]);
      }
    }
  }

  /** No request under one of the client's keys meets a record with another hash. */
  ghost predicate ConflictFree(sys: System) {
    forall r :: r in sys.api.requests && r.key.Some? && r.key.value.0 == sys.sdk.buffers.client ==>
      !I.Conflicts(sys.api.records, r.key.value, r.content)
  }

  lemma AgreementIsConflictFree(sys: System)
    requires KeysAgree(sys) && T.PostsAgree(sys.sdk)
    ensures ConflictFree(sys)
  {
    forall r | r in sys.api.requests && r.key.Some? && r.key.value.0 == sys.sdk.buffers.client
      ensures !I.Conflicts(sys.api.records, r.key.value, r.content)
    {
      assert RequestPosted(sys.sdk, r);
    }
  }

  /**
   The SDK's requests are never refused as a different request body, provided that no message list or metadata
   of a batch differs between two attempts to post it.
   */
  lemma SdkNeverConflicts(w: World, maxlen: nat, client: nat, steps: seq<Step>, r: I.Request)
    requires ValidRun(w, Initial(maxlen, client), steps)
    requires T.ValidRun(T.Started(maxlen, client), SdkSteps(steps))
    requires T.Steady(T.Started(maxlen, client), SdkSteps(steps))
    requires r in Run(w, Initial(maxlen, client), steps).api.requests && r.key.Some? && r.key.value.0 == client
    ensures var records := Run(w, Initial(maxlen, client), steps).api.records;
            !I.AfterReserve(records, r.key.value, r.content, I.ResponseOf(r)).1.HashConflict?
  {
    var sys := Run(w, Initial(maxlen, client), steps);
    ReachableInv(w, maxlen, client, steps);
    SdkRun(w, Initial(maxlen, client), steps);
    T.OneContentPerKeyIffSteady(maxlen, client, SdkSteps(steps));
    AgreementIsConflictFree(sys);
    I.ConflictIsRefused(sys.api.records, r.key.value, r.content, I.ResponseOf(r));
  }

  function NextBatchId(requests: seq<I.Request>): nat {
    if requests == [] then 0
    else
      var before, id := NextBatchId(requests[..|requests| - 1]), requests[|requests| - 1].batchId;
      if id < before then before else id + 1
  }

  lemma {:induction false} NextBatchIdIsFree(requests: seq<I.Request>)
    ensures forall r :: r in requests ==> r.batchId < NextBatchId(requests)
  {
    if requests != [] {
      NextBatchIdIsFree(requests[..|requests| - 1]);
      assert requests == requests[..|requests| - 1] + [requests[|requests| - 1]];
    }
  }

  ghost predicate ApiOnly(steps: seq<Step>) {
    forall step :: step in steps ==> step.ApiStep?
  }

  lemma {:induction false} ApiOnlyKeepsSdk(w: World, sys: System, steps: seq<Step>)
    requires ValidRun(w, sys, steps) && ApiOnly(steps)
    ensures Run(w, sys, steps).sdk == sys.sdk
    decreases |steps|
  {
    if steps != [] {
      assert steps[0] in steps && forall step :: step in steps[1..] ==> step in steps;
      ApiOnlyKeepsSdk(w, Next(w, sys, steps[0]), steps[1..]);
    }
  }

  lemma RunCons(w: World, sys: System, first: Step, rest: seq<Step>)
    requires Enabled(w, sys, first) && ValidRun(w, Next(w, sys, first), rest)
    ensures ValidRun(w, sys, [first] + rest) && Run(w, sys, [first] + rest) == Run(w, Next(w, sys, first), rest)
  {
    assert ([first] + rest)[1..] == rest;
  }

  function ArrivalOf(sys: System, p: Transport.Post): Step {
    ApiStep(I.Arrive(Some(p.key), p.content, NextBatchId(sys.api.requests)))
  }

  /** A post may arrive whenever the network delivers it. */
  lemma Arrives(w: World, sys: System, p: Transport.Post)
    requires p in sys.sdk.posted
    ensures Enabled(w, sys, ArrivalOf(sys, p))
    ensures var api := Next(w, sys, ArrivalOf(sys, p)).api;
            var n := |sys.api.requests|;
            && |api.requests| == n + 1 && api.records == sys.api.records
            && (api.requests[n].key, api.requests[n].content, api.requests[n].phase)
                == (Some(p.key), p.content, I.Arrived)
  {
    NextBatchIdIsFree(sys.api.requests);
  }

  lemma ArrivalConflicts(w: World, sys: System, p: Transport.Post)
    requires p in sys.sdk.posted && p.key.0 == sys.sdk.buffers.client && I.Conflicts(sys.api.records, p.key, p.content)
    ensures var more := [ArrivalOf(sys, p)];
            ValidRun(w, sys, more) && !ConflictFree(Run(w, sys, more))
  {
    Arrives(w, sys, p);
    var after := Next(w, sys, ArrivalOf(sys, p));
    RunCons(w, sys, ArrivalOf(sys, p), []);
    assert [ArrivalOf(sys, p)] + [] == [ArrivalOf(sys, p)];
    assert after.api.requests[|sys.api.requests|] in after.api.requests;
  }

  /** Two different posts under one key: let one reserve the key and the other arrive. */
  lemma DisagreementConflicts(w: World, sys: System, p: Transport.Post, q: Transport.Post)
    requires p in sys.sdk.posted && q in sys.sdk.posted && p.key == q.key && p.content != q.content
    requires p.key.0 == sys.sdk.buffers.client
    ensures exists more :: ApiOnly(more) && ValidRun(w, sys, more) && !ConflictFree(Run(w, sys, more))
  {
    if p.key in sys.api.records {
      var x := if sys.api.records[p.key].hash != p.content then p else q;
      ArrivalConflicts(w, sys, x);
      assert ApiOnly([ArrivalOf(sys, x)]);
    } else {
      var n := |sys.api.requests|;
      var arrive, reserve := ArrivalOf(sys, p), ApiStep(I.DoReserve(n));
      Arrives(w, sys, p);
      var arrived := Next(w, sys, arrive);
      var reserved := Next(w, arrived, reserve);
      assert reserved.api.records[p.key].hash == p.content;
      ArrivalConflicts(w, reserved, q);
      var more := [ArrivalOf(reserved, q)];
      RunCons(w, arrived, reserve, more);
      RunCons(w, sys, arrive, [reserve] + more);
      assert ApiOnly([arrive] + ([reserve] + more));
    }
  }

  lemma {:induction false} ApiOnlyKeepsInv(w: World, sys: System, more: seq<Step>)
    requires Inv(w, sys) && T.PostsAgree(sys.sdk) && ValidRun(w, sys, more) && ApiOnly(more)
    ensures ConflictFree(Run(w, sys, more))
  {
    RunKeepsInv(w, sys, more);
    ApiOnlyKeepsSdk(w, sys, more);
    AgreementIsConflictFree(Run(w, sys, more));
  }

  /**
   After any run: however the network and the server go on with what was posted, no request of this client is
   refused as a different body, if and only if no body of a batch differed between two attempts to post it.
   */
  lemma NoConflictIffSteady(w: World, maxlen: nat, client: nat, steps: seq<Step>)
    requires ValidRun(w, Initial(maxlen, client), steps)
    ensures T.ValidRun(T.Started(maxlen, client), SdkSteps(steps))
    ensures var sys := Run(w, Initial(maxlen, client), steps);
            T.Steady(T.Started(maxlen, client), SdkSteps(steps))
            <==> forall more :: ApiOnly(more) && ValidRun(w, sys, more) ==> ConflictFree(Run(w, sys, more))
  {
    var sys := Run(w, Initial(maxlen, client), steps);
    ReachableInv(w, maxlen, client, steps);
    SdkRun(w, Initial(maxlen, client), steps);
    T.OneContentPerKeyIffSteady(maxlen, client, SdkSteps(steps));
    if T.PostsAgree(sys.sdk) {
      forall more | ApiOnly(more) && ValidRun(w, sys, more) ensures ConflictFree(Run(w, sys, more)) {
        ApiOnlyKeepsInv(w, sys, more);
      }
    } else {
      var p, q :| p in sys.sdk.posted && q in sys.sdk.posted && p.key == q.key && p.content != q.content;
      assert T.DrawnFor(sys.sdk, p.key, SpansIn(p.content));
      DisagreementConflicts(w, sys, p, q);
    }
  }

  /** Steps of the tracer alone, none of which waits for an answer, are steps of the whole. */
  function Lifted(steps: seq<T.Step>): seq<Step> {
    if steps == [] then [] else [SdkStep(steps[0])] + Lifted(steps[1..])
  }

  lemma {:induction false} LiftedRun(w: World, sys: System, steps: seq<T.Step>)
    requires T.ValidRun(sys.sdk, steps) && T.DoResolve(Transport.Sent) !in steps
    ensures ValidRun(w, sys, Lifted(steps)) && Run(w, sys, Lifted(steps)).sdk == T.Run(sys.sdk, steps)
    decreases |steps|
  {
    if steps != [] {
      var next := sys.(sdk := T.Next(sys.sdk, steps[0]));
      LiftedRun(w, next, steps[1..]);
      RunCons(w, sys, SdkStep(steps[0]), Lifted(steps[1..]));
    }
  }

  /**
   The failing conversation, end to end: the application changes a recorded message list between two flushes of
   its batch, and some delivery of the two posts ends in a refusal.
   */
  lemma ChangedConversationConflicts(w: World, s: SpanData, client: nat)
    ensures var steps := Lifted(T.ChangedConversation(s));
            && ValidRun(w, Initial(1, client), steps)
            && var sys := Run(w, Initial(1, client), steps);
               exists more :: ApiOnly(more) && ValidRun(w, sys, more) && !ConflictFree(Run(w, sys, more))
  {
    var steps := Lifted(T.ChangedConversation(s));
    T.ChangedConversationDisagrees(s, client);
    LiftedRun(w, Initial(1, client), T.ChangedConversation(s));
    var sys := Run(w, Initial(1, client), steps);
    ReachableInv(w, 1, client, steps);
    var p, q :| p in sys.sdk.posted && q in sys.sdk.posted && p.key == q.key && p.content != q.content;
    assert T.DrawnFor(sys.sdk, p.key, SpansIn(p.content));
    DisagreementConflicts(w, sys, p, q);
  }

  /** A batch is reported as sent only after a message with exactly its spans was put on the queue. */
  lemma DeliveredMeansQueued(w: World, maxlen: nat, client: nat, steps: seq<Step>, b: T.FlushBatch)
    requires ValidRun(w, Initial(maxlen, client), steps)
    requires b in Run(w, Initial(maxlen, client), steps).sdk.delivered
    ensures InQueue(Run(w, Initial(maxlen, client), steps), b.spans)
  {
    ReachableInv(w, maxlen, client, steps);
  }

  /**
   Delivery: once every queued message has been processed, each span of each batch that the SDK saw as sent,
   unless its preparation fails for good, is stored in exactly one row, with exactly one outbox event for
   its id, whatever was retried, answered late, enqueued twice or redelivered on the way.
   */
  lemma DeliveredSpansAreStoredOnce(
    w: World, maxlen: nat, client: nat, steps: seq<Step>, b: T.FlushBatch, x: SpanData)
    requires ValidRun(w, Initial(maxlen, client), steps)
    requires var sys := Run(w, Initial(maxlen, client), steps);
             && b in sys.sdk.delivered && x in b.spans && !w.malformed(x)
             && (forall n :: 0 <= n < |sys.api.queue| ==> n in sys.done)
    ensures var db := Run(w, Initial(maxlen, client), steps).store.db;
            exists i :: 0 <= i < |db.spans| && KeyOf(db.spans[i]) == SpanKey(x)
                        && (forall j :: 0 <= j < |db.spans| && KeyOf(db.spans[j]) == SpanKey(x) ==> j == i)
                        && ProcessSpan.HasEvent(db.outbox, db.spans[i].project, x.spanId)
  {
    ReachableInv(w, maxlen, client, steps);
    DoneMeansStored(w, Run(w, Initial(maxlen, client), steps), b, x);
    StoredOnce(w, Run(w, Initial(maxlen, client), steps).store, SpanKey(x));
  }

  lemma DoneMeansStored(w: World, sys: System, b: T.FlushBatch, x: SpanData)
    requires DeliveredQueued(sys) && DoneStored(w, sys)
    requires b in sys.sdk.delivered && x in b.spans && !w.malformed(x)
    requires forall n :: 0 <= n < |sys.api.queue| ==> n in sys.done
    ensures HasKey(sys.store.db.spans, SpanKey(x))
  {
    assert InQueue(sys, b.spans);
    var msg :| msg in sys.api.queue && SpansIn(msg.content) == b.spans;
    var n :| 0 <= n < |sys.api.queue| && sys.api.queue[n] == msg;
    assert n in sys.done && Stored(w, sys.store, SpansIn(msg.content));
  }

  /** A stored identity is in one row and has its event. */
  lemma StoredOnce(w: World, st: StorageRuns.State, k: Key)
    requires StorageRuns.Inv(w.owner, st) && HasKey(st.db.spans, k)
    ensures exists i :: 0 <= i < |st.db.spans| && KeyOf(st.db.spans[i]) == k
                        && (forall j :: 0 <= j < |st.db.spans| && KeyOf(st.db.spans[j]) == k ==> j == i)
                        && ProcessSpan.HasEvent(st.db.outbox, st.db.spans[i].project, k.0)
  {
    var s :| s in st.db.spans && KeyOf(s) == k;
    var i :| 0 <= i < |st.db.spans| && st.db.spans[i] == s;
    assert KeyOf(st.db.spans[i]) == k;
  }
}
