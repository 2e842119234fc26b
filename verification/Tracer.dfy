/**
 The SDK's buffer: spans are recorded into a bounded deque, flushed in batches, and a batch that was not
 sent waits in front of the pending queue under the key it was given first.
 */
module Tracer {
  import opened Options
  import opened SpanTable
  import opened Wire
  import opened Transport

  datatype FlushBatch = FlushBatch(spans: Content, key: WireKey)

  /** The mutable part of an `LLMTracer`; `nextKey` stands for the source of random UUIDs. */
  datatype Buffers = Buffers(
    maxlen: nat, active: Content, pending: seq<FlushBatch>, pendingSpans: int,
    droppedSpans: nat, failedFlushes: nat, client: nat, nextKey: nat)

  // ---------------------------------------------------------------- the operations, on values

  /** `deque(maxlen).append`: what stays and what falls out on the left. */
  function AppendBounded(active: Content, s: SpanData, maxlen: nat): (Content, Content) {
    var all := active + [s];
    if |all| <= maxlen then (all, []) else (all[|all| - maxlen..], all[..|all| - maxlen])
  }

  function AfterRecord(b: Buffers, s: SpanData): Buffers {
    b.(active := AppendBounded(b.active, s, b.maxlen).0,
       droppedSpans := if |b.active| >= b.maxlen then b.droppedSpans + 1 else b.droppedSpans)
  }

  function AfterPop(b: Buffers): (Buffers, Option<FlushBatch>) {
    if b.pending != [] then
      (b.(pending := b.pending[1..], pendingSpans := b.pendingSpans - |b.pending[0].spans|), Some(b.pending[0]))
    else if b.active == [] then (b, None)
    else (b.(active := [], nextKey := b.nextKey + 1), Some(FlushBatch(b.active, (b.client, b.nextKey))))
  }

  function AfterPushFailed(b: Buffers, batch: FlushBatch): Buffers {
    b.(pending := [batch] + b.pending, pendingSpans := b.pendingSpans + |batch.spans|)
  }

  function AfterDiscard(b: Buffers): Buffers {
    b.(active := [], pending := [], pendingSpans := 0)
  }

  class LLMTracer {
    const maxlen: nat
    const client: nat
    const transport: HttpTransport
    var active: Content
    var pending: seq<FlushBatch>
    var pendingSpans: int
    var droppedSpans: nat
    var failedFlushes: nat
    var finalDeliveryFailures: nat
    var nextKey: nat
    var closed: bool

    constructor (maxlen: nat, client: nat, transport: HttpTransport)
      ensures Contents() == Buffers(maxlen, [], [], 0, 0, 0, client, 0)
      ensures this.transport == transport && finalDeliveryFailures == 0 && !closed
    {
      this.maxlen, this.client, this.transport := maxlen, client, transport;
      active, pending, pendingSpans := [], [], 0;
      droppedSpans, failedFlushes, finalDeliveryFailures, nextKey, closed := 0, 0, 0, 0, false;
    }

    function Contents(): Buffers
      reads this
    {
      Buffers(maxlen, active, pending, pendingSpans, droppedSpans, failedFlushes, client, nextKey)
    }

    method Record(s: SpanData)
      modifies this
      ensures Contents() == AfterRecord(old(Contents()), s)
      ensures (finalDeliveryFailures, closed) == old((finalDeliveryFailures, closed))
    {
      if |active| >= maxlen {
        droppedSpans := droppedSpans + 1;
      }
      active := active + [s];
      if |active| > maxlen {
        active := active[|active| - maxlen..];
      }
    }

    method PopNextFlushBatch() returns (batch: Option<FlushBatch>)
      modifies this
      ensures (Contents(), batch) == AfterPop(old(Contents()))
      ensures (finalDeliveryFailures, closed) == old((finalDeliveryFailures, closed))
    {
      if pending != [] {
        batch := Some(pending[0]);
        pendingSpans := pendingSpans - |pending[0].spans|;
        pending := pending[1..];
        return;
      }
      var spans := [];
      ghost var before := active;
      while active != []
        invariant spans + active == before == old(active)
        invariant pending == old(pending) == [] && unchanged(`pendingSpans, `droppedSpans, `failedFlushes, `nextKey)
        invariant (finalDeliveryFailures, closed) == old((finalDeliveryFailures, closed))
        decreases |active|
      {
        spans := spans + [active[0]];
        active := active[1..];
      }
      assert spans == before;
      if spans == [] {
        return None;
      }
      batch := Some(FlushBatch(spans, (client, nextKey)));
      nextKey := nextKey + 1;
    }

    method PushFailedBatch(batch: FlushBatch)
      modifies this
      ensures Contents() == AfterPushFailed(old(Contents()), batch)
      ensures (finalDeliveryFailures, closed) == old((finalDeliveryFailures, closed))
    {
      pending := [batch] + pending;
      pendingSpans := pendingSpans + |batch.spans|;
    }

    /** `_flush`; the application records `meanwhile` while the batch is being sent. */
    method Flush(reply: nat -> Reply, bodies: nat -> Bodies, meanwhile: Content) returns (sent: SendResult)
      modifies this, transport
      ensures (Contents(), sent) == AfterFlushWith(old(Contents()), Verdict(reply, 0).1, meanwhile)
      ensures transport.sent == old(transport.sent) + FlushPosts(old(Contents()), Verdict(reply, 0).0, bodies)
      ensures (finalDeliveryFailures, closed) == old((finalDeliveryFailures, closed))
    {
      var batch := PopNextFlushBatch();
      if batch.None? {
        return Sent;
      }
      sent := transport.SendBatch(batch.value.key, batch.value.spans, reply, bodies);
      RecordEach(meanwhile);
      if sent.NotSent? {
        failedFlushes := failedFlushes + 1;
        PushFailedBatch(batch.value);
      }
    }

    method RecordEach(spans: Content)
      modifies this
      ensures Contents() == RecordAll(old(Contents()), spans)
      ensures (finalDeliveryFailures, closed) == old((finalDeliveryFailures, closed))
    {
      for i := 0 to |spans|
        invariant Contents() == RecordAll(old(Contents()), spans[..i])
        invariant (finalDeliveryFailures, closed) == old((finalDeliveryFailures, closed))
      {
        assert spans[..i + 1][..i] == spans[..i];
        Record(spans[i]);
      }
      assert spans[..|spans|] == spans;
    }

    predicate HasBufferedSpans()
      reads this
    {
      active != [] || pendingSpans > 0
    }

    /** The counter is the number of pending spans. */
    ghost predicate Valid()
      reads this
    {
      CountsPending(Contents())
    }

    /**
     `shutdown` after the flush task is cancelled; `replies(n)` answers the n-th flush. With `flush` it sends
     until the buffers are empty, counts one final failure at the first batch that is not sent, and stays open
     when a send raises; without, it discards what is buffered.
     */
    method Shutdown(flush: bool, replies: nat -> (nat -> Reply), bodies: nat -> (nat -> Bodies)) returns (raised: bool)
      requires Valid()
      modifies this, transport
      ensures Valid()
      ensures old(closed) ==> Contents() == old(Contents())
      ensures !old(closed) && !flush ==> Contents() == AfterDiscard(old(Contents()))
      ensures old(closed) || !flush ==>
                && !raised && closed
                && transport.sent == old(transport.sent) && finalDeliveryFailures == old(finalDeliveryFailures)
      ensures !old(closed) && flush ==>
                var (b, result, posts) := FlushAll(old(Contents()), replies, bodies, 0);
                && Contents() == b && transport.sent == old(transport.sent) + posts
                && raised == result.Raised? && closed == !raised
                && finalDeliveryFailures == old(finalDeliveryFailures) + if result.NotSent? then 1 else 0
    {
      if closed {
        return false;
      }
      if flush {
        raised := FlushUntilEmpty(replies, bodies);
        if raised {
          return;
        }
      } else {
        active, pending, pendingSpans := [], [], 0;
      }
      closed := true;
      raised := false;
    }

    /** The flushing loop of `shutdown`, with nothing recorded while it runs. */
    method FlushUntilEmpty(replies: nat -> (nat -> Reply), bodies: nat -> (nat -> Bodies)) returns (raised: bool)
      requires Valid() && !closed
      modifies this, transport
      ensures Valid() && !closed
      ensures var (b, result, posts) := FlushAll(old(Contents()), replies, bodies, 0);
              && Contents() == b && transport.sent == old(transport.sent) + posts && raised == result.Raised?
              && finalDeliveryFailures == old(finalDeliveryFailures) + if result.NotSent? then 1 else 0
    {
      var n, sent := 0, Sent;
      FlushingStarts(Contents(), replies, bodies, transport.sent);
      while sent.Sent? && HasBufferedSpans()
        invariant Valid() && !closed && finalDeliveryFailures == old(finalDeliveryFailures)
        invariant Flushing(old(Contents()), Contents(), replies, bodies, n, sent, old(transport.sent), transport.sent)
        decreases sent.Sent?, Waiting(Contents())
      {
        FlushShrinks(Contents(), Verdict(replies(n), 0).1);
        FlushingStep(old(Contents()), Contents(), replies, bodies, n, old(transport.sent), transport.sent);
        sent := Flush(replies(n), bodies(n), []);
        n := n + 1;
      }
      FlushingEnds(old(Contents()), Contents(), replies, bodies, n, sent, old(transport.sent), transport.sent);
      if sent.NotSent? {
        finalDeliveryFailures := finalDeliveryFailures + 1;
      }
      raised := sent.Raised?;
    }
  }

  predicate CountsPending(b: Buffers) {
    b.pendingSpans == |SpansOf(b.pending)|
  }

  predicate HasBuffered(b: Buffers) {
    b.active != [] || b.pendingSpans > 0
  }

  /** Flushing until nothing is buffered, a send fails or one raises: the buffers, the last result and all posts. */
  function FlushAll(b: Buffers, replies: nat -> (nat -> Reply), bodies: nat -> (nat -> Bodies), n: nat)
    : (Buffers, SendResult, seq<Post>)
    decreases Waiting(b)
  {
    if !HasBuffered(b) || AfterPop(b).1.None? then (b, Sent, [])
    else
      var (attempts, verdict) := Verdict(replies(n), 0);
      var (after, sent) := AfterFlush(b, verdict);
      var posts := FlushPosts(b, attempts, bodies(n));
      if !sent.Sent? then (after, sent, posts)
      else
        var (end, result, later) := FlushAll(after, replies, bodies, n + 1);
        (end, result, posts + later)
  }

  /** After `n` flushes that were sent, flushing on from `b` is the rest of flushing from `start`. */
  ghost predicate Continues(
    start: Buffers, b: Buffers, replies: nat -> (nat -> Reply), bodies: nat -> (nat -> Bodies), n: nat,
    posted: seq<Post>)
  {
    var (end, result, later) := FlushAll(b, replies, bodies, n);
    FlushAll(start, replies, bodies, 0) == (end, result, posted + later)
  }

  /** After `n` flushes, the last of which ended as `last`. */
  ghost predicate FlushedSoFar(
    start: Buffers, b: Buffers, replies: nat -> (nat -> Reply), bodies: nat -> (nat -> Bodies), n: nat,
    last: SendResult, posted: seq<Post>)
  {
    if last.Sent? then Continues(start, b, replies, bodies, n, posted)
    else FlushAll(start, replies, bodies, 0) == (b, last, posted)
  }

  lemma FlushedAll(
    start: Buffers, b: Buffers, replies: nat -> (nat -> Reply), bodies: nat -> (nat -> Bodies), n: nat,
    last: SendResult, posted: seq<Post>)
    requires FlushedSoFar(start, b, replies, bodies, n, last, posted) && (last.Sent? ==> !HasBuffered(b))
    ensures FlushAll(start, replies, bodies, 0) == (b, last, posted)
  {
    assert posted + [] == posted;
  }

  /** The same, with everything put on the wire since the loop began. */
  ghost predicate Flushing(
    start: Buffers, b: Buffers, replies: nat -> (nat -> Reply), bodies: nat -> (nat -> Bodies), n: nat,
    last: SendResult, before: seq<Post>, now: seq<Post>)
  {
    exists posted :: now == before + posted && FlushedSoFar(start, b, replies, bodies, n, last, posted)
  }

  lemma FlushingStarts(b: Buffers, replies: nat -> (nat -> Reply), bodies: nat -> (nat -> Bodies), before: seq<Post>)
    ensures Flushing(b, b, replies, bodies, 0, Sent, before, before)
  {
    ContinuesFromStart(b, replies, bodies);
    assert before == before + [] && FlushedSoFar(b, b, replies, bodies, 0, Sent, []);
  }

  lemma FlushingStep(
    start: Buffers, b: Buffers, replies: nat -> (nat -> Reply), bodies: nat -> (nat -> Bodies), n: nat,
    before: seq<Post>, now: seq<Post>)
    requires Flushing(start, b, replies, bodies, n, Sent, before, now) && HasBuffered(b) && AfterPop(b).1.Some?
    ensures var (attempts, verdict) := Verdict(replies(n), 0);
            Flushing(start, AfterFlush(b, verdict).0, replies, bodies, n + 1, verdict, before,
                     now + FlushPosts(b, attempts, bodies(n)))
  {
    var posted :| now == before + posted && FlushedSoFar(start, b, replies, bodies, n, Sent, posted);
    var (attempts, verdict) := Verdict(replies(n), 0);
    var posts := FlushPosts(b, attempts, bodies(n));
    FlushAllStep(start, b, replies, bodies, n, posted);
    PostsRegroup(before, posted, posts);
    assert FlushedSoFar(start, AfterFlush(b, verdict).0, replies, bodies, n + 1, verdict, posted + posts);
  }

  lemma FlushingEnds(
    start: Buffers, b: Buffers, replies: nat -> (nat -> Reply), bodies: nat -> (nat -> Bodies), n: nat,
    last: SendResult, before: seq<Post>, now: seq<Post>)
    requires Flushing(start, b, replies, bodies, n, last, before, now) && (last.Sent? ==> !HasBuffered(b))
    ensures var (end, result, posts) := FlushAll(start, replies, bodies, 0);
            end == b && result == last && now == before + posts
  {
    var posted :| now == before + posted && FlushedSoFar(start, b, replies, bodies, n, last, posted);
    FlushedAll(start, b, replies, bodies, n, last, posted);
  }

  lemma ContinuesFromStart(b: Buffers, replies: nat -> (nat -> Reply), bodies: nat -> (nat -> Bodies))
    ensures Continues(b, b, replies, bodies, 0, [])
  {
    var posts := FlushAll(b, replies, bodies, 0).2;
    assert [] + posts == posts;
  }

  /** The batches still to be sent, the active buffer counting as one. */
  function Waiting(b: Buffers): nat {
    |b.pending| + (if b.active != [] then 1 else 0)
  }

  lemma FlushShrinks(b: Buffers, verdict: SendResult)
    requires HasBuffered(b) && CountsPending(b)
    ensures var after := AfterFlush(b, verdict).0;
            && CountsPending(after) && AfterPop(b).1.Some?
            && (!verdict.NotSent? ==> Waiting(after) < Waiting(b))
  {
    PopKeepsCount(b);
  }

  lemma FlushAllStep(
    start: Buffers, b: Buffers, replies: nat -> (nat -> Reply), bodies: nat -> (nat -> Bodies), n: nat,
    posted: seq<Post>)
    requires Continues(start, b, replies, bodies, n, posted) && HasBuffered(b) && AfterPop(b).1.Some?
    ensures var (attempts, verdict) := Verdict(replies(n), 0);
            var after := AfterFlush(b, verdict).0;
            FlushedSoFar(start, after, replies, bodies, n + 1, verdict, posted + FlushPosts(b, attempts, bodies(n)))
  {
    var (attempts, verdict) := Verdict(replies(n), 0);
    var later := FlushAll(AfterFlush(b, verdict).0, replies, bodies, n + 1).2;
    PostsRegroup(posted, FlushPosts(b, attempts, bodies(n)), later);
  }

  lemma PostsRegroup(a: seq<Post>, b: seq<Post>, c: seq<Post>)
    ensures a + (b + c) == a + b + c
  {}

  ghost predicate IsPosted(posts: seq<Post>, key: WireKey, spans: Content) {
    exists p :: p in posts && p.key == key && SpansIn(p.content) == spans
  }

  /** A flushing shutdown that returns with everything sent has posted every pending batch, then the active buffer. */
  lemma {:induction false} FlushAllPostsEverything(
    b: Buffers, replies: nat -> (nat -> Reply), bodies: nat -> (nat -> Bodies), n: nat)
    requires CountsPending(b) && forall batch :: batch in b.pending ==> batch.spans != []
    ensures var (end, result, posts) := FlushAll(b, replies, bodies, n);
            && (result.Sent? ==>
                  && end.active == [] && end.pending == []
                  && (forall batch :: batch in b.pending ==> IsPosted(posts, batch.key, batch.spans))
                  && (b.active != [] ==> IsPosted(posts, (b.client, b.nextKey), b.active)))
            && (result.NotSent? ==> end.pending != [])
    decreases Waiting(b)
  {
    if b.pending != [] {
      assert b.pending == b.pending[..|b.pending| - 1] + [b.pending[|b.pending| - 1]];
      assert b.pending[|b.pending| - 1] in b.pending;
    }
    if HasBuffered(b) {
      PopKeepsCount(b);
      SentMeansAnswered(replies(n));
      var (attempts, verdict) := Verdict(replies(n), 0);
      var after := AfterFlush(b, verdict).0;
      var batch := AfterPop(b).1.value;
      var posts := FlushPosts(b, attempts, bodies(n));
      RenderKeepsSpans(batch.spans, bodies(n)(0));
      assert posts[0] == Post(batch.key, Render(batch.spans, bodies(n)(0)));
      if verdict.Sent? {
        FlushAllPostsEverything(after, replies, bodies, n + 1);
        var later := FlushAll(after, replies, bodies, n + 1).2;
        assert posts[0] in posts + later;
        forall key, spans | IsPosted(later, key, spans) ensures IsPosted(posts + later, key, spans) {
          var p :| p in later && p.key == key && SpansIn(p.content) == spans;
          assert p in posts + later;
        }
      }
    }
  }

  /** Popping, and pushing back what was popped, keeps the pending counter right. */
  lemma PopKeepsCount(b: Buffers)
    requires CountsPending(b)
    ensures var (popped, batch) := AfterPop(b);
            && CountsPending(popped)
            && (batch.Some? ==> |SpansOf([batch.value] + popped.pending)| == popped.pendingSpans + |batch.value.spans|)
            && (batch.Some? ==> batch.value.spans != [] || b.pending != [])
  {
    var (popped, batch) := AfterPop(b);
    if batch.Some? {
      SpansOfConcat([batch.value], popped.pending);
      SpansOfAppend([], batch.value);
      assert [] + [batch.value] == [batch.value];
      if b.pending != [] {
        assert [batch.value] + popped.pending == b.pending;
      }
    }
  }

  function RecordAll(b: Buffers, spans: Content): Buffers {
    if spans == [] then b else AfterRecord(RecordAll(b, spans[..|spans| - 1]), spans[|spans| - 1])
  }

  /** A flush during which `meanwhile` is recorded. */
  function AfterFlushWith(b: Buffers, verdict: SendResult, meanwhile: Content): (Buffers, SendResult) {
    var (popped, batch) := AfterPop(b);
    if batch.None? then (popped, Sent)
    else
      var recorded := RecordAll(popped, meanwhile);
      if verdict.NotSent?
      then (AfterPushFailed(recorded.(failedFlushes := recorded.failedFlushes + 1), batch.value), NotSent)
      else (recorded, verdict)
  }

  function AfterFlush(b: Buffers, verdict: SendResult): (Buffers, SendResult) {
    AfterFlushWith(b, verdict, [])
  }

  function FlushPosts(b: Buffers, attempts: nat, bodies: nat -> Bodies): seq<Post> {
    var batch := AfterPop(b).1;
    if batch.None? then [] else Posts(batch.value.key, batch.value.spans, bodies, attempts)
  }

  // ---------------------------------------------------------------- subsequences

  /** `a` can be obtained from `b` by deleting elements. */
  ghost predicate Subsequence<T>(a: seq<T>, b: seq<T>) {
    a == [] ||
    (b != [] && ((a[|a| - 1] == b[|b| - 1] && Subsequence(a[..|a| - 1], b[..|b| - 1]))
                 || Subsequence(a, b[..|b| - 1])))
  }

  lemma SubsequenceAppend<T>(a: seq<T>, b: seq<T>, x: T)
    requires Subsequence(a, b)
    ensures Subsequence(a + [x], b + [x])
  {
    assert (a + [x])[..|a|] == a && (b + [x])[..|b|] == b;
  }

  /** Deleting a block of a subsequence leaves a subsequence. */
  lemma {:induction false} SubsequenceDelete<T>(a: seq<T>, m: seq<T>, c: seq<T>, b: seq<T>)
    requires Subsequence(a + m + c, b)
    ensures Subsequence(a + c, b)
    decreases |b|
  {
    var whole := a + m + c;
    if b == [] {
      assert a + c == [];
    } else if Subsequence(whole, b[..|b| - 1]) {
      SubsequenceDelete(a, m, c, b[..|b| - 1]);
    } else if c != [] && whole != [] {
      assert whole[..|whole| - 1] == a + m + c[..|c| - 1];
      SubsequenceDelete(a, m, c[..|c| - 1], b[..|b| - 1]);
      assert (a + c)[..|a + c| - 1] == a + c[..|c| - 1];
    } else if m != [] {
      assert whole[..|whole| - 1] == a + m[..|m| - 1] + [];
      assert c == [];
      SubsequenceDelete(a, m[..|m| - 1], [], b[..|b| - 1]);
    } else {
      assert whole == a + c;
    }
  }

  /** `pipe` is what is still on its way out of `recorded`, `gone` what left it another way. */
  ghost predicate Flows(pipe: Content, gone: multiset<SpanData>, recorded: Content) {
    multiset(recorded) == multiset(pipe) + gone && Subsequence(pipe, recorded)
  }

  lemma FlowAppend(pipe: Content, gone: multiset<SpanData>, recorded: Content, s: SpanData)
    requires Flows(pipe, gone, recorded)
    ensures Flows(pipe + [s], gone, recorded + [s])
  {
    SubsequenceAppend(pipe, recorded, s);
  }

  lemma FlowDelete(a: Content, m: Content, c: Content, gone: multiset<SpanData>, recorded: Content)
    requires Flows(a + m + c, gone, recorded)
    ensures Flows(a + c, gone + multiset(m), recorded)
  {
    SubsequenceDelete(a, m, c, recorded);
    assert multiset(a + m + c) == multiset(a + c) + multiset(m);
  }

  lemma Associative(a: Content, b: Content, c: Content)
    ensures a + b + c == a + (b + c)
    ensures a + [] == a && b + [] == b
  {
  }

  /** A bounded append: the evicted spans leave the pipeline, the new one joins it. */
  lemma FlowPush(front: Content, active: Content, s: SpanData, evicted: Content, kept: Content,
                 gone: multiset<SpanData>, recorded: Content)
    requires Flows(front + active, gone, recorded) && evicted + kept == active + [s]
    ensures Flows(front + kept, gone + multiset(evicted), recorded + [s])
  {
    FlowAppend(front + active, gone, recorded, s);
    Associative(front, active, [s]);
    Associative(front, evicted, kept);
    FlowDelete(front, evicted, kept, gone, recorded + [s]);
  }

  lemma FlowCut(a: Content, m: Content, gone: multiset<SpanData>, recorded: Content)
    requires Flows(a + m, gone, recorded)
    ensures Flows(a, gone + multiset(m), recorded)
  {
    Associative(a, m, []);
    FlowDelete(a, m, [], gone, recorded);
  }

  // ---------------------------------------------------------------- the machine

  /**
   The tracer with its history. At most one flush is in flight; `record` may run at any point. `lost` are
   spans whose `send_batch` raised or was cancelled, or that `shutdown(flush=False)` cleared; `drawn` lists
   for each key what it was drawn for.
   */
  datatype Sdk = Sdk(
    buffers: Buffers, inFlight: Option<FlushBatch>, recorded: Content, delivered: seq<FlushBatch>,
    dropped: Content, lost: Content, drawn: seq<Content>, posted: seq<Post>, bodies: Bodies)

  function Started(maxlen: nat, client: nat): Sdk {
    Sdk(Buffers(maxlen, [], [], 0, 0, 0, client, 0), None, [], [], [], [], [], [], map[])
  }

  datatype Step =
    | DoRecord(span: SpanData)
    | DoMutate(changes: Bodies)     // the application changes message lists or metadata it handed over
    | DoPop
    | DoPost                        // one HTTP attempt
    | DoResolve(result: SendResult)
    | DoDiscard                     // shutdown(flush=False), after the flush task was cancelled

  ghost predicate Enabled(sdk: Sdk, step: Step) {
    match step
    case DoRecord(_) => true
    case DoMutate(_) => true
    case DoPop => sdk.inFlight.None?
    case DoPost => sdk.inFlight.Some?
    case DoResolve(_) => sdk.inFlight.Some?
    case DoDiscard => sdk.inFlight.None?
  }

  function PostOf(batch: FlushBatch, bodies: Bodies): Post {
    Post(batch.key, Render(batch.spans, bodies))
  }

  function SpansOf(batches: seq<FlushBatch>): Content {
    if batches == [] then [] else SpansOf(batches[..|batches| - 1]) + batches[|batches| - 1].spans
  }

  function Next(sdk: Sdk, step: Step): Sdk
    requires Enabled(sdk, step)
  {
    match step
    case DoRecord(s) =>
      sdk.(buffers := AfterRecord(sdk.buffers, s), recorded := sdk.recorded + [s],
           dropped := sdk.dropped + AppendBounded(sdk.buffers.active, s, sdk.buffers.maxlen).1)
    case DoMutate(changes) => sdk.(bodies := sdk.bodies + changes)
    case DoPop =>
      var (b, batch) := AfterPop(sdk.buffers);
      sdk.(buffers := b, inFlight := batch,
           drawn := if b.nextKey > sdk.buffers.nextKey then sdk.drawn + [sdk.buffers.active] else sdk.drawn)
    case DoPost => sdk.(posted := sdk.posted + [PostOf(sdk.inFlight.value, sdk.bodies)])
    case DoResolve(Sent) => sdk.(inFlight := None, delivered := sdk.delivered + [sdk.inFlight.value])
    case DoResolve(NotSent) =>
      sdk.(inFlight := None,
           buffers := AfterPushFailed(sdk.buffers.(failedFlushes := sdk.buffers.failedFlushes + 1), sdk.inFlight.value))
    case DoResolve(Raised) => sdk.(inFlight := None, lost := sdk.lost + sdk.inFlight.value.spans)
    case DoDiscard =>
      sdk.(buffers := AfterDiscard(sdk.buffers), lost := sdk.lost + (SpansOf(sdk.buffers.pending) + sdk.buffers.active))
  }

  /** The batches in the order in which they leave: delivered, in flight, pending. */
  function Batches(sdk: Sdk): seq<FlushBatch> {
    sdk.delivered + (if sdk.inFlight.Some? then [sdk.inFlight.value] else []) + sdk.buffers.pending
  }

  function Gone(sdk: Sdk): multiset<SpanData> {
    multiset(sdk.dropped) + multiset(sdk.lost)
  }

  /** Every recorded span, with multiplicity, is in exactly one place, and the pipeline keeps the recording order. */
  ghost predicate Conserved(sdk: Sdk) {
    Flows(SpansOf(Batches(sdk)) + sdk.buffers.active, Gone(sdk), sdk.recorded)
  }

  ghost predicate Counted(sdk: Sdk) {
    && sdk.buffers.pendingSpans == |SpansOf(sdk.buffers.pending)|
    && sdk.buffers.droppedSpans == |sdk.dropped|
    && |sdk.buffers.active| <= sdk.buffers.maxlen
    && |sdk.buffers.pending| + (if sdk.inFlight.Some? then 1 else 0) <= 1
  }

  ghost predicate DrawnFor(sdk: Sdk, key: WireKey, content: Content) {
    key.0 == sdk.buffers.client && key.1 < |sdk.drawn| && sdk.drawn[key.1] == content
  }

  /** Keys are drawn in ascending order and each stands for one content, in the buffers and on the wire. */
  ghost predicate KeysOk(sdk: Sdk) {
    && |sdk.drawn| == sdk.buffers.nextKey
    && (forall p :: p in sdk.posted ==> DrawnFor(sdk, p.key, SpansIn(p.content)))
    && (forall b :: b in Batches(sdk) ==> DrawnFor(sdk, b.key, b.spans))
    && (forall i, j :: 0 <= i < j < |Batches(sdk)| ==> Batches(sdk)[i].key.1 < Batches(sdk)[j].key.1)
  }

  ghost predicate Inv(sdk: Sdk) {
    Conserved(sdk) && Counted(sdk) && KeysOk(sdk)
  }

  lemma SpansOfAppend(batches: seq<FlushBatch>, b: FlushBatch)
    ensures SpansOf(batches + [b]) == SpansOf(batches) + b.spans
  {
    assert (batches + [b])[..|batches|] == batches;
  }

  /** Appending evicts exactly what does not fit: nothing while there is room, one span once the deque is full. */
  lemma AppendBoundedSplits(active: Content, s: SpanData, maxlen: nat)
    requires |active| <= maxlen
    ensures var (kept, evicted) := AppendBounded(active, s, maxlen);
            evicted + kept == active + [s] && |kept| <= maxlen && |evicted| == if |active| >= maxlen then 1 else 0
  {
  }

  lemma RecordConserves(sdk: Sdk, s: SpanData)
    requires Conserved(sdk) && |sdk.buffers.active| <= sdk.buffers.maxlen
    ensures Conserved(Next(sdk, DoRecord(s))) && Batches(Next(sdk, DoRecord(s))) == Batches(sdk)
  {
    var after := Next(sdk, DoRecord(s));
    var (kept, evicted) := AppendBounded(sdk.buffers.active, s, sdk.buffers.maxlen);
    AppendBoundedSplits(sdk.buffers.active, s, sdk.buffers.maxlen);
    assert Batches(after) == Batches(sdk);
    FlowPush(SpansOf(Batches(sdk)), sdk.buffers.active, s, evicted, kept, Gone(sdk), sdk.recorded);
    assert Gone(after) == Gone(sdk) + multiset(evicted);
  }

  lemma RecordKeeps(sdk: Sdk, s: SpanData)
    requires Inv(sdk)
    ensures Inv(Next(sdk, DoRecord(s)))
  {
    RecordConserves(sdk, s);
    AppendBoundedSplits(sdk.buffers.active, s, sdk.buffers.maxlen);
    KeysShrink(sdk, Next(sdk, DoRecord(s)));
  }

  /** A step that only moves batches between the places they are kept in. */
  lemma SameBatchesKeep(sdk: Sdk, after: Sdk)
    requires Conserved(sdk) && KeysOk(sdk) && Batches(after) == Batches(sdk)
    requires after.buffers.active == sdk.buffers.active && after.recorded == sdk.recorded
    requires after.dropped == sdk.dropped && after.lost == sdk.lost && after.drawn == sdk.drawn
             && after.posted == sdk.posted
    requires after.buffers.client == sdk.buffers.client && after.buffers.nextKey == sdk.buffers.nextKey
    ensures Conserved(after) && KeysOk(after)
  {
    assert forall key, content :: DrawnFor(after, key, content) <==> DrawnFor(sdk, key, content);
  }

  /** Taking the pending batch moves it from the queue to the flight. */
  lemma PopPendingKeeps(sdk: Sdk)
    requires Inv(sdk) && sdk.inFlight.None? && sdk.buffers.pending != []
    ensures Inv(Next(sdk, DoPop))
  {
    assert sdk.buffers.pending == [sdk.buffers.pending[0]];
    SpansOfAppend([], sdk.buffers.pending[0]);
    SameBatchesKeep(sdk, Next(sdk, DoPop));
  }

  /** Otherwise the whole active buffer becomes a new batch under a new key. */
  lemma PopActiveKeeps(sdk: Sdk)
    requires Inv(sdk) && sdk.inFlight.None? && sdk.buffers.pending == [] && sdk.buffers.active != []
    ensures Inv(Next(sdk, DoPop))
  {
    var after := Next(sdk, DoPop);
    var batch := after.inFlight.value;
    assert Batches(after) == Batches(sdk) + [batch];
    SpansOfAppend(Batches(sdk), batch);
    assert SpansOf(Batches(after)) + [] == SpansOf(Batches(sdk)) + sdk.buffers.active;
    KeysGrow(sdk, after, batch);
  }

  lemma PopKeeps(sdk: Sdk)
    requires Inv(sdk) && sdk.inFlight.None?
    ensures Inv(Next(sdk, DoPop))
  {
    if sdk.buffers.pending != [] {
      PopPendingKeeps(sdk);
    } else if sdk.buffers.active != [] {
      PopActiveKeeps(sdk);
    } else {
      SameBatchesKeep(sdk, Next(sdk, DoPop));
    }
  }

  lemma KeysGrow(sdk: Sdk, after: Sdk, batch: FlushBatch)
    requires KeysOk(sdk) && Batches(after) == Batches(sdk) + [batch]
    requires after.posted == sdk.posted && after.drawn == sdk.drawn + [batch.spans]
    requires after.buffers.client == sdk.buffers.client == batch.key.0
    requires batch.key.1 == sdk.buffers.nextKey == after.buffers.nextKey - 1
    ensures KeysOk(after)
  {
    forall p | p in after.posted ensures DrawnFor(after, p.key, SpansIn(p.content)) {
      assert DrawnFor(sdk, p.key, SpansIn(p.content));
    }
    forall b | b in Batches(sdk) ensures DrawnFor(after, b.key, b.spans) {
      assert DrawnFor(sdk, b.key, b.spans);
    }
    forall i | 0 <= i < |Batches(sdk)| ensures Batches(sdk)[i].key.1 < batch.key.1 {
      assert Batches(sdk)[i] in Batches(sdk);
      assert DrawnFor(sdk, Batches(sdk)[i].key, Batches(sdk)[i].spans);
    }
  }

  /** Dropping batches or adding posts of known batches keeps the keys in order. */
  lemma KeysShrink(sdk: Sdk, after: Sdk)
    requires KeysOk(sdk) && Batches(after) <= Batches(sdk)
    requires after.drawn == sdk.drawn && after.buffers.client == sdk.buffers.client
    requires after.buffers.nextKey == sdk.buffers.nextKey
    requires forall p :: p in after.posted ==> p in sdk.posted || FlushBatch(SpansIn(p.content), p.key) in Batches(sdk)
    ensures KeysOk(after)
  {
    forall p | p in after.posted ensures DrawnFor(after, p.key, SpansIn(p.content)) {
      if p !in sdk.posted {
        var b := FlushBatch(SpansIn(p.content), p.key);
        assert DrawnFor(sdk, b.key, b.spans);
      } else {
        assert DrawnFor(sdk, p.key, SpansIn(p.content));
      }
    }
    forall b | b in Batches(after) ensures DrawnFor(after, b.key, b.spans) {
      assert b in Batches(sdk);
      assert DrawnFor(sdk, b.key, b.spans);
    }
  }

  lemma ResolveKeeps(sdk: Sdk, result: SendResult)
    requires Inv(sdk) && sdk.inFlight.Some?
    ensures Inv(Next(sdk, DoResolve(result)))
  {
    var after := Next(sdk, DoResolve(result));
    var batch := sdk.inFlight.value;
    assert sdk.buffers.pending == [];
    assert Batches(sdk) == sdk.delivered + [batch];
    KeysShrink(sdk, after) by {
      assert Batches(after) == if result.Raised? then sdk.delivered else Batches(sdk);
    }
    if result.Raised? {
      SpansOfAppend(sdk.delivered, batch);
      FlowDelete(SpansOf(sdk.delivered), batch.spans, sdk.buffers.active, Gone(sdk), sdk.recorded);
      assert Gone(after) == Gone(sdk) + multiset(batch.spans);
      assert Batches(after) == sdk.delivered;
    } else {
      SpansOfAppend([], batch);
      assert after.buffers.pending == if result.NotSent? then [batch] else [];
      assert Batches(after) == Batches(sdk);
    }
  }

  lemma DiscardKeeps(sdk: Sdk)
    requires Inv(sdk) && sdk.inFlight.None?
    ensures Inv(Next(sdk, DoDiscard))
  {
    var after := Next(sdk, DoDiscard);
    var cleared := SpansOf(sdk.buffers.pending) + sdk.buffers.active;
    assert Batches(sdk) == sdk.delivered + sdk.buffers.pending && Batches(after) == sdk.delivered;
    SpansOfConcat(sdk.delivered, sdk.buffers.pending);
    Associative(SpansOf(sdk.delivered), SpansOf(sdk.buffers.pending), sdk.buffers.active);
    FlowCut(SpansOf(sdk.delivered), cleared, Gone(sdk), sdk.recorded);
    assert Gone(after) == Gone(sdk) + multiset(cleared);
    KeysShrink(sdk, after);
  }

  lemma NextKeepsInv(sdk: Sdk, step: Step)
    requires Inv(sdk) && Enabled(sdk, step)
    ensures Inv(Next(sdk, step))
  {
    match step
    case DoRecord(s) => RecordKeeps(sdk, s);
    case DoMutate(_) => SameBatchesKeep(sdk, Next(sdk, step));
    case DoPop => PopKeeps(sdk);
    case DoPost =>
      assert Batches(Next(sdk, step)) == Batches(sdk);
      assert sdk.inFlight.value in Batches(sdk);
      RenderKeepsSpans(sdk.inFlight.value.spans, sdk.bodies);
      KeysShrink(sdk, Next(sdk, step));
    case DoResolve(result) => ResolveKeeps(sdk, result);
    case DoDiscard => DiscardKeeps(sdk);
  }

  ghost predicate ValidRun(sdk: Sdk, steps: seq<Step>)
    decreases |steps|
  {
    steps == [] || (Enabled(sdk, steps[0]) && ValidRun(Next(sdk, steps[0]), steps[1..]))
  }

  function Run(sdk: Sdk, steps: seq<Step>): Sdk
    requires ValidRun(sdk, steps)
    decreases |steps|
  {
    if steps == [] then sdk else Run(Next(sdk, steps[0]), steps[1..])
  }

  lemma {:induction false} RunKeepsInv(sdk: Sdk, steps: seq<Step>)
    requires Inv(sdk) && ValidRun(sdk, steps)
    ensures Inv(Run(sdk, steps))
    decreases |steps|
  {
    if steps != [] {
      NextKeepsInv(sdk, steps[0]);
      RunKeepsInv(Next(sdk, steps[0]), steps[1..]);
    }
  }

  lemma InvConserves(sdk: Sdk)
    requires Inv(sdk)
    ensures multiset(sdk.recorded) == multiset(SpansOf(Batches(sdk)) + sdk.buffers.active)
                                      + multiset(sdk.dropped) + multiset(sdk.lost)
    ensures Subsequence(SpansOf(Batches(sdk)) + sdk.buffers.active, sdk.recorded)
    ensures sdk.buffers.pendingSpans == |SpansOf(sdk.buffers.pending)| && sdk.buffers.droppedSpans == |sdk.dropped|
    ensures |sdk.buffers.pending| + (if sdk.inFlight.Some? then 1 else 0) <= 1
  {
    var out := SpansOf(Batches(sdk)) + sdk.buffers.active;
    assert Flows(out, Gone(sdk), sdk.recorded);
    Regroup(multiset(out), multiset(sdk.dropped), multiset(sdk.lost));
  }

  lemma Regroup(a: multiset<SpanData>, b: multiset<SpanData>, c: multiset<SpanData>)
    ensures a + (b + c) == a + b + c
  {}

  /**
   Conservation and order over every interleaving: each recorded span is in a delivered batch, the batch in
   flight, the one pending batch, the active buffer, dropped by overflow or lost, and in exactly one of
   these; delivered batches, then the current one, then the buffer read as a subsequence of the recording order.
   */
  lemma SpansAreConserved(maxlen: nat, client: nat, steps: seq<Step>)
    requires ValidRun(Started(maxlen, client), steps)
    ensures var sdk := Run(Started(maxlen, client), steps);
            && multiset(sdk.recorded) == multiset(SpansOf(Batches(sdk)) + sdk.buffers.active)
                                         + multiset(sdk.dropped) + multiset(sdk.lost)
            && Subsequence(SpansOf(Batches(sdk)) + sdk.buffers.active, sdk.recorded)
            && sdk.buffers.pendingSpans == |SpansOf(sdk.buffers.pending)|
            && |sdk.buffers.pending| + (if sdk.inFlight.Some? then 1 else 0) <= 1
            && sdk.buffers.droppedSpans == |sdk.dropped|
  {
    RunKeepsInv(Started(maxlen, client), steps);
    InvConserves(Run(Started(maxlen, client), steps));
  }

  /** The batches reported as sent, one after the other, are a subsequence of the recording order. */
  lemma DeliveredInOrder(maxlen: nat, client: nat, steps: seq<Step>)
    requires ValidRun(Started(maxlen, client), steps)
    ensures var sdk := Run(Started(maxlen, client), steps);
            Subsequence(SpansOf(sdk.delivered), sdk.recorded)
  {
    var sdk := Run(Started(maxlen, client), steps);
    RunKeepsInv(Started(maxlen, client), steps);
    var rest := Batches(sdk)[|sdk.delivered|..];
    assert Batches(sdk) == sdk.delivered + rest;
    SpansOfConcat(sdk.delivered, rest);
    var tail := SpansOf(rest) + sdk.buffers.active;
    Associative(SpansOf(sdk.delivered), SpansOf(rest), sdk.buffers.active);
    FlowCut(SpansOf(sdk.delivered), tail, Gone(sdk), sdk.recorded);
  }

  lemma {:induction false} SpansOfConcat(a: seq<FlushBatch>, b: seq<FlushBatch>)
    ensures SpansOf(a + b) == SpansOf(a) + SpansOf(b)
  {
    if b == [] {
      assert a + b == a;
    } else {
      var init, last := b[..|b| - 1], b[|b| - 1];
      SpansOfConcat(a, init);
      SpansOfAppend(a + init, last);
      assert a + b == (a + init) + [last];
      assert SpansOf(a + b) == SpansOf(a) + SpansOf(init) + last.spans;
      Associative(SpansOf(a), SpansOf(init), last.spans);
    }
  }

  /** Whatever is posted under one key carries the same spans, on every attempt and every later flush. */
  lemma OneSpanListPerKey(maxlen: nat, client: nat, steps: seq<Step>, p: Post, q: Post)
    requires ValidRun(Started(maxlen, client), steps)
    requires var posted := Run(Started(maxlen, client), steps).posted;
             p in posted && q in posted && p.key == q.key
    ensures SpansIn(p.content) == SpansIn(q.content)
  {
    RunKeepsInv(Started(maxlen, client), steps);
    var sdk := Run(Started(maxlen, client), steps);
    assert DrawnFor(sdk, p.key, SpansIn(p.content)) && DrawnFor(sdk, q.key, SpansIn(q.content));
  }

  // ---------------------------------------------------------------- one content per key

  /** Posts under one key are the same bytes, as the server's request hash demands. */
  ghost predicate PostsAgree(sdk: Sdk) {
    forall p, q :: p in sdk.posted && q in sdk.posted && p.key == q.key ==> p.content == q.content
  }

  /** The state before step `i`. */
  function At(sdk: Sdk, steps: seq<Step>, i: nat): Sdk
    requires ValidRun(sdk, steps) && i <= |steps|
    decreases i
  {
    if i == 0 then sdk else At(Next(sdk, steps[0]), steps[1..], i - 1)
  }

  /** Step `i` is an HTTP attempt for `batch`, which finds these bodies. */
  ghost predicate Attempts(sdk: Sdk, steps: seq<Step>, i: nat, batch: FlushBatch, bodies: Bodies)
    requires ValidRun(sdk, steps)
  {
    i < |steps| && steps[i] == DoPost
    && At(sdk, steps, i).inFlight == Some(batch) && At(sdk, steps, i).bodies == bodies
  }

  lemma {:induction false} PostedIsAttempted(sdk: Sdk, steps: seq<Step>, p: Post)
    requires ValidRun(sdk, steps)
    ensures p in Run(sdk, steps).posted <==>
            || p in sdk.posted
            || exists i: nat, batch, bodies :: Attempts(sdk, steps, i, batch, bodies) && p == PostOf(batch, bodies)
    decreases |steps|
  {
    if steps != [] {
      var next, rest := Next(sdk, steps[0]), steps[1..];
      PostedIsAttempted(next, rest, p);
      if i: nat, batch, bodies :| Attempts(next, rest, i, batch, bodies) && p == PostOf(batch, bodies) {
        assert Attempts(sdk, steps, i + 1, batch, bodies);
      }
      if i: nat, batch, bodies :| Attempts(sdk, steps, i, batch, bodies) && p == PostOf(batch, bodies) {
        if i == 0 {
          assert p in next.posted;
        } else {
          assert Attempts(next, rest, i - 1, batch, bodies);
        }
      }
      if steps[0] == DoPost && p == PostOf(sdk.inFlight.value, sdk.bodies) {
        assert Attempts(sdk, steps, 0, sdk.inFlight.value, sdk.bodies);
      }
    }
  }

  /** Between any two attempts under one key no body of the batch has changed, or it has changed back. */
  ghost predicate Steady(sdk: Sdk, steps: seq<Step>)
    requires ValidRun(sdk, steps)
  {
    forall i: nat, j: nat, a, b, bodies, bodies' ::
      Attempts(sdk, steps, i, a, bodies) && Attempts(sdk, steps, j, b, bodies') && a.key == b.key ==>
        SameBodies(a.spans, bodies, bodies')
  }

  lemma AttemptIsPosted(sdk: Sdk, steps: seq<Step>, i: nat, batch: FlushBatch, bodies: Bodies)
    requires ValidRun(sdk, steps) && Attempts(sdk, steps, i, batch, bodies)
    ensures PostOf(batch, bodies) in Run(sdk, steps).posted && SpansIn(PostOf(batch, bodies).content) == batch.spans
  {
    PostedIsAttempted(sdk, steps, PostOf(batch, bodies));
    RenderKeepsSpans(batch.spans, bodies);
  }

  /**
   In every run the posts under each key agree if and only if no body of a batch differs between two of its
   attempts. Message lists and metadata are read at every attempt, so the tracer alone cannot ensure it.
   */
  lemma OneContentPerKeyIffSteady(maxlen: nat, client: nat, steps: seq<Step>)
    requires ValidRun(Started(maxlen, client), steps)
    ensures PostsAgree(Run(Started(maxlen, client), steps)) <==> Steady(Started(maxlen, client), steps)
  {
    var start := Started(maxlen, client);
    var sdk := Run(start, steps);
    if PostsAgree(sdk) {
      forall i: nat, j: nat, a, b, bodies, bodies' |
        Attempts(start, steps, i, a, bodies) && Attempts(start, steps, j, b, bodies') && a.key == b.key
        ensures SameBodies(a.spans, bodies, bodies')
      {
        AttemptIsPosted(start, steps, i, a, bodies);
        AttemptIsPosted(start, steps, j, b, bodies');
        assert PostOf(a, bodies).content == PostOf(b, bodies').content;
        RenderAgrees(a.spans, bodies, bodies');
      }
    }
    if Steady(start, steps) {
      forall p, q | p in sdk.posted && q in sdk.posted && p.key == q.key ensures p.content == q.content {
        PostedIsAttempted(start, steps, p);
        PostedIsAttempted(start, steps, q);
        var i: nat, a, bodies :| Attempts(start, steps, i, a, bodies) && p == PostOf(a, bodies);
        var j: nat, b, bodies' :| Attempts(start, steps, j, b, bodies') && q == PostOf(b, bodies');
        OneSpanListPerKey(maxlen, client, steps, p, q);
        RenderKeepsSpans(a.spans, bodies);
        RenderKeepsSpans(b.spans, bodies');
        RenderAgrees(a.spans, bodies, bodies');
      }
    }
  }

  /** The batches that may still be posted. */
  function Undelivered(sdk: Sdk): seq<FlushBatch> {
    (if sdk.inFlight.Some? then [sdk.inFlight.value] else []) + sdk.buffers.pending
  }

  /** The application leaves what it recorded alone until it is delivered. */
  ghost predicate HandsOff(sdk: Sdk, step: Step) {
    step.DoMutate? ==>
      forall b :: b in Undelivered(sdk) ==> SameBodies(b.spans, sdk.bodies, sdk.bodies + step.changes)
  }

  ghost predicate AlwaysHandsOff(sdk: Sdk, steps: seq<Step>)
    requires ValidRun(sdk, steps)
    decreases |steps|
  {
    steps == [] || (HandsOff(sdk, steps[0]) && AlwaysHandsOff(Next(sdk, steps[0]), steps[1..]))
  }

  /** Posting any undelivered batch now would repeat what was posted for it. */
  ghost predicate Repeatable(sdk: Sdk) {
    forall b, p :: b in Undelivered(sdk) && p in sdk.posted && p.key == b.key ==> p == PostOf(b, sdk.bodies)
  }

  lemma HandsOffMutate(sdk: Sdk, changes: Bodies)
    requires PostsAgree(sdk) && Repeatable(sdk) && HandsOff(sdk, DoMutate(changes))
    ensures PostsAgree(Next(sdk, DoMutate(changes))) && Repeatable(Next(sdk, DoMutate(changes)))
  {
    forall b, p | b in Undelivered(sdk) && p in sdk.posted && p.key == b.key
      ensures p == PostOf(b, sdk.bodies + changes)
    {
      RenderAgrees(b.spans, sdk.bodies, sdk.bodies + changes);
    }
  }

  lemma HandsOffPost(sdk: Sdk)
    requires Counted(sdk) && PostsAgree(sdk) && Repeatable(sdk) && sdk.inFlight.Some?
    ensures PostsAgree(Next(sdk, DoPost)) && Repeatable(Next(sdk, DoPost))
  {
    var batch := sdk.inFlight.value;
    assert Undelivered(sdk) == [batch] && Undelivered(Next(sdk, DoPost)) == [batch];
    forall p | p in Next(sdk, DoPost).posted && p.key == batch.key ensures p == PostOf(batch, sdk.bodies) {
      assert batch in Undelivered(sdk);
    }
  }

  /** A batch popped from the buffer has a new key, under which nothing was posted. */
  lemma HandsOffPop(sdk: Sdk)
    requires Inv(sdk) && PostsAgree(sdk) && Repeatable(sdk) && sdk.inFlight.None?
    ensures PostsAgree(Next(sdk, DoPop)) && Repeatable(Next(sdk, DoPop))
  {
    var after := Next(sdk, DoPop);
    if sdk.buffers.pending != [] {
      assert Undelivered(sdk) == Undelivered(after) == sdk.buffers.pending;
    } else if sdk.buffers.active != [] {
      var batch := FlushBatch(sdk.buffers.active, (sdk.buffers.client, sdk.buffers.nextKey));
      assert Undelivered(after) == [batch];
      forall p | p in sdk.posted ensures p.key != batch.key {
        assert DrawnFor(sdk, p.key, SpansIn(p.content));
      }
    } else {
      assert Undelivered(after) == [];
    }
  }

  lemma HandsOffResolve(sdk: Sdk, result: SendResult)
    requires Inv(sdk) && PostsAgree(sdk) && Repeatable(sdk) && sdk.inFlight.Some?
    ensures PostsAgree(Next(sdk, DoResolve(result))) && Repeatable(Next(sdk, DoResolve(result)))
  {
    var after := Next(sdk, DoResolve(result));
    assert sdk.buffers.pending == [];
    assert Undelivered(sdk) == [sdk.inFlight.value];
    assert Undelivered(after) == if result.NotSent? then [sdk.inFlight.value] else [];
  }

  lemma HandsOffStep(sdk: Sdk, step: Step)
    requires Inv(sdk) && Enabled(sdk, step) && PostsAgree(sdk) && Repeatable(sdk) && HandsOff(sdk, step)
    ensures PostsAgree(Next(sdk, step)) && Repeatable(Next(sdk, step))
  {
    match step
    case DoMutate(changes) => HandsOffMutate(sdk, changes);
    case DoPost => HandsOffPost(sdk);
    case DoPop => HandsOffPop(sdk);
    case DoResolve(result) => HandsOffResolve(sdk, result);
    case DoRecord(_) => assert Undelivered(Next(sdk, step)) == Undelivered(sdk);
    case DoDiscard => assert Undelivered(Next(sdk, step)) == [];
  }

  /** The caller's condition: an application that does not touch recorded lists before delivery is always safe. */
  lemma {:induction false} HandsOffIsEnough(sdk: Sdk, steps: seq<Step>)
    requires Inv(sdk) && ValidRun(sdk, steps) && AlwaysHandsOff(sdk, steps)
    requires PostsAgree(sdk) && Repeatable(sdk)
    ensures PostsAgree(Run(sdk, steps))
    decreases |steps|
  {
    if steps != [] {
      HandsOffStep(sdk, steps[0]);
      NextKeepsInv(sdk, steps[0]);
      HandsOffIsEnough(Next(sdk, steps[0]), steps[1..]);
    }
  }

  lemma SafeApplication(maxlen: nat, client: nat, steps: seq<Step>)
    requires ValidRun(Started(maxlen, client), steps) && AlwaysHandsOff(Started(maxlen, client), steps)
    ensures PostsAgree(Run(Started(maxlen, client), steps))
  {
    HandsOffIsEnough(Started(maxlen, client), steps);
  }

  /** And it is necessary: when a posted, undelivered batch reads differently now, one more flush breaks agreement. */
  lemma ChangedBatchDisagrees(sdk: Sdk, b: FlushBatch, p: Post)
    requires Inv(sdk) && b in Undelivered(sdk) && p in sdk.posted && p.key == b.key && p != PostOf(b, sdk.bodies)
    ensures exists steps :: ValidRun(sdk, steps) && !PostsAgree(Run(sdk, steps))
  {
    if sdk.inFlight.Some? {
      assert sdk.buffers.pending == [] && b == sdk.inFlight.value;
      PostDisagrees(sdk, p);
    } else {
      assert sdk.buffers.pending == [b];
      var popped := Next(sdk, DoPop);
      assert popped.inFlight == Some(b);
      PostDisagrees(popped, p);
      var steps := [DoPop, DoPost];
      assert steps[1..] == [DoPost];
      assert ValidRun(sdk, steps) && Run(sdk, steps) == Run(popped, [DoPost]);
    }
  }

  lemma PostDisagrees(sdk: Sdk, p: Post)
    requires sdk.inFlight.Some? && p in sdk.posted && p.key == sdk.inFlight.value.key
    requires p != PostOf(sdk.inFlight.value, sdk.bodies)
    ensures ValidRun(sdk, [DoPost]) && !PostsAgree(Run(sdk, [DoPost]))
  {
    var after := Next(sdk, DoPost);
    assert [DoPost][1..] == [] && ValidRun(after, []) && Run(sdk, [DoPost]) == after;
    assert PostOf(sdk.inFlight.value, sdk.bodies) in after.posted && p in after.posted;
  }

  /**
   A run that breaks it: a span is recorded, its batch is posted three times and each time the answer is lost, the
   application appends to the message list it had passed, and the batch is flushed again under its key.
   */
  function ChangedConversation(s: SpanData): seq<Step> {
    [DoRecord(s), DoPop] + ([DoPost, DoPost, DoPost] + [DoResolve(NotSent), DoMutate(map[s := 1]), DoPop, DoPost])
  }

  /** Three attempts without an answer are what `send_batch` makes of timeouts, and the batch is not sent. */
  lemma LostAnswersAreNotSent(reply: nat -> Reply)
    requires reply(0) == reply(1) == reply(2) == ConnectOrTimeout
    ensures Verdict(reply, 0) == (3, NotSent)
  {
    assert Verdict(reply, 2) == (3, NotSent);
    assert Verdict(reply, 1) == (3, NotSent);
  }

  lemma {:induction false} RunConcat(sdk: Sdk, a: seq<Step>, b: seq<Step>)
    requires ValidRun(sdk, a) && ValidRun(Run(sdk, a), b)
    ensures ValidRun(sdk, a + b) && Run(sdk, a + b) == Run(Run(sdk, a), b)
    decreases |a|
  {
    if a == [] {
      assert a + b == b;
    } else {
      RunConcat(Next(sdk, a[0]), a[1..], b);
      RunCons(sdk, a[0], a[1..] + b);
      assert a + b == [a[0]] + (a[1..] + b);
    }
  }

  lemma RunTwo(sdk: Sdk, first: Step, second: Step)
    requires Enabled(sdk, first) && Enabled(Next(sdk, first), second)
    ensures ValidRun(sdk, [first, second]) && Run(sdk, [first, second]) == Next(Next(sdk, first), second)
  {
    var next := Next(sdk, first);
    RunCons(next, second, []);
    RunCons(sdk, first, [second]);
    assert [second] + [] == [second] && [first] + [second] == [first, second];
  }

  lemma ThreePosts(sdk: Sdk)
    requires sdk.inFlight.Some?
    ensures var post := PostOf(sdk.inFlight.value, sdk.bodies);
            && ValidRun(sdk, [DoPost, DoPost, DoPost])
            && Run(sdk, [DoPost, DoPost, DoPost]) == sdk.(posted := sdk.posted + [post, post, post])
  {
    var post := PostOf(sdk.inFlight.value, sdk.bodies);
    var one := Next(sdk, DoPost);
    RunTwo(one, DoPost, DoPost);
    RunCons(sdk, DoPost, [DoPost, DoPost]);
    assert [DoPost] + [DoPost, DoPost] == [DoPost, DoPost, DoPost];
    assert sdk.posted + [post] + [post] + [post] == sdk.posted + [post, post, post];
  }

  /** The rest of the run, from the third post on. */
  lemma ChangedThenPosted(sdk: Sdk, s: SpanData, batch: FlushBatch)
    requires sdk.inFlight == Some(batch) && batch.spans == [s] && sdk.buffers.pending == [] && sdk.bodies == map[]
    requires PostOf(batch, map[]) in sdk.posted
    ensures var rest := [DoResolve(NotSent), DoMutate(map[s := 1]), DoPop, DoPost];
            ValidRun(sdk, rest) && !PostsAgree(Run(sdk, rest))
  {
    var resolved := Next(sdk, DoResolve(NotSent));
    assert resolved.buffers.pending == [batch];
    var mutated := Next(resolved, DoMutate(map[s := 1]));
    var popped := Next(mutated, DoPop);
    assert popped.inFlight == Some(batch) && popped.bodies == map[s := 1];
    assert PostOf(batch, map[]).content[0] != PostOf(batch, map[s := 1]).content[0];
    PostDisagrees(popped, PostOf(batch, map[]));
    RunCons(mutated, DoPop, [DoPost]);
    RunCons(resolved, DoMutate(map[s := 1]), [DoPop, DoPost]);
    RunCons(sdk, DoResolve(NotSent), [DoMutate(map[s := 1]), DoPop, DoPost]);
    assert [DoPop] + [DoPost] == [DoPop, DoPost];
    assert [DoMutate(map[s := 1])] + [DoPop, DoPost] == [DoMutate(map[s := 1]), DoPop, DoPost];
    assert [DoResolve(NotSent)] + [DoMutate(map[s := 1]), DoPop, DoPost]
        == [DoResolve(NotSent), DoMutate(map[s := 1]), DoPop, DoPost];
  }

  lemma ChangedConversationDisagrees(s: SpanData, client: nat)
    ensures ValidRun(Started(1, client), ChangedConversation(s))
    ensures !PostsAgree(Run(Started(1, client), ChangedConversation(s)))
  {
    var start, posts := Started(1, client), [DoPost, DoPost, DoPost];
    var rest := [DoResolve(NotSent), DoMutate(map[s := 1]), DoPop, DoPost];
    var batch := FlushBatch([s], (client, 0));
    var recorded := Next(start, DoRecord(s));
    assert recorded.buffers.active == [s];
    var popped := Next(recorded, DoPop);
    assert popped.inFlight == Some(batch) && popped.buffers.pending == [] && popped.bodies == map[];
    RunTwo(start, DoRecord(s), DoPop);
    ThreePosts(popped);
    var posted := Run(popped, posts);
    assert PostOf(batch, map[]) in posted.posted;
    ChangedThenPosted(posted, s, batch);
    RunConcat(popped, posts, rest);
    RunConcat(start, [DoRecord(s), DoPop], posts + rest);
  }

  lemma RunCons(sdk: Sdk, first: Step, rest: seq<Step>)
    requires Enabled(sdk, first) && ValidRun(Next(sdk, first), rest)
    ensures ValidRun(sdk, [first] + rest) && Run(sdk, [first] + rest) == Run(Next(sdk, first), rest)
  {
    assert ([first] + rest)[1..] == rest;
  }

  // ---------------------------------------------------------------- one flush as steps of the machine

  /** The deque drops its oldest span when it is full, and its counter says so; nothing else changes. */
  lemma RecordIs(b: Buffers, s: SpanData)
    requires |b.active| <= b.maxlen
    ensures var after := AfterRecord(b, s);
            && after.active == (if |b.active| < b.maxlen then b.active + [s]
                                else if b.maxlen == 0 then [] else b.active[1..] + [s])
            && after.droppedSpans == b.droppedSpans + (if |b.active| < b.maxlen then 0 else 1)
            && (after.maxlen, after.pending, after.pendingSpans) == (b.maxlen, b.pending, b.pendingSpans)
            && (after.failedFlushes, after.client, after.nextKey) == (b.failedFlushes, b.client, b.nextKey)
  {}

  /** The oldest pending batch comes first, under its own key; else the whole buffer, under a key never used. */
  lemma PopIs(b: Buffers)
    ensures var (after, batch) := AfterPop(b);
            if b.pending != [] then
              && batch == Some(b.pending[0]) && after.pending == b.pending[1..] && after.active == b.active
              && after.pendingSpans == b.pendingSpans - |b.pending[0].spans| && after.nextKey == b.nextKey
            else if b.active != [] then
              && batch == Some(FlushBatch(b.active, (b.client, b.nextKey))) && after.active == [] && after.pending == []
              && after.pendingSpans == b.pendingSpans && after.nextKey == b.nextKey + 1
            else batch == None && after == b
  {}

  /** The bodies that an attempt reads, as a change of what the machine has. */
  function Changes(spans: Content, bodies: Bodies): Bodies {
    map s | s in spans :: BodyOf(bodies, s)
  }

  /** The first `n` attempts, each after the changes that it finds. */
  function AttemptSteps(spans: Content, bodies: nat -> Bodies, n: nat): seq<Step> {
    if n == 0 then [] else AttemptSteps(spans, bodies, n - 1) + [DoMutate(Changes(spans, bodies(n - 1))), DoPost]
  }

  function RecordSteps(spans: Content): seq<Step> {
    if spans == [] then [] else RecordSteps(spans[..|spans| - 1]) + [DoRecord(spans[|spans| - 1])]
  }

  /** A flush: pop, try, record what comes in meanwhile, and deal with the verdict. */
  function FlushSteps(spans: Content, bodies: nat -> Bodies, attempts: nat, meanwhile: Content, verdict: SendResult)
    : seq<Step>
  {
    [DoPop] + (AttemptSteps(spans, bodies, attempts) + (RecordSteps(meanwhile) + [DoResolve(verdict)]))
  }

  lemma RenderChanges(spans: Content, before: Bodies, bodies: Bodies)
    ensures Render(spans, before + Changes(spans, bodies)) == Render(spans, bodies)
  {
    RenderAgrees(spans, before + Changes(spans, bodies), bodies);
  }

  lemma OneAttempt(sdk: Sdk, batch: FlushBatch, bodies: Bodies)
    requires sdk.inFlight == Some(batch)
    ensures var steps := [DoMutate(Changes(batch.spans, bodies)), DoPost];
            && ValidRun(sdk, steps)
            && var after := Run(sdk, steps);
               && after == sdk.(bodies := after.bodies, posted := after.posted)
               && after.posted == sdk.posted + [Post(batch.key, Render(batch.spans, bodies))]
  {
    RunTwo(sdk, DoMutate(Changes(batch.spans, bodies)), DoPost);
    RenderChanges(batch.spans, sdk.bodies, bodies);
  }

  lemma PostsLast(key: WireKey, spans: Content, bodies: nat -> Bodies, n: nat, before: seq<Post>)
    requires n > 0
    ensures before + Posts(key, spans, bodies, n - 1) + [Post(key, Render(spans, bodies(n - 1)))]
         == before + Posts(key, spans, bodies, n)
  {}

  lemma {:induction false} AttemptsRun(sdk: Sdk, batch: FlushBatch, bodies: nat -> Bodies, n: nat)
    requires sdk.inFlight == Some(batch)
    ensures var steps := AttemptSteps(batch.spans, bodies, n);
            && ValidRun(sdk, steps)
            && var after := Run(sdk, steps);
               && after == sdk.(bodies := after.bodies, posted := after.posted)
               && after.posted == sdk.posted + Posts(batch.key, batch.spans, bodies, n)
  {
    if n > 0 {
      var steps := AttemptSteps(batch.spans, bodies, n - 1);
      AttemptsRun(sdk, batch, bodies, n - 1);
      OneAttempt(Run(sdk, steps), batch, bodies(n - 1));
      RunConcat(sdk, steps, [DoMutate(Changes(batch.spans, bodies(n - 1))), DoPost]);
      PostsLast(batch.key, batch.spans, bodies, n, sdk.posted);
    }
  }

  lemma RunOne(sdk: Sdk, step: Step)
    requires Enabled(sdk, step)
    ensures ValidRun(sdk, [step]) && Run(sdk, [step]) == Next(sdk, step)
  {
    RunCons(sdk, step, []);
    assert [step] + [] == [step];
  }

  lemma {:induction false} RecordsRun(sdk: Sdk, spans: Content)
    ensures ValidRun(sdk, RecordSteps(spans))
    ensures var after := Run(sdk, RecordSteps(spans));
            && after.buffers == RecordAll(sdk.buffers, spans)
            && (after.inFlight, after.posted) == (sdk.inFlight, sdk.posted)
            && after.recorded == sdk.recorded + spans
  {
    if spans == [] {
      assert sdk.recorded + [] == sdk.recorded;
    } else {
      var init, last := spans[..|spans| - 1], spans[|spans| - 1];
      RecordsRun(sdk, init);
      RunOne(Run(sdk, RecordSteps(init)), DoRecord(last));
      RunConcat(sdk, RecordSteps(init), [DoRecord(last)]);
      assert spans == init + [last];
      Associative(sdk.recorded, init, [last]);
    }
  }

  /**
   What a flush does is a run of the machine, so what holds of its runs holds of flushes: the buffers are those
   after popping, the attempts, the spans recorded meanwhile and the verdict, and the posts are those of the run.
   */
  lemma FlushIsARun(sdk: Sdk, reply: nat -> Reply, bodies: nat -> Bodies, meanwhile: Content)
    requires sdk.inFlight.None? && AfterPop(sdk.buffers).1.Some?
    ensures var (attempts, verdict) := Verdict(reply, 0);
            var steps := FlushSteps(AfterPop(sdk.buffers).1.value.spans, bodies, attempts, meanwhile, verdict);
            && ValidRun(sdk, steps) && Run(sdk, steps).inFlight.None?
            && (Run(sdk, steps).buffers, verdict) == AfterFlushWith(sdk.buffers, verdict, meanwhile)
            && Run(sdk, steps).posted == sdk.posted + FlushPosts(sdk.buffers, attempts, bodies)
  {
    var (attempts, verdict) := Verdict(reply, 0);
    var batch := AfterPop(sdk.buffers).1.value;
    var popped := Next(sdk, DoPop);
    AttemptsRun(popped, batch, bodies, attempts);
    RunsInOrder(sdk, AttemptSteps(batch.spans, bodies, attempts), meanwhile, verdict);
    Resolved(Run(popped, AttemptSteps(batch.spans, bodies, attempts)), sdk.buffers, meanwhile, verdict);
  }

  /** The four parts of a flush, one after the other. */
  lemma RunsInOrder(sdk: Sdk, tries: seq<Step>, meanwhile: Content, verdict: SendResult)
    requires Enabled(sdk, DoPop) && ValidRun(Next(sdk, DoPop), tries)
    requires Run(Next(sdk, DoPop), tries).inFlight.Some?
    ensures ValidRun(Run(Next(sdk, DoPop), tries), RecordSteps(meanwhile))
    ensures var recorded := Run(Run(Next(sdk, DoPop), tries), RecordSteps(meanwhile));
            var steps := [DoPop] + (tries + (RecordSteps(meanwhile) + [DoResolve(verdict)]));
            && Enabled(recorded, DoResolve(verdict))
            && ValidRun(sdk, steps) && Run(sdk, steps) == Next(recorded, DoResolve(verdict))
  {
    var popped, records := Next(sdk, DoPop), RecordSteps(meanwhile);
    var tried := Run(popped, tries);
    RecordsRun(tried, meanwhile);
    RunOne(Run(tried, records), DoResolve(verdict));
    RunConcat(tried, records, [DoResolve(verdict)]);
    RunConcat(popped, tries, records + [DoResolve(verdict)]);
    RunCons(sdk, DoPop, tries + (records + [DoResolve(verdict)]));
  }

  /** From the last attempt on, for buffers `b` before the pop. */
  lemma Resolved(tried: Sdk, b: Buffers, meanwhile: Content, verdict: SendResult)
    requires AfterPop(b).1.Some? && tried.inFlight == AfterPop(b).1 && tried.buffers == AfterPop(b).0
    requires ValidRun(tried, RecordSteps(meanwhile))
    requires Enabled(Run(tried, RecordSteps(meanwhile)), DoResolve(verdict))
    ensures var after := Next(Run(tried, RecordSteps(meanwhile)), DoResolve(verdict));
            && after.inFlight.None? && after.posted == tried.posted
            && (after.buffers, verdict) == AfterFlushWith(b, verdict, meanwhile)
  {
    RecordsRun(tried, meanwhile);
  }

  lemma {:induction false} RecordingKeepsPending(b: Buffers, spans: Content)
    ensures RecordAll(b, spans).pending == b.pending
  {
    if spans != [] {
      RecordingKeepsPending(b, spans[..|spans| - 1]);
    }
  }

  /** A batch that was not sent is the next to be popped: the same spans under the same key. */
  lemma UnsentIsPoppedAgain(b: Buffers, meanwhile: Content)
    requires AfterPop(b).1.Some?
    ensures AfterPop(AfterFlushWith(b, NotSent, meanwhile).0).1 == AfterPop(b).1
    ensures AfterFlushWith(b, NotSent, meanwhile).0.pending == [AfterPop(b).1.value] + AfterPop(b).0.pending
  {
    RecordingKeepsPending(AfterPop(b).0, meanwhile);
  }

  /** An empty tracer flushes to nothing. */
  lemma NothingToFlush(b: Buffers, verdict: SendResult, meanwhile: Content, bodies: nat -> Bodies, n: nat)
    requires b.active == [] && b.pending == []
    ensures AfterFlushWith(b, verdict, meanwhile) == (b, Sent) && FlushPosts(b, n, bodies) == []
  {}
}
