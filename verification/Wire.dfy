/** What the SDK records and what it puts on the wire. */
module Wire {
  import opened Options
  import opened SpanTable

  datatype SpanData = SpanData(
    spanId: SpanId, traceId: TraceId, parentSpanId: Option<SpanId>, startedAt: Instant, failed: bool)

  type Content = seq<SpanData>

  /** A value of a span's message list and metadata. */
  type Body = nat

  /**
   A recorded span refers to its caller's own message list and dictionary, which may change, and which several
   spans may share. This is what serialising each span would read now.
   */
  type Bodies = map<SpanData, Body>

  function BodyOf(bodies: Bodies, s: SpanData): Body {
    if s in bodies then bodies[s] else 0
  }

  datatype WireSpan = WireSpan(span: SpanData, body: Body)

  type Payload = seq<WireSpan>

  /** Serialisation reads the bodies as they are at that moment. */
  function Render(spans: Content, bodies: Bodies): Payload {
    seq(|spans|, i requires 0 <= i < |spans| => WireSpan(spans[i], BodyOf(bodies, spans[i])))
  }

  function SpansIn(payload: Payload): Content {
    seq(|payload|, i requires 0 <= i < |payload| => payload[i].span)
  }

  predicate SameBodies(spans: Content, a: Bodies, b: Bodies) {
    forall s :: s in spans ==> BodyOf(a, s) == BodyOf(b, s)
  }

  lemma RenderKeepsSpans(spans: Content, bodies: Bodies)
    ensures SpansIn(Render(spans, bodies)) == spans
  {}

  /** Two serialisations of the same spans are equal exactly when no body changed in between. */
  lemma RenderAgrees(spans: Content, a: Bodies, b: Bodies)
    ensures Render(spans, a) == Render(spans, b) <==> SameBodies(spans, a, b)
  {
    if Render(spans, a) == Render(spans, b) {
      forall s | s in spans ensures BodyOf(a, s) == BodyOf(b, s) {
        var i :| 0 <= i < |spans| && spans[i] == s;
        assert Render(spans, a)[i] == Render(spans, b)[i];
      }
    }
  }

  /** An idempotency key within a project: a random UUID, told apart by the client that drew it. */
  type WireKey = (nat, nat)
}
