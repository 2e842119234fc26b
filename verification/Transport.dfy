/**
 One `send_batch` call: up to three posts of the same spans under the same key. Each attempt serialises the
 payload anew, from message lists that the caller may be changing.
 */
module Transport {
  import opened Options
  import opened SpanTable
  import opened Wire

  const MAX_ATTEMPTS := 3

  /** How one HTTP attempt ends. */
  datatype Reply =
    | HttpStatus(code: nat, retryAfterIsNumber: bool)
    | ConnectOrTimeout
    | OtherError

  /** `Raised` is an exception that leaves `send_batch`. */
  datatype SendResult = Sent | NotSent | Raised

  datatype Reason = SentReason | RateLimited | HttpError | ConnectionError

  datatype Diagnostics = Diagnostics(ok: bool, reason: Reason, spansCount: nat, attempts: nat)

  datatype Post = Post(key: WireKey, content: Payload)

  predicate IsSuccess(reply: Reply) {
    reply.HttpStatus? && 200 <= reply.code < 300
  }

  /** Answers after which another attempt is made, as long as one is left. */
  predicate Retryable(reply: Reply) {
    reply.ConnectOrTimeout? || (reply.HttpStatus? && reply.code >= 500)
  }

  /** The number of posts and the result, from attempt `n` on; `reply` answers attempt 0, 1 and 2. */
  function Verdict(reply: nat -> Reply, n: nat): (nat, SendResult)
    requires n < MAX_ATTEMPTS
    decreases MAX_ATTEMPTS - n
  {
    if Retryable(reply(n)) then if n + 1 < MAX_ATTEMPTS then Verdict(reply, n + 1) else (n + 1, NotSent)
    else if IsSuccess(reply(n)) then (n + 1, Sent)
    else if reply(n).OtherError? || (reply(n).code == 429 && !reply(n).retryAfterIsNumber) then (n + 1, Raised)
    else (n + 1, NotSent)
  }

  /** What the diagnostics say of the last answer, unless it raised. */
  function ReasonOf(last: Reply): Reason {
    match last
    case HttpStatus(code, _) => if 200 <= code < 300 then SentReason else if code == 429 then RateLimited else HttpError
    case _ => ConnectionError
  }

  /** The first `n` attempts; `bodies(i)` is what attempt `i` reads. */
  function Posts(key: WireKey, spans: Content, bodies: nat -> Bodies, n: nat): seq<Post> {
    seq(n, i requires 0 <= i < n => Post(key, Render(spans, bodies(i))))
  }

  class HttpTransport {
    var sent: seq<Post>                          // every request put on the wire
    var lastDiagnostics: Option<Diagnostics>

    constructor ()
      ensures sent == [] && lastDiagnostics == None
    {
      sent, lastDiagnostics := [], None;
    }

    method SendBatch(
      key: WireKey, spans: Content, reply: nat -> Reply, bodies: nat -> Bodies) returns (result: SendResult)
      modifies this
      ensures var (attempts, verdict) := Verdict(reply, 0);
              && result == verdict
              && sent == old(sent) + Posts(key, spans, bodies, attempts)
              && (result.Raised? ==> lastDiagnostics == old(lastDiagnostics))
              && (!result.Raised? ==>
                    && lastDiagnostics.Some?
                    && lastDiagnostics.value.ok == result.Sent?
                    && lastDiagnostics.value.attempts == attempts
                    && lastDiagnostics.value.spansCount == |spans|
                    && attempts > 0
                    && lastDiagnostics.value.reason == ReasonOf(reply(attempts - 1)))
    {
      for attempt := 0 to MAX_ATTEMPTS
        invariant sent == old(sent) + Posts(key, spans, bodies, attempt)
        invariant attempt < MAX_ATTEMPTS ==> Verdict(reply, 0) == Verdict(reply, attempt)
        invariant attempt < MAX_ATTEMPTS
        invariant lastDiagnostics == old(lastDiagnostics)
        invariant forall m :: 0 <= m < attempt ==> Retryable(reply(m))
      {
        var payload := Render(spans, bodies(attempt));
        sent := sent + [Post(key, payload)];
        assert Posts(key, spans, bodies, attempt) + [Post(key, payload)] == Posts(key, spans, bodies, attempt + 1);
        match reply(attempt) {
          case HttpStatus(code, retryAfterIsNumber) =>
            if 200 <= code < 300 {
              lastDiagnostics := Some(Diagnostics(true, SentReason, |spans|, attempt + 1));
              return Sent;
            }
            if code == 429 {
              if !retryAfterIsNumber {
                return Raised;
              }
              lastDiagnostics := Some(Diagnostics(false, RateLimited, |spans|, attempt + 1));
              return NotSent;
            } else if code >= 500 && attempt < MAX_ATTEMPTS - 1 {
              // sleep, then try again
            } else {
              lastDiagnostics := Some(Diagnostics(false, HttpError, |spans|, attempt + 1));
              return NotSent;
            }
          case ConnectOrTimeout =>
            if attempt < MAX_ATTEMPTS - 1 {
              // sleep, then try again
            } else {
              lastDiagnostics := Some(Diagnostics(false, ConnectionError, |spans|, attempt + 1));
              return NotSent;
            }
          case OtherError =>
            return Raised;
        }
      }
      assert false;
      result := NotSent;
    }
  }

  /**
   The number of posts and the verdict. Timeouts and codes from 500 on are tried again, three attempts at most. The
   last attempt decides: 2xx is sent; another error, or 429 with a Retry-After that is no number, raises and loses
   the batch; anything else keeps it.
   */
  lemma VerdictIs(reply: nat -> Reply) returns (last: nat)
    ensures last < 3 && Verdict(reply, 0).0 == last + 1
    ensures forall m: nat :: m < last ==>
              reply(m).ConnectOrTimeout? || (reply(m).HttpStatus? && reply(m).code >= 500)
    ensures last < 2 ==> reply(last).OtherError? || (reply(last).HttpStatus? && reply(last).code < 500)
    ensures var verdict := Verdict(reply, 0).1;
            && (verdict == Sent <==> reply(last).HttpStatus? && 200 <= reply(last).code < 300)
            && (verdict == Raised <==>
                  || reply(last).OtherError?
                  || (reply(last).HttpStatus? && reply(last).code == 429 && !reply(last).retryAfterIsNumber))
  {
    last := DecidingFrom(reply, 0);
  }

  lemma {:induction false} DecidingFrom(reply: nat -> Reply, n: nat) returns (last: nat)
    requires n < MAX_ATTEMPTS && forall m: nat :: m < n ==> Retryable(reply(m))
    ensures last < MAX_ATTEMPTS && Verdict(reply, n).0 == last + 1
    ensures forall m: nat :: m < last ==> Retryable(reply(m))
    ensures last < MAX_ATTEMPTS - 1 ==> !Retryable(reply(last))
    ensures var verdict := Verdict(reply, n).1;
            && (verdict == Sent <==> IsSuccess(reply(last)))
            && (verdict == Raised <==>
                  || reply(last).OtherError?
                  || (reply(last).HttpStatus? && reply(last).code == 429 && !reply(last).retryAfterIsNumber))
    decreases MAX_ATTEMPTS - n
  {
    if Retryable(reply(n)) && n + 1 < MAX_ATTEMPTS {
      last := DecidingFrom(reply, n + 1);
    } else {
      last := n;
    }
  }

  /** The call reports success exactly when some attempt was answered 2xx after nothing but retryable answers. */
  lemma SentMeansAnswered(reply: nat -> Reply)
    ensures Verdict(reply, 0).1.Sent?
       <==> exists n: nat :: n < MAX_ATTEMPTS && IsSuccess(reply(n)) && forall m: nat :: m < n ==> Retryable(reply(m))
    ensures 1 <= Verdict(reply, 0).0 <= MAX_ATTEMPTS
    ensures Verdict(reply, 0).1.Sent? ==> IsSuccess(reply(Verdict(reply, 0).0 - 1))
  {
    SentFrom(reply, 0);
  }

  lemma {:induction false} SentFrom(reply: nat -> Reply, n: nat)
    requires n < MAX_ATTEMPTS && forall m: nat :: m < n ==> Retryable(reply(m))
    ensures Verdict(reply, n).1.Sent?
       <==> exists k: nat :: k < MAX_ATTEMPTS && IsSuccess(reply(k)) && forall m: nat :: m < k ==> Retryable(reply(m))
    ensures n < Verdict(reply, n).0 <= MAX_ATTEMPTS
    ensures Verdict(reply, n).1.Sent? ==> IsSuccess(reply(Verdict(reply, n).0 - 1))
    decreases MAX_ATTEMPTS - n
  {
    if Retryable(reply(n)) {
      if n + 1 < MAX_ATTEMPTS {
        SentFrom(reply, n + 1);
      } else if k: nat :| k < MAX_ATTEMPTS && IsSuccess(reply(k)) {
        assert k == n || Retryable(reply(k));
      }
    } else if k: nat :| k < MAX_ATTEMPTS && IsSuccess(reply(k)) && forall m: nat :: m < k ==> Retryable(reply(m)) {
      assert k <= n;
      assert k < n ==> Retryable(reply(k));
    }
  }
}
