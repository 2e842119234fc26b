/**
 The per-minute metric buckets: an index over `spans` that every batch updates incrementally.

 Both the Python dictionary that a batch accumulates and the `span_metric_buckets` table are
 insertion-ordered sequences of rows with distinct `(project, minute)`; `Merge` is what
 `defaultdict` and `ON CONFLICT DO UPDATE` have in common.
 */
module MetricBuckets {
  import opened SpanTable

  datatype Acc = Acc(count: nat, errors: nat, cost: nat, latency: real)

  const ZERO := Acc(0, 0, 0, 0.0)

  function Plus(a: Acc, b: Acc): Acc {
    Acc(a.count + b.count, a.errors + b.errors, a.cost + b.cost, a.latency + b.latency)
  }

  datatype Bucket = Bucket(project: ProjectId, start: Instant, acc: Acc)

  type BucketKey = (ProjectId, Instant)

  function BucketKeyOf(b: Bucket): BucketKey {
    (b.project, b.start)
  }

  ghost predicate DistinctBuckets(rows: seq<Bucket>) {
    forall i, j :: 0 <= i < j < |rows| ==> BucketKeyOf(rows[i]) != BucketKeyOf(rows[j])
  }

  predicate HasBucket(rows: seq<Bucket>, k: BucketKey) {
    exists b :: b in rows && BucketKeyOf(b) == k
  }

  /** Value stored under a key; a missing row stands for zero. */
  function Lookup(rows: seq<Bucket>, k: BucketKey): Acc {
    if rows == [] then ZERO
    else if BucketKeyOf(rows[|rows| - 1]) == k then rows[|rows| - 1].acc
    else Lookup(rows[..|rows| - 1], k)
  }

  /** Adds `acc` to the row under `k`, appending a row when there is none. */
  function Merge(rows: seq<Bucket>, k: BucketKey, acc: Acc): seq<Bucket> {
    if rows == [] then [Bucket(k.0, k.1, acc)]
    else
      var init, last := rows[..|rows| - 1], rows[|rows| - 1];
      if BucketKeyOf(last) == k then init + [last.(acc := Plus(last.acc, acc))]
      else if HasBucket(init, k) then Merge(init, k, acc) + [last]
      else rows + [Bucket(k.0, k.1, acc)]
  }

  // ---------------------------------------------------------------- one batch

  /** A NUMERIC(18, 3) column rounds to thousandths, half away from zero; latencies are not negative. */
  function RoundMillis(x: real): real {
    (x * 1000.0 + 0.5).Floor as real / 1000.0
  }

  function AccOf(s: Span): Acc {
    Acc(1, if s.isError then 1 else 0, s.cost, s.latencyMs)
  }

  /** The dictionary after the loop over the inserted spans. */
  function Accumulate(p: ProjectId, spans: seq<Span>): seq<Bucket> {
    if spans == [] then []
    else
      var s := spans[|spans| - 1];
      Merge(Accumulate(p, spans[..|spans| - 1]), (p, FloorToMinute(s.startedAt)), AccOf(s))
  }

  function InsertByStart(rows: seq<Bucket>, b: Bucket): seq<Bucket> {
    if rows == [] || rows[|rows| - 1].start <= b.start then rows + [b]
    else InsertByStart(rows[..|rows| - 1], b) + [rows[|rows| - 1]]
  }

  /** `sorted(buckets.items())`. */
  function Payload(rows: seq<Bucket>): seq<Bucket> {
    if rows == [] then [] else InsertByStart(Payload(rows[..|rows| - 1]), rows[|rows| - 1])
  }

  function Upsert(table: seq<Bucket>, b: Bucket): seq<Bucket> {
    Merge(table, BucketKeyOf(b), b.acc.(latency := RoundMillis(b.acc.latency)))
  }

  function UpsertAll(table: seq<Bucket>, payload: seq<Bucket>): seq<Bucket> {
    if payload == [] then table
    else Upsert(UpsertAll(table, payload[..|payload| - 1]), payload[|payload| - 1])
  }

  function UpdateBuckets(table: seq<Bucket>, p: ProjectId, spans: seq<Span>): seq<Bucket> {
    UpsertAll(table, Payload(Accumulate(p, spans)))
  }

  // ---------------------------------------------------------------- what the updates do to lookups

  lemma {:induction false} LookupMissing(rows: seq<Bucket>, k: BucketKey)
    requires !HasBucket(rows, k)
    ensures Lookup(rows, k) == ZERO
  {
    if rows != [] {
      assert rows[|rows| - 1] in rows;
      LookupMissing(rows[..|rows| - 1], k);
    }
  }

  lemma {:induction false} MergeLookup(rows: seq<Bucket>, k: BucketKey, acc: Acc, k': BucketKey)
    requires DistinctBuckets(rows)
    ensures Lookup(Merge(rows, k, acc), k')
         == if k == k' then Plus(Lookup(rows, k), acc) else Lookup(rows, k')
  {
    if rows != [] {
      var init, last := rows[..|rows| - 1], rows[|rows| - 1];
      if BucketKeyOf(last) == k {
        assert Merge(rows, k, acc)[..|rows| - 1] == init;
      } else if HasBucket(init, k) {
        MergeLookup(init, k, acc, k');
        var merged := Merge(init, k, acc);
        assert Merge(rows, k, acc)[..|merged|] == merged;
      } else {
        assert (rows + [Bucket(k.0, k.1, acc)])[..|rows|] == rows;
        LookupMissing(init, k);
      }
    }
  }

  lemma {:induction false} MergeKeys(rows: seq<Bucket>, k: BucketKey, acc: Acc)
    requires DistinctBuckets(rows)
    ensures DistinctBuckets(Merge(rows, k, acc))
    ensures forall k' :: HasBucket(Merge(rows, k, acc), k') <==> HasBucket(rows, k') || k' == k
    ensures forall b' :: b' in Merge(rows, k, acc) ==> BucketKeyOf(b') == k || b' in rows
  {
    var added := Bucket(k.0, k.1, acc);
    if rows == [] {
      assert forall k' :: HasBucket([added], k') <==> k' == k by {
        assert added in [added];
      }
    } else {
      var init, last := rows[..|rows| - 1], rows[|rows| - 1];
      assert rows == init + [last];
      SplitKeys(init, last);
      if BucketKeyOf(last) == k {
        SplitKeys(init, last.(acc := Plus(last.acc, acc)));
      } else if HasBucket(init, k) {
        MergeKeys(init, k, acc);
        var merged := Merge(init, k, acc);
        SplitKeys(merged, last);
        assert !HasBucket(init, BucketKeyOf(last));
        DistinctAppend(merged, last);
      } else {
        SplitKeys(rows, added);
        DistinctAppend(rows, added);
      }
    }
  }

  lemma SplitKeys(init: seq<Bucket>, last: Bucket)
    ensures forall k :: HasBucket(init + [last], k) <==> HasBucket(init, k) || BucketKeyOf(last) == k
  {
    forall k ensures HasBucket(init + [last], k) <==> HasBucket(init, k) || BucketKeyOf(last) == k {
      assert last in init + [last];
      if HasBucket(init, k) {
        var b :| b in init && BucketKeyOf(b) == k;
        assert b in init + [last];
      }
    }
  }

  lemma DistinctAppend(init: seq<Bucket>, last: Bucket)
    requires DistinctBuckets(init) && !HasBucket(init, BucketKeyOf(last))
    ensures DistinctBuckets(init + [last])
  {
    forall i | 0 <= i < |init| ensures BucketKeyOf(init[i]) != BucketKeyOf(last) {
      assert init[i] in init;
    }
  }

  // ---------------------------------------------------------------- the accumulated dictionary

  /** The dictionary holds, minute by minute, the exact fold over the batch. */
  function FoldOf(spans: seq<Span>, p: ProjectId, m: Instant): Acc {
    var sel := InMinute(p, m);
    Acc(Sum(spans, sel, Spans), Sum(spans, sel, Errors), Sum(spans, sel, Cost), LatencySum(spans, sel))
  }

  lemma {:induction false} AccumulateIsFold(p: ProjectId, spans: seq<Span>, m: Instant)
    requires forall s :: s in spans ==> s.project == p
    ensures DistinctBuckets(Accumulate(p, spans))
    ensures forall b :: b in Accumulate(p, spans) ==> b.project == p
    ensures Lookup(Accumulate(p, spans), (p, m)) == FoldOf(spans, p, m)
    ensures HasBucket(Accumulate(p, spans), (p, m)) <==> FoldOf(spans, p, m).count > 0
  {
    if spans != [] {
      var init, s := spans[..|spans| - 1], spans[|spans| - 1];
      assert s in spans;
      AccumulateIsFold(p, init, m);
      var k := (p, FloorToMinute(s.startedAt));
      MergeLookup(Accumulate(p, init), k, AccOf(s), (p, m));
      MergeKeys(Accumulate(p, init), k, AccOf(s));
    }
  }

  ghost predicate StrictlyAscending(rows: seq<Bucket>) {
    forall i, j :: 0 <= i < j < |rows| ==> rows[i].start < rows[j].start
  }

  ghost predicate SameMembers(a: seq<Bucket>, b: seq<Bucket>) {
    forall x :: x in a <==> x in b
  }

  lemma {:induction false} InsertByStartKeeps(rows: seq<Bucket>, b: Bucket)
    requires StrictlyAscending(rows) && forall r :: r in rows ==> r.start != b.start
    ensures StrictlyAscending(InsertByStart(rows, b))
    ensures SameMembers(InsertByStart(rows, b), rows + [b])
  {
    if rows != [] && rows[|rows| - 1].start > b.start {
      var init, last := rows[..|rows| - 1], rows[|rows| - 1];
      assert rows == init + [last];
      InsertByStartKeeps(init, b);
      var inserted := InsertByStart(init, b);
      forall i | 0 <= i < |inserted| ensures inserted[i].start < last.start {
        assert inserted[i] in init + [b];
      }
    } else {
      forall i | 0 <= i < |rows| ensures rows[i].start < b.start {
        assert rows[i] in rows;
      }
    }
  }

  /** The upsert payload lists the entries of the dictionary once each, in strictly ascending minutes. */
  lemma {:induction false} PayloadDistinct(rows: seq<Bucket>, p: ProjectId)
    requires DistinctBuckets(rows) && forall b :: b in rows ==> b.project == p
    ensures StrictlyAscending(Payload(rows))
    ensures SameMembers(Payload(rows), rows)
  {
    if rows != [] {
      var init, last := rows[..|rows| - 1], rows[|rows| - 1];
      assert rows == init + [last];
      PayloadDistinct(init, p);
      forall r | r in Payload(init) ensures r.start != last.start {
        assert r in init && r in rows && last in rows;
        var i :| 0 <= i < |init| && init[i] == r;
        assert rows[i] == r && BucketKeyOf(rows[i]) != BucketKeyOf(rows[|rows| - 1]);
      }
      InsertByStartKeeps(Payload(init), last);
    }
  }

  // ---------------------------------------------------------------- the table after a batch

  function Rounded(a: Acc): Acc {
    a.(latency := RoundMillis(a.latency))
  }

  lemma {:induction false} UpsertAllKeys(table: seq<Bucket>, payload: seq<Bucket>)
    requires DistinctBuckets(table)
    ensures DistinctBuckets(UpsertAll(table, payload))
    ensures forall k :: HasBucket(UpsertAll(table, payload), k) <==> HasBucket(table, k) || HasBucket(payload, k)
  {
    if payload != [] {
      var init, b := payload[..|payload| - 1], payload[|payload| - 1];
      assert payload == init + [b];
      UpsertAllKeys(table, init);
      MergeKeys(UpsertAll(table, init), BucketKeyOf(b), Rounded(b.acc));
      SplitKeys(init, b);
    }
  }

  function RoundedLookup(payload: seq<Bucket>, k: BucketKey): Acc {
    if HasBucket(payload, k) then Rounded(Lookup(payload, k)) else ZERO
  }

  lemma {:induction false} UpsertAllLookup(table: seq<Bucket>, payload: seq<Bucket>, k: BucketKey)
    requires DistinctBuckets(table) && DistinctBuckets(payload)
    ensures Lookup(UpsertAll(table, payload), k) == Plus(Lookup(table, k), RoundedLookup(payload, k))
  {
    if payload != [] {
      var init, b := payload[..|payload| - 1], payload[|payload| - 1];
      UpsertAllKeys(table, init);
      UpsertAllLookup(table, init, k);
      MergeLookup(UpsertAll(table, init), BucketKeyOf(b), Rounded(b.acc), k);
      RoundedLookupLast(payload, k);
      PlusZero(Lookup(table, k));
    } else {
      PlusZero(Lookup(table, k));
    }
  }

  lemma PlusZero(a: Acc)
    ensures Plus(a, ZERO) == a
  {}

  lemma RoundedLookupLast(payload: seq<Bucket>, k: BucketKey)
    requires DistinctBuckets(payload) && payload != []
    ensures var init, b := payload[..|payload| - 1], payload[|payload| - 1];
            if BucketKeyOf(b) == k then RoundedLookup(payload, k) == Rounded(b.acc) && RoundedLookup(init, k) == ZERO
            else RoundedLookup(payload, k) == RoundedLookup(init, k)
  {
    var init, b := payload[..|payload| - 1], payload[|payload| - 1];
    assert payload == init + [b];
    SplitKeys(init, b);
    if BucketKeyOf(b) == k {
      FirstOccurrenceOnly(payload, k);
    }
  }

  lemma FirstOccurrenceOnly(rows: seq<Bucket>, k: BucketKey)
    requires DistinctBuckets(rows) && rows != [] && BucketKeyOf(rows[|rows| - 1]) == k
    ensures !HasBucket(rows[..|rows| - 1], k)
  {
  }

  lemma {:induction false} LookupMember(rows: seq<Bucket>, b: Bucket)
    requires DistinctBuckets(rows) && b in rows
    ensures Lookup(rows, BucketKeyOf(b)) == b.acc
  {
    var init, last := rows[..|rows| - 1], rows[|rows| - 1];
    if BucketKeyOf(last) != BucketKeyOf(b) {
      LookupMember(init, b);
    } else {
      var i :| 0 <= i < |rows| && rows[i] == b;
      assert i == |rows| - 1;
    }
  }

  lemma SameRowsSameLookup(rows: seq<Bucket>, rows': seq<Bucket>, k: BucketKey)
    requires DistinctBuckets(rows) && DistinctBuckets(rows') && SameMembers(rows, rows')
    ensures HasBucket(rows, k) == HasBucket(rows', k)
    ensures Lookup(rows, k) == Lookup(rows', k)
  {
    if HasBucket(rows, k) {
      var b :| b in rows && BucketKeyOf(b) == k;
      LookupMember(rows, b);
      LookupMember(rows', b);
    } else {
      LookupMissing(rows, k);
      LookupMissing(rows', k);
    }
  }

  /** A batch adds its own fold to every minute, with one rounding of the latency, and touches nothing else. */
  lemma UpdateBucketsAddsFold(table: seq<Bucket>, p: ProjectId, spans: seq<Span>, q: ProjectId, m: Instant)
    requires DistinctBuckets(table) && forall s :: s in spans ==> s.project == p
    ensures DistinctBuckets(UpdateBuckets(table, p, spans))
    ensures Lookup(UpdateBuckets(table, p, spans), (q, m))
         == Plus(Lookup(table, (q, m)), Rounded(FoldOf(spans, q, m)))
    ensures HasBucket(UpdateBuckets(table, p, spans), (q, m))
       <==> HasBucket(table, (q, m)) || FoldOf(spans, q, m).count > 0
  {
    var dict := Accumulate(p, spans);
    var payload := Payload(dict);
    AccumulateIsFold(p, spans, m);
    PayloadDistinct(dict, p);
    assert DistinctBuckets(payload);
    UpsertAllKeys(table, payload);
    UpsertAllLookup(table, payload, (q, m));
    SameRowsSameLookup(dict, payload, (q, m));
    PayloadLookup(p, spans, q, m);
  }

  lemma PayloadLookup(p: ProjectId, spans: seq<Span>, q: ProjectId, m: Instant)
    requires forall s :: s in spans ==> s.project == p
    ensures RoundedLookup(Payload(Accumulate(p, spans)), (q, m)) == Rounded(FoldOf(spans, q, m))
  {
    var dict := Accumulate(p, spans);
    AccumulateIsFold(p, spans, m);
    PayloadDistinct(dict, p);
    SameRowsSameLookup(dict, Payload(dict), (q, m));
    if q != p || FoldOf(spans, q, m).count == 0 {
      FoldIsEmpty(spans, q, m);
    }
  }

  lemma {:induction false} FoldIsEmpty(spans: seq<Span>, q: ProjectId, m: Instant)
    requires FoldOf(spans, q, m).count == 0 || forall s :: s in spans ==> s.project != q
    ensures FoldOf(spans, q, m) == ZERO
    ensures Rounded(ZERO) == ZERO
  {
    assert RoundMillis(0.0) == 0.0 by {
      assert (0.5).Floor == 0;
    }
    if spans != [] {
      assert spans[|spans| - 1] in spans;
      FoldIsEmpty(spans[..|spans| - 1], q, m);
    }
  }

  lemma FoldConcat(a: seq<Span>, b: seq<Span>, p: ProjectId, m: Instant)
    ensures FoldOf(a + b, p, m) == Plus(FoldOf(a, p, m), FoldOf(b, p, m))
  {
    CountsConcat(a, b, InMinute(p, m));
    LatencyConcat(a, b, InMinute(p, m));
  }

  lemma CountsConcat(a: seq<Span>, b: seq<Span>, sel: Selector)
    ensures forall m :: Sum(a + b, sel, m) == Sum(a, sel, m) + Sum(b, sel, m)
  {
    forall m ensures Sum(a + b, sel, m) == Sum(a, sel, m) + Sum(b, sel, m) {
      SumConcat(a, b, sel, m);
    }
  }

  /** Rounding gives the nearest thousandth, the upper one of two: it moves the latency by at most half of one. */
  lemma RoundingError(x: real)
    ensures -0.0005 < RoundMillis(x) - x <= 0.0005
    ensures (RoundMillis(x) * 1000.0).Floor as real == RoundMillis(x) * 1000.0
  {
    var n := (x * 1000.0 + 0.5).Floor;
    assert n as real <= x * 1000.0 + 0.5 < (n + 1) as real;
    assert RoundMillis(x) * 1000.0 == n as real;
  }

  // ---------------------------------------------------------------- alert queries over a window

  function BucketMeasure(m: Measure, b: Bucket): nat
    requires m != Tokens
  {
    match m
    case Spans => b.acc.count
    case Errors => b.acc.errors
    case Cost => b.acc.cost
  }

  /** SUM over the buckets of `p` whose start is at or after `from`. */
  function WindowSum(table: seq<Bucket>, p: ProjectId, from: Instant, m: Measure): nat
    requires m != Tokens
  {
    if table == [] then 0
    else
      var b := table[|table| - 1];
      WindowSum(table[..|table| - 1], p, from, m)
      + if b.project == p && b.start >= from then BucketMeasure(m, b) else 0
  }

  datatype AlertMetric = ErrorRate | CostHourly | OtherMetric

  datatype AlertAnswer = Answer(value: real, samples: nat) | UnsupportedMetric

  function WindowFrom(now: Instant, windowMinutes: nat): Instant {
    FloorToMinute(now - windowMinutes * MICROS_PER_MINUTE)
  }

  function QueryBucketedAlertValue(
    table: seq<Bucket>, p: ProjectId, metric: AlertMetric, now: Instant, windowMinutes: nat): AlertAnswer
  {
    var from := WindowFrom(now, windowMinutes);
    var samples := WindowSum(table, p, from, Spans);
    match metric
    case ErrorRate =>
      Answer(if samples == 0 then 0.0
             else WindowSum(table, p, from, Errors) as real / samples as real * 100.0, samples)
    case CostHourly => Answer(WindowSum(table, p, from, Cost) as real / 100_000_000.0, samples)
    case OtherMetric => UnsupportedMetric
  }

  /** The table refines the span table: one row per non-empty minute, holding the exact counts and cost. */
  ghost predicate Refines(table: seq<Bucket>, spans: seq<Span>) {
    && DistinctBuckets(table)
    && (forall p, m :: HasBucket(table, (p, m)) <==> FoldOf(spans, p, m).count > 0)
    && (forall p, m :: Lookup(table, (p, m)) ==
                       FoldOf(spans, p, m).(latency := Lookup(table, (p, m)).latency))
  }

  /** The window sum with every bucket replaced by the fold it stands for. */
  ghost function FoldSum(table: seq<Bucket>, spans: seq<Span>, p: ProjectId, from: Instant, m: Measure): nat {
    if table == [] then 0
    else
      var b := table[|table| - 1];
      FoldSum(table[..|table| - 1], spans, p, from, m)
      + if b.project == p && b.start >= from then Sum(spans, InMinute(p, b.start), m) else 0
  }

  lemma {:induction false} WindowSumIsFoldSum(
    table: seq<Bucket>, spans: seq<Span>, p: ProjectId, from: Instant, m: Measure)
    requires m != Tokens
    requires forall b :: b in table ==> BucketMeasure(m, b) == Sum(spans, InMinute(b.project, b.start), m)
    ensures WindowSum(table, p, from, m) == FoldSum(table, spans, p, from, m)
  {
    if table != [] {
      assert table[|table| - 1] in table;
      WindowSumIsFoldSum(table[..|table| - 1], spans, p, from, m);
    }
  }

  /** One more span changes the fold of exactly one bucket, its own. */
  lemma {:induction false} FoldSumStep(
    table: seq<Bucket>, spans: seq<Span>, s: Span, p: ProjectId, from: Instant, m: Measure)
    requires DistinctBuckets(table)
    ensures FoldSum(table, spans + [s], p, from, m) == FoldSum(table, spans, p, from, m)
              + (if Selects(SinceMinute(p, from), s) && HasBucket(table, (p, FloorToMinute(s.startedAt)))
                 then Weight(m, s) else 0)
  {
    if table != [] {
      var init, b := table[..|table| - 1], table[|table| - 1];
      assert table == init + [b];
      FoldSumStep(init, spans, s, p, from, m);
      SplitKeys(init, b);
      assert (spans + [s])[..|spans|] == spans;
      assert !HasBucket(init, BucketKeyOf(b));
    }
  }

  lemma {:induction false} FoldSumIsSum(table: seq<Bucket>, spans: seq<Span>, p: ProjectId, from: Instant, m: Measure)
    requires DistinctBuckets(table)
    requires forall s :: s in spans ==> HasBucket(table, (s.project, FloorToMinute(s.startedAt)))
    ensures FoldSum(table, spans, p, from, m) == Sum(spans, SinceMinute(p, from), m)
  {
    if spans == [] {
      FoldSumEmpty(table, p, from, m);
    } else {
      var init, s := spans[..|spans| - 1], spans[|spans| - 1];
      assert s in spans && spans == init + [s];
      FoldSumIsSum(table, init, p, from, m);
      FoldSumStep(table, init, s, p, from, m);
    }
  }

  lemma {:induction false} FoldSumEmpty(table: seq<Bucket>, p: ProjectId, from: Instant, m: Measure)
    ensures FoldSum(table, [], p, from, m) == 0
  {
    if table != [] {
      FoldSumEmpty(table[..|table| - 1], p, from, m);
    }
  }

  /** A non-empty minute of the span table has a bucket. */
  lemma {:induction false} MinuteOfMember(spans: seq<Span>, s: Span)
    requires s in spans
    ensures FoldOf(spans, s.project, FloorToMinute(s.startedAt)).count > 0
  {
    if spans[|spans| - 1] != s {
      MinuteOfMember(spans[..|spans| - 1], s);
    }
  }

  /** Summing buckets over a window gives what summing the spans of the same whole minutes would. */
  lemma WindowSumExact(table: seq<Bucket>, spans: seq<Span>, p: ProjectId, from: Instant, m: Measure)
    requires Refines(table, spans) && m != Tokens
    ensures WindowSum(table, p, from, m) == Sum(spans, SinceMinute(p, from), m)
  {
    forall b | b in table ensures BucketMeasure(m, b) == Sum(spans, InMinute(b.project, b.start), m) {
      LookupMember(table, b);
    }
    forall s | s in spans ensures HasBucket(table, (s.project, FloorToMinute(s.startedAt))) {
      MinuteOfMember(spans, s);
    }
    WindowSumIsFoldSum(table, spans, p, from, m);
    FoldSumIsSum(table, spans, p, from, m);
  }

  /**
   What an alert query answers, in terms of the span table. The bucketed window contains every span of
   the exact window, and beyond it only spans that started less than one minute earlier.
   */
  lemma AlertQueryRefinesSpans(table: seq<Bucket>, spans: seq<Span>, p: ProjectId, now: Instant, windowMinutes: nat)
    requires Refines(table, spans)
    ensures var sel := SinceMinute(p, WindowFrom(now, windowMinutes));
            var exactFrom := now - windowMinutes * MICROS_PER_MINUTE;
            && QueryBucketedAlertValue(table, p, CostHourly, now, windowMinutes)
               == Answer(Sum(spans, sel, Cost) as real / 100_000_000.0, Sum(spans, sel, Spans))
            && QueryBucketedAlertValue(table, p, ErrorRate, now, windowMinutes)
               == Answer(if Sum(spans, sel, Spans) == 0 then 0.0
                         else Sum(spans, sel, Errors) as real / Sum(spans, sel, Spans) as real * 100.0,
                         Sum(spans, sel, Spans))
            && QueryBucketedAlertValue(table, p, OtherMetric, now, windowMinutes) == UnsupportedMetric
            && (forall s :: s in spans && s.project == p && s.startedAt >= exactFrom ==> Selects(sel, s))
            && (forall s :: s in spans && Selects(sel, s) ==> s.startedAt > exactFrom - MICROS_PER_MINUTE)
            && (forall s :: s in spans ==>
                  (Selects(sel, s) <==> s.project == p && s.startedAt >= FloorToMinute(exactFrom)))
  {
    var from := WindowFrom(now, windowMinutes);
    WindowSumExact(table, spans, p, from, Spans);
    WindowSumExact(table, spans, p, from, Errors);
    WindowSumExact(table, spans, p, from, Cost);
    FloorIs(now - windowMinutes * MICROS_PER_MINUTE);
    forall s | s in spans
      ensures Selects(SinceMinute(p, from), s) <==> s.project == p && s.startedAt >= from
    {
      FloorCompares(now - windowMinutes * MICROS_PER_MINUTE, s.startedAt);
    }
  }

  lemma FloorCompares(a: Instant, t: Instant)
    ensures FloorToMinute(t) >= FloorToMinute(a) <==> t >= FloorToMinute(a)
  {
    assert t / MICROS_PER_MINUTE >= a / MICROS_PER_MINUTE <==> t >= a / MICROS_PER_MINUTE * MICROS_PER_MINUTE;
  }
}
